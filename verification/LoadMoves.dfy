/** Ways to get from one reachable state of the load run to another. */
module LoadMoves {
  import BlockDB
  import Collector
  import ConfigTx
  import opened LoadModel
  import LoadInvariants

  ghost predicate Leads(c: Config, s: State, s': State)
    requires c.Valid()
  {
    exists steps :: Runs(c, s, steps, s')
  }

  lemma Joined(c: Config, s: State, m: State, s': State)
    requires c.Valid() && Reachable(c, s) && Leads(c, s, m) && Leads(c, m, s')
    ensures Leads(c, s, s') && Reachable(c, s')
  {
    var xs :| Runs(c, s, xs, m);
    var ys :| Runs(c, m, ys, s');
    RunsAppend(c, s, xs, m, ys, s');
    ReachableExtends(c, s, xs + ys, s');
  }

  lemma Moved(c: Config, s: State, step: Step)
    requires c.Valid() && Reachable(c, s) && Enabled(c, s, step)
    ensures Leads(c, s, Apply(c, s, step)) && Reachable(c, Apply(c, s, step))
  {
    ReachableStep(c, s, step);
    assert [step][1..] == [];
    assert Runs(c, s, [step], Apply(c, s, step));
  }

  /** Nothing but time passes until n; a tick that fires meanwhile waits in the channel. */
  lemma {:induction false} ClockTo(c: Config, s: State, n: nat) returns (s': State)
    requires c.Valid() && Reachable(c, s) && s.limiter.now <= n
    ensures Leads(c, s, s') && Reachable(c, s') && s' == s.(limiter := s'.limiter) && s'.limiter.now == n
    ensures s'.limiter.slot == if n / c.period > s.limiter.now / c.period then 1 else s.limiter.slot
    decreases n
  {
    if s.limiter.now == n {
      s' := s;
      assert Runs(c, s, [], s);
    } else {
      var p := ClockTo(c, s, n - 1);
      Later(c.period, s.limiter.now, n - 1);
      s' := ClockOnce(c, p);
      Joined(c, s, p, s');
    }
  }

  lemma ClockOnce(c: Config, s: State) returns (s': State)
    requires c.Valid() && Reachable(c, s)
    ensures Leads(c, s, s') && Reachable(c, s') && s' == s.(limiter := s'.limiter)
    ensures
      var now := s'.limiter.now;
      && now == s.limiter.now + 1 && s.limiter.now / c.period <= now / c.period
      && s'.limiter.slot == if now / c.period > s.limiter.now / c.period then 1 else s.limiter.slot
  {
    Moved(c, s, Clock);
    s' := Apply(c, s, Clock);
    ConfigTx.QuotientOfNext(s.limiter.now, c.period);
  }

  lemma {:induction false} Later(period: nat, m: nat, n: nat)
    requires period > 0 && m <= n
    ensures m / period <= n / period
    decreases n
  {
    if m < n {
      Later(period, m, n - 1);
      ConfigTx.QuotientOfNext(n - 1, period);
    }
  }

  /** The adder receives the tick in the channel. */
  lemma Take(c: Config, s: State, t: nat) returns (s': State)
    requires c.Valid() && Reachable(c, s)
    requires Standby(s, t, Waiting) && s.adders[t].batch < c.batches && s.limiter.slot == 1
    ensures Leads(c, s, s') && Reachable(c, s') && s'.adders == InPhase(s.adders, t, Holding) && s'.tried == s.tried
    ensures s'.limiter.now == s.limiter.now && s'.limiter.slot == 0 && s'.main == s.main
  {
    Moved(c, s, Receive(t));
    s' := Apply(c, s, Receive(t));
  }

  /** The adder starts the send it holds a tick for; the call fails, and it moves on. */
  lemma Attempt(c: Config, s: State, t: nat) returns (s': State)
    requires c.Valid() && Reachable(c, s) && Standby(s, t, Holding)
    ensures Leads(c, s, s') && Reachable(c, s') && s'.limiter == s.limiter && |s'.tried| == |s.tried| + 1
    ensures s'.adders == s.adders[t := NextPoint(c.accounts, s.adders[t])]
  {
    var m := StartSend(c, s, t);
    s' := FailSend(c, m, t);
    Joined(c, s, m, s');
  }

  lemma StartSend(c: Config, s: State, t: nat) returns (s': State)
    requires c.Valid() && Reachable(c, s) && Standby(s, t, Holding)
    ensures Leads(c, s, s') && Reachable(c, s') && s'.limiter == s.limiter && |s'.tried| == |s.tried| + 1
    ensures t < |s'.adders| && s'.adders == InPhase(s.adders, t, s'.adders[t].phase) && s'.adders[t].phase.Calling?
    ensures At(s'.adders, t) in s'.client.wins
  {
    AdderFacts(c, s, t);
    LoadInvariants.FreshPoint(c, s, t);
    Moved(c, s, Call(t));
    s' := Apply(c, s, Call(t));
  }

  lemma FailSend(c: Config, s: State, t: nat) returns (s': State)
    requires c.Valid() && Reachable(c, s) && t < |s.adders| && s.adders[t].phase.Calling?
    requires At(s.adders, t) in s.client.wins
    ensures Leads(c, s, s') && Reachable(c, s') && s'.limiter == s.limiter && s'.tried == s.tried
    ensures s'.adders == s.adders[t := NextPoint(c.accounts, s.adders[t])]
  {
    Moved(c, s, Return(t, false));
    s' := Apply(c, s, Return(t, false));
  }

  lemma AdderFacts(c: Config, s: State, t: nat)
    requires c.Valid() && Reachable(c, s) && t < |s.adders|
    ensures LoadInvariants.Grid(c, s.adders, s.tried) && LoadInvariants.Synced(c, s, At(s.adders, t))
    ensures s.main.GoAdder? && s.main.i < |s.adders| ==> s.adders[s.main.i].phase.Idle?
  {
    LoadInvariants.ReachableKeeps(c, s);
    assert LoadInvariants.Acts(c, s, t) && IsAcct(c, At(s.adders, t));
  }

  // ---- Every valid configuration has a run ----

  function Accts(c: Config): (accts: set<Acct>)
    ensures forall a :: a in accts <==> IsAcct(c, a)
  {
    set t: nat, i: nat | t < c.threads && i < c.accounts :: Acct(t, i)
  }

  /** An initial state: every account known, and a chain of one block. */
  function Start(c: Config): State {
    var nonces := map a | a in Accts(c) :: c.nonce0(a);
    var scan := Collector.Scan(0, 0, c.rows0, Collector.Running);
    State(
      Limiter(0, 0, 0, 0), seq(c.threads, t => Adder(0, 0, Idle)), {}, Tally(0, 0, 0),
      Client(nonces, map a | a in Accts(c) :: 0),
      Chain({}, {}, {}, {}, nonces, [ChainBlock({}, BlockDB.Block(0, 0, 0, 0, 0))]),
      Watch(NotStarted, scan, scan), if c.collecting then AddCollector else AddAdder(0), 0)
  }

  lemma StartIsInitial(c: Config)
    requires c.Valid()
    ensures Init(c, Start(c)) && Reachable(c, Start(c))
  {
    assert Runs(c, Start(c), [], Start(c));
  }

  // ---- The adders are started ----

  /** All adders at their first point, the first k of them in one phase and the others in another. */
  function Row(threads: nat, k: nat, first: AdderPhase, others: AdderPhase): seq<Adder> {
    seq(threads, t => Adder(0, 0, if t < k then first else others))
  }

  /** Where the collector is once the main goroutine has started it, if there is one. */
  function Launched(c: Config): Watch {
    if c.collecting then Start(c).watch.(phase := Starting) else Start(c).watch
  }

  /** The main goroutine has started the first k adders, and the collector if there is one, before any time passes. */
  lemma {:induction false} Spawn(c: Config, k: nat) returns (s: State)
    requires c.Valid() && k <= c.threads
    ensures Reachable(c, s) && s.adders == Row(c.threads, k, Waiting, Idle) && s.main == AddAdder(k)
    ensures s == Start(c).(adders := s.adders, main := s.main, wg := s.wg, watch := Launched(c))
  {
    if k == 0 {
      s := Launch(c);
      assert s.adders == Row(c.threads, 0, Waiting, Idle);
    } else {
      var p := Spawn(c, k - 1);
      Moved(c, p, Main);
      p := Apply(c, p, Main);
      Moved(c, p, Main);
      s := Apply(c, p, Main);
      assert s.adders == Row(c.threads, k, Waiting, Idle);
    }
  }

  lemma Launch(c: Config) returns (s: State)
    requires c.Valid()
    ensures Reachable(c, s) && s == Start(c).(main := AddAdder(0), wg := s.wg, watch := Launched(c))
  {
    s := Start(c);
    StartIsInitial(c);
    if c.collecting {
      Moved(c, s, Main);
      s := Apply(c, s, Main);
      Moved(c, s, Main);
      s := Apply(c, s, Main);
    }
  }
}
