/**
When the natural bound on sends in a window holds: with at most two attempts, or with one thread on a ticker of
one nanosecond, and in no other configuration. An adder that holds a tick can be held up before its send, and so
can the tick in the channel, so the sends of several periods can meet in one instant.
*/
module LoadBurst {
  import ConfigTx
  import opened LoadModel
  import opened LoadMoves
  import LoadGrid
  import LoadTheorems

  // ---- Ticks handed out ----

  /** One tick after the other is received, each by the next adder, and each of these is held up before its send. */
  lemma {:induction false} HandOut(c: Config, k: nat) returns (s: State)
    requires c.Valid() && c.batches > 0 && k <= c.threads
    ensures Reachable(c, s) && s.adders == Row(c.threads, k, Holding, Waiting)
    ensures s.limiter.now == k * c.period && s.limiter.slot == 0
  {
    if k == 0 {
      s := Spawn(c, c.threads);
      assert s.adders == Row(c.threads, 0, Holding, Waiting);
    } else {
      var p := HandOut(c, k - 1);
      NextTick(c.period, k - 1, 0);
      var q := ClockTo(c, p, k * c.period);
      s := Take(c, q, k - 1);
      assert s.adders == Row(c.threads, k, Holding, Waiting);
    }
  }

  lemma NextTick(period: nat, k: nat, r: nat)
    requires r < period
    ensures k * period + r < (k + 1) * period
    ensures (k * period + r) / period == k && ((k + 1) * period) / period == k + 1
  {
    ConfigTx.QuotientIsUnique(period, k, k * period + r, r);
    ConfigTx.QuotientIsUnique(period, k + 1, (k + 1) * period, 0);
    assert (k + 1) * period == k * period + period;
  }

  /** The first k of the adders that hold a tick start their sends. */
  lemma {:induction false} AllSend(c: Config, s: State, k: nat) returns (s': State)
    requires c.Valid() && Reachable(c, s) && k <= |s.adders|
    requires forall t :: 0 <= t < |s.adders| ==> s.adders[t].phase.Holding?
    ensures Leads(c, s, s') && Reachable(c, s') && s'.limiter == s.limiter && |s'.tried| == |s.tried| + k
    ensures |s'.adders| == |s.adders| && forall t :: k <= t < |s.adders| ==> s'.adders[t] == s.adders[t]
  {
    if k == 0 {
      s' := s;
      assert Runs(c, s, [], s);
    } else {
      var m := AllSend(c, s, k - 1);
      s' := Attempt(c, m, k - 1);
      Joined(c, s, m, s');
    }
  }

  // ---- Bursts ----

  /** In a window of no length all the adders of a run can start a send, whatever their number and the period. */
  lemma BurstOfAllThreads(c: Config) returns (s: State, s': State)
    requires c.Valid() && c.batches > 0
    ensures Reachable(c, s) && Leads(c, s, s') && s'.limiter.now == s.limiter.now
    ensures |s'.tried| - |s.tried| == c.threads
  {
    s := HandOut(c, c.threads);
    s' := AllSend(c, s, c.threads);
  }

  /** The first k adders hold a tick each, another one waits in the channel, and r more nanoseconds have passed. */
  lemma Loaded(c: Config, k: nat, r: nat) returns (s: State)
    requires c.Valid() && c.batches > 0 && k <= c.threads && r < c.period
    ensures Reachable(c, s) && s.adders == Row(c.threads, k, Holding, Waiting)
    ensures s.limiter.now == (k + 1) * c.period + r && s.limiter.slot == 1
  {
    var p := HandOut(c, k);
    NextTick(c.period, k, 0);
    NextTick(c.period, k + 1, r);
    s := ClockTo(c, p, (k + 1) * c.period + r);
  }

  /** Two adders hold a tick each, and a third tick waits for the first of them. */
  lemma BurstOfTwoThreads(c: Config) returns (s: State, s': State)
    requires c.Valid() && c.threads == 2 && c.batches * c.accounts >= 2
    ensures Reachable(c, s) && Leads(c, s, s') && s'.limiter.now == s.limiter.now
    ensures |s'.tried| - |s.tried| == 3
  {
    s := Loaded(c, 2, 0);
    SecondPoint(c);
    var m := AttemptTwice(c, s, 0, 1);
    var u := Take(c, m, 0);
    Joined(c, s, m, u);
    s' := Attempt(c, u, 0);
    Joined(c, s, u, s');
  }

  lemma AttemptTwice(c: Config, s: State, t: nat, u: nat) returns (s': State)
    requires c.Valid() && Reachable(c, s) && t != u && Standby(s, t, Holding) && Standby(s, u, Holding)
    ensures Leads(c, s, s') && Reachable(c, s') && s'.limiter == s.limiter && |s'.tried| == |s.tried| + 2
    ensures |s'.adders| == |s.adders| && s'.adders[t] == NextPoint(c.accounts, s.adders[t])
  {
    var m := Attempt(c, s, t);
    s' := Attempt(c, m, u);
    Joined(c, s, m, s');
  }

  /** With two attempts or more the first failure leaves another, with three the second one does. */
  lemma SecondPoint(c: Config)
    requires c.accounts > 0 && c.batches * c.accounts >= 2
    ensures
      var second := NextPoint(c.accounts, Adder(0, 0, Holding));
      && c.batches > 0 && second.batch < c.batches
      && (c.batches * c.accounts >= 3 ==> NextPoint(c.accounts, second.(phase := Holding)).batch < c.batches)
  {
    if c.batches == 0 {
      assert false;
    } else if c.batches == 1 {
      assert c.batches * c.accounts == c.accounts;
    } else if c.batches == 2 {
      assert c.batches * c.accounts == 2 * c.accounts;
    }
  }

  /** One adder holds a tick, a second waits in the channel and a third fires within the window. */
  lemma BurstOfOneThread(c: Config) returns (s: State, s': State)
    requires c.Valid() && c.threads == 1 && c.period >= 2 && c.batches * c.accounts >= 3
    ensures Reachable(c, s) && Leads(c, s, s') && s'.limiter.now == s.limiter.now + 1
    ensures |s'.tried| - |s.tried| == 3
  {
    SecondPoint(c);
    s := Loaded(c, 1, c.period - 1);
    var m := SendBoth(c, s);
    NextTick(c.period, 2, c.period - 1);
    var n := ClockTo(c, m, 3 * c.period);
    Joined(c, s, m, n);
    var u := Take(c, n, 0);
    Joined(c, s, n, u);
    s' := Attempt(c, u, 0);
    Joined(c, s, u, s');
  }

  /** The adder uses up the tick it holds and the one in the channel. */
  lemma SendBoth(c: Config, s: State) returns (s': State)
    requires c.Valid() && c.batches * c.accounts >= 3 && Reachable(c, s) && s.limiter.slot == 1
    requires s.adders == [Adder(0, 0, Holding)]
    ensures Leads(c, s, s') && Reachable(c, s') && |s'.tried| == |s.tried| + 2
    ensures s'.limiter.now == s.limiter.now && |s'.adders| == 1
    ensures s'.adders[0].phase.Waiting? && s'.adders[0].batch < c.batches
  {
    SecondPoint(c);
    var q := Attempt(c, s, 0);
    var u := Take(c, q, 0);
    Joined(c, s, q, u);
    s' := Attempt(c, u, 0);
    Joined(c, s, u, s');
  }

  // ---- The bound ----

  /** What a channel of one slot seems to give: at most d / period + 2 sends start in the d nanoseconds from s to s'. */
  predicate WithinBound(c: Config, s: State, s': State)
    requires c.period > 0
  {
    |s'.tried| - |s.tried| <= (s'.limiter.now - s.limiter.now) / c.period + 2
  }

  /** In a run with one thread and a tick every nanosecond, no instant is long enough for a second holder. */
  lemma OneThreadAtFullRate(c: Config, s: State, s': State)
    requires c.Valid() && c.threads == 1 && c.period == 1 && Reachable(c, s) && Leads(c, s, s')
    ensures |s'.tried| - |s.tried| <= s'.limiter.now - s.limiter.now + 2
  {
    var steps :| Runs(c, s, steps, s');
    LoadTheorems.LimitersOfWindow(c, s, steps, s');
    LoadTheorems.TicksOfWindow(c, s, steps, s');
    SumBounded(s.adders, Holders);
  }

  lemma TwoAttempts(c: Config, s: State, s': State)
    requires c.Valid() && c.Attempts() <= 2 && Reachable(c, s) && Leads(c, s, s')
    ensures |s'.tried| <= 2 && s.limiter.now <= s'.limiter.now
  {
    Joined(c, s, s, s') by {
      assert Runs(c, s, [], s);
    }
    LoadGrid.AttemptsAtMostTarget(c, s');
    var steps :| Runs(c, s, steps, s');
    LoadTheorems.WindowBound(c, s, steps, s');
  }

  /**
  In any window of d nanoseconds of any run, at most d / period + 2 sends start, if and only if the run has at most
  two attempts, or one thread and a tick every nanosecond.
  */
  lemma WindowBoundHoldsExactlyWhen(c: Config)
    requires c.Valid()
    ensures
      (forall s, s' :: Reachable(c, s) && Leads(c, s, s') ==> WithinBound(c, s, s'))
      <==> c.Attempts() <= 2 || (c.threads == 1 && c.period == 1)
  {
    if c.Attempts() <= 2 {
      forall s, s' | Reachable(c, s) && Leads(c, s, s')
        ensures WithinBound(c, s, s')
      {
        TwoAttempts(c, s, s');
      }
    } else if c.threads == 1 && c.period == 1 {
      forall s, s' | Reachable(c, s) && Leads(c, s, s')
        ensures WithinBound(c, s, s')
      {
        OneThreadAtFullRate(c, s, s');
      }
    } else {
      var s, s' := OtherwiseItBursts(c);
    }
  }

  lemma OtherwiseItBursts(c: Config) returns (s: State, s': State)
    requires c.Valid() && c.Attempts() >= 3 && (c.threads > 1 || c.period > 1)
    ensures Reachable(c, s) && Leads(c, s, s')
    ensures !WithinBound(c, s, s')
  {
    if c.threads == 1 {
      s, s' := BurstOfOneThread(c);
    } else if c.threads == 2 {
      s, s' := BurstOfTwoThreads(c);
    } else {
      s, s' := BurstOfAllThreads(c);
    }
  }
}
