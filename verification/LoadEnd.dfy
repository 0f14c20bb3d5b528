/** Nothing in a load run can get stuck: from every reachable state the adders can finish, and Run can return. */
module LoadEnd {
  import opened Prelude
  import ConfigTx
  import opened LoadModel
  import opened LoadInvariants
  import opened LoadGrid
  import opened LoadMoves

  /** The step an adder takes next: its calls fail, everything else has only one way to go. */
  function NextStep(c: Config, a: Adder, t: nat): Step {
    match a.phase
    case Holding => Call(t)
    case Calling(_) => Return(t, false)
    case Returned => Count(t)
    case Counted => Bump(t)
    case _ => if a.batch < c.batches then Receive(t) else Done(t)
  }

  predicate Started(a: Adder) {
    !a.phase.Idle?
  }

  /** From s to s', adder t alone has moved, and the main goroutine and the collector have not. */
  ghost predicate OnlyMoves(c: Config, s: State, s': State, t: nat)
    requires c.Valid()
  {
    && Reachable(c, s) && Reachable(c, s') && Leads(c, s, s')
    && t < |s.adders| == |s'.adders| && s'.adders == s.adders[t := s'.adders[t]]
    && s'.main == s.main && s'.watch == s.watch
    && Started(s.adders[t]) && Started(s'.adders[t])
  }

  /** The limiter does not hold an adder up for ever: the next tick waits for it. */
  lemma WithTick(c: Config, s: State, t: nat) returns (s': State)
    requires c.Valid() && Reachable(c, s) && t < |s.adders| && Started(s.adders[t])
    ensures OnlyMoves(c, s, s', t) && s' == s.(limiter := s'.limiter) && s'.limiter.slot == 1
  {
    var k := s.limiter.now / c.period;
    NextTick(c.period, s.limiter.now);
    s' := ClockTo(c, s, (k + 1) * c.period);
  }

  lemma NextTick(period: nat, now: nat)
    requires period > 0
    ensures now < (now / period + 1) * period && ((now / period + 1) * period) / period == now / period + 1
  {
    var k := now / period;
    assert now == period * k + now % period;
    assert (k + 1) * period == period * k + period;
    ConfigTx.QuotientIsUnique(period, k + 1, (k + 1) * period, 0);
  }

  lemma NextIsEnabled(c: Config, s: State, t: nat)
    requires c.Valid() && Reachable(c, s) && t < |s.adders|
    requires Started(s.adders[t]) && !s.adders[t].phase.Finished? && s.limiter.slot == 1
    ensures Enabled(c, s, NextStep(c, s.adders[t], t))
  {
    AdderFacts(c, s, t);
  }

  lemma RankFalls(c: Config, s: State, t: nat)
    requires c.Valid() && Grid(c, s.adders, s.tried) && t < |s.adders|
    requires s.main.GoAdder? && s.main.i < |s.adders| ==> s.adders[s.main.i].phase.Idle?
    requires Started(s.adders[t]) && Enabled(c, s, NextStep(c, s.adders[t], t))
    ensures
      var s' := Apply(c, s, NextStep(c, s.adders[t], t));
      && |s'.adders| == |s.adders| && s'.adders == s.adders[t := s'.adders[t]]
      && Rank(c)(s'.adders[t]) < Rank(c)(s.adders[t])
  {
    var step := NextStep(c, s.adders[t], t);
    AdderStepsLowerRank(c, s, step);
    AddersMove(c, s, step, Rank(c));
  }

  lemma Advance(c: Config, s: State, t: nat) returns (s': State)
    requires c.Valid() && Reachable(c, s) && t < |s.adders|
    requires Started(s.adders[t]) && !s.adders[t].phase.Finished?
    ensures OnlyMoves(c, s, s', t) && Rank(c)(s'.adders[t]) < Rank(c)(s.adders[t])
  {
    var m := WithTick(c, s, t);
    s' := AdvanceWithTick(c, m, t);
    Joined(c, s, m, s');
  }

  lemma AdvanceWithTick(c: Config, s: State, t: nat) returns (s': State)
    requires c.Valid() && Reachable(c, s) && t < |s.adders| && s.limiter.slot == 1
    requires Started(s.adders[t]) && !s.adders[t].phase.Finished?
    ensures OnlyMoves(c, s, s', t) && Rank(c)(s'.adders[t]) < Rank(c)(s.adders[t])
  {
    s' := AfterNext(c, s, t);
    Moved(c, s, NextStep(c, s.adders[t], t));
  }

  lemma AfterNext(c: Config, s: State, t: nat) returns (s': State)
    requires c.Valid() && Reachable(c, s) && t < |s.adders| && s.limiter.slot == 1
    requires Started(s.adders[t]) && !s.adders[t].phase.Finished?
    ensures Enabled(c, s, NextStep(c, s.adders[t], t)) && s' == Apply(c, s, NextStep(c, s.adders[t], t))
    ensures |s'.adders| == |s.adders| && s'.adders == s.adders[t := s'.adders[t]] && Started(s'.adders[t])
    ensures s'.main == s.main && s'.watch == s.watch && Rank(c)(s'.adders[t]) < Rank(c)(s.adders[t])
  {
    NextIsEnabled(c, s, t);
    AdderFacts(c, s, t);
    RankFalls(c, s, t);
    s' := Apply(c, s, NextStep(c, s.adders[t], t));
  }

  /** One adder is taken to the end of its grid. */
  lemma {:induction false} Finish(c: Config, s: State, t: nat) returns (s': State)
    requires c.Valid() && Reachable(c, s) && t < |s.adders| && Started(s.adders[t])
    ensures OnlyMoves(c, s, s', t) && s'.adders[t].phase.Finished?
    decreases Rank(c)(s.adders[t])
  {
    if s.adders[t].phase.Finished? {
      s' := s;
      assert Runs(c, s, [], s);
    } else {
      var m := Advance(c, s, t);
      s' := Finish(c, m, t);
      Joined(c, s, m, s');
    }
  }

  lemma {:induction false} FinishFirst(c: Config, s: State, k: nat) returns (s': State)
    requires c.Valid() && Reachable(c, s) && k <= |s.adders|
    ensures Leads(c, s, s') && Reachable(c, s') && |s'.adders| == |s.adders|
    ensures s'.main == s.main && s'.watch == s.watch
    ensures forall t :: 0 <= t < k ==> s'.adders[t].phase == if Started(s.adders[t]) then Finished else Idle
    ensures forall t :: k <= t < |s.adders| ==> s'.adders[t] == s.adders[t]
  {
    if k == 0 {
      s' := s;
      assert Runs(c, s, [], s);
    } else {
      var m := FinishFirst(c, s, k - 1);
      if Started(s.adders[k - 1]) {
        s' := Finish(c, m, k - 1);
        Joined(c, s, m, s');
      } else {
        s' := m;
      }
    }
  }

  /**
  From every reachable state some run takes every adder that has been started to its end, whatever main goroutine and
  collector do: the adders wait for nothing but the ticker.
  */
  lemma AddersCanFinish(c: Config, s: State)
    requires c.Valid() && Reachable(c, s)
    ensures exists s' ::
      && Leads(c, s, s') && |s'.adders| == |s.adders| && s'.main == s.main && s'.watch == s.watch
      && forall t :: 0 <= t < |s.adders| ==> s'.adders[t].phase == if Started(s.adders[t]) then Finished else Idle
  {
    var s' := FinishFirst(c, s, |s.adders|);
  }

  // ---- Run returns ----

  /** The steps the main goroutine has left before it waits. */
  function MainLeft(c: Config, main: MainPc): int {
    match main
    case AddCollector => 2 * c.threads + 3
    case GoCollector => 2 * c.threads + 2
    case AddAdder(i) => 2 * (c.threads - i) + 1
    case GoAdder(i) => 2 * (c.threads - i)
    case _ => 0
  }

  lemma GroupFacts(c: Config, s: State)
    requires c.Valid() && Reachable(c, s)
    ensures Grouped(c, s.adders, s.watch, s.main, s.wg)
  {
    ReachableKeeps(c, s);
  }

  lemma MainFacts(c: Config, s: State)
    requires c.Valid() && Grouped(c, s.adders, s.watch, s.main, s.wg)
    ensures |s.adders| == c.threads && MainLeft(c, s.main) >= 0
    ensures !s.main.AtWait? && !s.main.AfterWait? ==>
      Enabled(c, s, Main) && MainLeft(c, Apply(c, s, Main).main) < MainLeft(c, s.main)
    ensures s.main.AtWait? || s.main.AfterWait? ==> forall t :: 0 <= t < |s.adders| ==> Started(s.adders[t])
  {
  }

  lemma {:induction false} MainWaits(c: Config, s: State) returns (s': State)
    requires c.Valid() && Reachable(c, s)
    ensures Leads(c, s, s') && Reachable(c, s') && (s'.main.AtWait? || s'.main.AfterWait?)
    decreases MainLeft(c, s.main)
  {
    GroupFacts(c, s);
    MainFacts(c, s);
    if s.main.AtWait? || s.main.AfterWait? {
      s' := s;
      assert Runs(c, s, [], s);
    } else {
      Moved(c, s, Main);
      var m := Apply(c, s, Main);
      GroupFacts(c, m);
      MainFacts(c, m);
      s' := MainWaits(c, m);
      Joined(c, s, m, s');
    }
  }

  /** The collector can always stop: at the latest its next read fails. */
  lemma CollectorStops(c: Config, s: State) returns (s': State)
    requires c.Valid() && Reachable(c, s)
    ensures Leads(c, s, s') && Reachable(c, s') && !CollectorLive(s'.watch)
    ensures s'.adders == s.adders && s'.main == s.main
  {
    if !CollectorLive(s.watch) {
      s' := s;
      assert Runs(c, s, [], s);
    } else if s.watch.phase.Starting? {
      Moved(c, s, Begin(Err));
      var m := Apply(c, s, Begin(Err));
      s' := PollFails(c, m);
      Joined(c, s, m, s');
    } else {
      s' := PollFails(c, s);
    }
  }

  lemma PollFails(c: Config, s: State) returns (s': State)
    requires c.Valid() && Reachable(c, s) && Begun(s.watch)
    ensures Leads(c, s, s') && Reachable(c, s') && !CollectorLive(s'.watch)
    ensures s'.adders == s.adders && s'.main == s.main
  {
    if !CollectorLive(s.watch) {
      s' := s;
      assert Runs(c, s, [], s);
    } else {
      var step := if s.watch.phase.Polling? then Poll(Err) else ScanBlock(false);
      Moved(c, s, step);
      s' := Apply(c, s, step);
    }
  }

  /** When all have ended, the counter is 0 and Wait returns. */
  lemma WaitReturns(c: Config, s: State)
    requires c.Valid() && Reachable(c, s) && s.main.AtWait? && !CollectorLive(s.watch)
    requires forall t :: 0 <= t < |s.adders| ==> s.adders[t].phase.Finished?
    ensures Enabled(c, s, Main)
  {
    GroupFacts(c, s);
    SumZero(s.adders, Live);
  }

  /** From every reachable state some run leads past Wait: there is no deadlock, and no counter that stays up. */
  lemma RunCanReturn(c: Config, s: State)
    requires c.Valid() && Reachable(c, s)
    ensures exists s' :: Leads(c, s, s') && Reachable(c, s') && s'.main.AfterWait?
  {
    var m := MainWaits(c, s);
    if m.main.AtWait? {
      var s' := WaitEnds(c, m);
      Joined(c, s, m, s');
    }
  }

  lemma WaitEnds(c: Config, s: State) returns (s': State)
    requires c.Valid() && Reachable(c, s) && s.main.AtWait?
    ensures Leads(c, s, s') && Reachable(c, s') && s'.main.AfterWait?
  {
    GroupFacts(c, s);
    MainFacts(c, s);
    var m := FinishFirst(c, s, |s.adders|);
    var n := CollectorStops(c, m);
    Joined(c, s, m, n);
    WaitReturns(c, n);
    Moved(c, n, Main);
    s' := Apply(c, n, Main);
    Joined(c, s, n, s');
  }
}
