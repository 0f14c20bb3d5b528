/** The grid of attempts: covered exactly once, in a bounded number of adder steps. */
module LoadGrid {
  import ConfigTx
  import opened LoadModel
  import opened LoadInvariants

  /** The attempts an adder has made, read off the point it stands on. */
  function Made(accounts: nat): Adder -> nat {
    (a: Adder) => a.batch * accounts + a.index + if Attempted(a.phase) then 1 else 0
  }

  /** The attempts counted at the adders are the points recorded. */
  ghost predicate Tallied(c: Config, s: State) {
    |s.tried| == Sum(s.adders, Made(c.accounts))
  }

  lemma TalliedKept(c: Config, s: State, step: Step)
    requires c.Valid() && Enabled(c, s, step) && Tallied(c, s)
    requires forall t :: 0 <= t < |s.adders| ==> Standing(c, s.adders[t])
    requires |Apply(c, s, step).tried| == |s.tried| + if step.Call? then 1 else 0
    requires s.main.GoAdder? && s.main.i < |s.adders| ==> s.adders[s.main.i].phase.Idle?
    ensures Tallied(c, Apply(c, s, step))
  {
    AddersMove(c, s, step, Made(c.accounts));
    match step
    case Return(t, ok) => NextPointMade(c, s.adders[t]);
    case Bump(t) => NextPointMade(c, s.adders[t]);
    case _ =>
  }

  lemma NextPointMade(c: Config, a: Adder)
    requires Standing(c, a) && Attempted(a.phase)
    ensures Made(c.accounts)(NextPoint(c.accounts, a)) == Made(c.accounts)(a)
  {
    assert (a.batch + 1) * c.accounts == a.batch * c.accounts + c.accounts;
  }

  lemma {:induction false} RunTallies(c: Config, s: State, steps: seq<Step>, s': State)
    requires Inv(c, s) && Runs(c, s, steps, s') && Tallied(c, s)
    ensures Tallied(c, s')
    decreases |steps|
  {
    if steps != [] {
      StepKeeps(c, s, steps[0]);
      TriedGrows(c, s, steps[0]);
      TalliedKept(c, s, steps[0]);
      RunTallies(c, Apply(c, s, steps[0]), steps[1..], s');
    }
  }

  lemma ReachableTallies(c: Config, s: State)
    requires c.Valid() && Reachable(c, s)
    ensures Inv(c, s) && Tallied(c, s)
  {
    var s0, steps :| Init(c, s0) && Runs(c, s0, steps, s);
    InitHolds(c, s0);
    SumZero(s0.adders, Made(c.accounts));
    RunKeeps(c, s0, steps, s);
    RunTallies(c, s0, steps, s);
  }

  lemma {:induction false} SumAtMost(adders: seq<Adder>, f: Adder -> nat, m: nat)
    requires forall t :: 0 <= t < |adders| ==> f(adders[t]) <= m
    ensures Sum(adders, f) <= |adders| * m
    ensures (forall t :: 0 <= t < |adders| ==> f(adders[t]) == m) ==> Sum(adders, f) == |adders| * m
  {
    if adders != [] {
      var k := |adders| - 1;
      SumAtMost(adders[..k], f, m);
      assert |adders| * m == k * m + m;
    }
  }

  lemma MadeAtMost(c: Config, a: Adder)
    requires Standing(c, a)
    ensures Made(c.accounts)(a) <= c.batches * c.accounts
    ensures a.batch == c.batches ==> Made(c.accounts)(a) == c.batches * c.accounts
  {
    if a.batch < c.batches {
      ConfigTx.MulMono(c.accounts, a.batch + 1, c.batches);
      assert c.accounts * (a.batch + 1) == a.batch * c.accounts + c.accounts;
    }
  }

  /** In no reachable state have more attempts been made than the truncated target. */
  lemma AttemptsAtMostTarget(c: Config, s: State)
    requires c.Valid() && Reachable(c, s)
    ensures |s.tried| <= c.Attempts()
  {
    ReachableTallies(c, s);
    forall t | 0 <= t < |s.adders|
      ensures Made(c.accounts)(s.adders[t]) <= c.batches * c.accounts
    {
      MadeAtMost(c, s.adders[t]);
    }
    SumAtMost(s.adders, Made(c.accounts), c.batches * c.accounts);
  }

  /** The points of one account, one for every batch. */
  function Column(a: Acct, n: nat): (points: set<Point>)
    ensures |points| == n && forall p :: p in points <==> p.acct == a && p.batch < n
  {
    if n == 0 then {} else Column(a, n - 1) + {Point(a, n - 1)}
  }

  /**
  When every adder has come to its end, failed sends or not, the attempts made are the whole grid: each point
  once (FreshPoint says none is attempted twice), each account as often as there are batches, the run exactly
  the target.
  */
  lemma GridCoveredExactly(c: Config, s: State)
    requires c.Valid() && Reachable(c, s) && forall t :: 0 <= t < |s.adders| ==> s.adders[t].phase.Finished?
    ensures forall p :: p in s.tried <==> IsAcct(c, p.acct) && p.batch < c.batches
    ensures |s.tried| == c.Attempts() == s.tally.issued + s.tally.failed
    ensures forall a :: IsAcct(c, a) ==> |set p | p in s.tried && p.acct == a| == c.batches
  {
    GridOfReachable(c, s);
    FinishedMade(c, s);
    SumZero(s.adders, Callers);
    SumZero(s.adders, Uncounted);
    FinishedGrid(c, s.adders, s.tried);
  }

  lemma GridOfReachable(c: Config, s: State)
    requires c.Valid() && Reachable(c, s)
    ensures Grid(c, s.adders, s.tried) && Tallied(c, s)
    ensures |s.tried| == s.tally.oks + s.tally.failed + Sum(s.adders, Callers)
    ensures s.tally.oks == s.tally.issued + Sum(s.adders, Uncounted)
  {
    ReachableTallies(c, s);
  }

  lemma FinishedMade(c: Config, s: State)
    requires Grid(c, s.adders, s.tried) && Tallied(c, s)
    requires forall t :: 0 <= t < |s.adders| ==> s.adders[t].phase.Finished?
    ensures |s.tried| == c.Attempts()
  {
    forall t | 0 <= t < |s.adders|
      ensures Made(c.accounts)(s.adders[t]) == c.batches * c.accounts
    {
      MadeAtMost(c, s.adders[t]);
    }
    SumAtMost(s.adders, Made(c.accounts), c.batches * c.accounts);
  }

  lemma FinishedGrid(c: Config, adders: seq<Adder>, tried: set<Point>)
    requires Grid(c, adders, tried) && forall t :: 0 <= t < |adders| ==> adders[t].phase.Finished?
    ensures forall p :: p in tried <==> IsAcct(c, p.acct) && p.batch < c.batches
    ensures forall a :: IsAcct(c, a) ==> |set p | p in tried && p.acct == a| == c.batches
  {
    assert forall p :: p in tried <==> Passed(c, adders, p);
    forall a | IsAcct(c, a)
      ensures |set p | p in tried && p.acct == a| == c.batches
    {
      assert (set p | p in tried && p.acct == a) == Column(a, c.batches);
    }
  }

  /** What an adder still has to do: six moves a point at most, and less the further it is at the point. */
  function Rank(c: Config): Adder -> nat {
    (a: Adder) =>
      var left := c.batches * c.accounts - (a.batch * c.accounts + a.index);
      (if left > 0 then 6 * left else 0) + match a.phase {
        case Idle => 6
        case Waiting => 5
        case Holding => 4
        case Calling(_) => 3
        case Returned => 2
        case Counted => 1
        case Finished => 0
      }
  }

  function RankSum(c: Config, s: State): nat {
    Sum(s.adders, Rank(c))
  }

  /** Every step of an adder lowers the rank, and no other step raises it. */
  lemma AdderStepsLowerRank(c: Config, s: State, step: Step)
    requires c.Valid() && Enabled(c, s, step) && Grid(c, s.adders, s.tried)
    requires s.main.GoAdder? && s.main.i < |s.adders| ==> s.adders[s.main.i].phase.Idle?
    ensures RankSum(c, Apply(c, s, step)) + (if Mover(s, step).Some? then 1 else 0) <= RankSum(c, s)
  {
    AddersMove(c, s, step, Rank(c));
    match step
    case Return(t, ok) => NextPointRank(c, s.adders[t]);
    case Bump(t) => NextPointRank(c, s.adders[t]);
    case _ =>
  }

  lemma NextPointRank(c: Config, a: Adder)
    requires Standing(c, a) && Attempted(a.phase)
    ensures Rank(c)(NextPoint(c.accounts, a)) < Rank(c)(a)
  {
    assert (a.batch + 1) * c.accounts == a.batch * c.accounts + c.accounts;
    MadeAtMost(c, a);
  }

  /** The steps of a run that move an adder. */
  function Moves(c: Config, s: State, steps: seq<Step>): nat
    requires c.Valid()
    decreases |steps|
  {
    if steps == [] || !Enabled(c, s, steps[0]) then 0
    else (if Mover(s, steps[0]).Some? then 1 else 0) + Moves(c, Apply(c, s, steps[0]), steps[1..])
  }

  /** However the goroutines interleave, the adders take no more steps than their rank allows: none runs forever. */
  lemma {:induction false} AddersTerminate(c: Config, s: State, steps: seq<Step>, s': State)
    requires Inv(c, s) && Runs(c, s, steps, s')
    ensures Moves(c, s, steps) + RankSum(c, s') <= RankSum(c, s)
    decreases |steps|
  {
    if steps != [] {
      StepKeeps(c, s, steps[0]);
      AdderStepsLowerRank(c, s, steps[0]);
      AddersTerminate(c, Apply(c, s, steps[0]), steps[1..], s');
    }
  }

  /** From the start of a run that bound is six moves for each attempt of the target, and six for each adder. */
  lemma AdderMovesBounded(c: Config, s: State, steps: seq<Step>, s': State)
    requires Init(c, s) && Runs(c, s, steps, s')
    ensures Moves(c, s, steps) <= 6 * c.Attempts() + 6 * c.threads
  {
    InitHolds(c, s);
    AddersTerminate(c, s, steps, s');
    InitialRank(c, s);
  }

  lemma InitialRank(c: Config, s: State)
    requires |s.adders| == c.threads && forall t :: 0 <= t < |s.adders| ==> s.adders[t] == Adder(0, 0, Idle)
    ensures RankSum(c, s) <= 6 * c.Attempts() + 6 * c.threads
  {
    var m := 6 * (c.batches * c.accounts) + 6;
    SumAtMost(s.adders, Rank(c), m);
    SixTimes(c.threads, c.batches * c.accounts);
  }

  lemma SixTimes(t: nat, x: nat)
    ensures t * (6 * x + 6) == 6 * (t * x) + 6 * t
  {
  }
}
