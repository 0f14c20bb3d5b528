/** What holds in every reachable state of the load run, for every interleaving. */
module LoadTheorems {
  import opened Collector
  import opened ConfigTx
  import opened LoadModel
  import opened LoadInvariants
  import LoadGrid

  // ---- Conservation ----

  /**
  Attempts are issued, failed or in flight. Accepted transactions are pending or in exactly one block. The
  collector's counter is the total of exactly the blocks after the one it began at, up to the last one it took.
  */
  lemma Conservation(c: Config, s: State)
    requires c.Valid() && Reachable(c, s)
    ensures |s.tried| == s.tally.issued + s.tally.failed + Sum(s.adders, Callers) + Sum(s.adders, Uncounted)
    ensures |s.chain.accepted| == |s.chain.pending| + Ours(s.chain.blocks, |s.chain.blocks|)
    ensures forall tx :: tx in s.chain.accepted <==> tx in s.chain.pending || Mined(s.chain.blocks, tx)
    ensures forall m, n, tx :: InBlock(s.chain.blocks, m, tx) && InBlock(s.chain.blocks, n, tx) ==> m == n
    ensures Begun(s.watch) ==>
      s.watch.scan.mined == TxSum(WorldOf(c, s.chain.blocks), s.watch.begin.last, s.watch.scan.last)
  {
    ReachableKeeps(c, s);
    if Begun(s.watch) && s.watch.begin.status.Running? {
      ScanIsCut(c.stop, WorldOf(c, s.chain.blocks), s.watch.begin, s.watch.scan.last);
    }
  }

  /** The collector of a run is the reference scan of the chain as it now stands, whatever heads it was shown. */
  lemma CollectorIsReferenceScan(c: Config, s: State)
    requires c.Valid() && Reachable(c, s) && Begun(s.watch) && s.watch.begin.status.Running?
    ensures
      var r := ScanTo(c.stop, WorldOf(c, s.chain.blocks), s.watch.begin, s.watch.scan.last);
      s.watch.scan == r || (s.watch.scan.status.Failed? && s.watch.scan == r.(status := Failed))
    ensures s.watch.begin == Scan(s.watch.begin.last, 0, c.rows0, Running)
    ensures c.startBlock != -1 ==> s.watch.begin.last == c.startBlock
  {
    ReachableKeeps(c, s);
  }

  // ---- Completion ----

  /** The blocks the collector has taken hold no transactions but this load's. */
  predicate OnlyOurs(s: State) {
    forall n :: s.watch.begin.last < n <= s.watch.scan.last && 0 <= n < |s.chain.blocks| ==>
      s.chain.blocks[n].header.txcount == |s.chain.blocks[n].ours|
  }

  /** All attempts of the target were accepted, and mined in blocks the collector has taken. */
  ghost predicate AllMinedInRange(c: Config, s: State) {
    && |s.chain.accepted| == c.Attempts()
    && forall tx :: tx in s.chain.accepted ==>
         exists n :: InBlock(s.chain.blocks, n, tx) && s.watch.begin.last < n <= s.watch.scan.last
  }

  /** The meter is shared with the loader, so the target is the loader's, and there is no end block. */
  predicate SharedTarget(c: Config) {
    c.stop == Target(c.Attempts(), -1) && c.Attempts() > 0
  }

  lemma {:induction false} SumInRange(c: Config, blocks: seq<ChainBlock>, from: nat, to: nat)
    requires from <= to < |blocks|
    requires forall n :: from < n <= to ==> blocks[n].header.txcount == |blocks[n].ours|
    ensures Ours(blocks, to + 1) == Ours(blocks, from + 1) + TxSum(WorldOf(c, blocks), from, to)
  {
    if from < to {
      SumInRange(c, blocks, from, to - 1);
    }
  }

  lemma {:induction false} OursGrows(blocks: seq<ChainBlock>, m: nat, n: nat)
    requires m <= n <= |blocks|
    ensures Ours(blocks, m) <= Ours(blocks, n)
    ensures Ours(blocks, m) == Ours(blocks, n) <==> forall k :: m <= k < n ==> blocks[k].ours == {}
  {
    if m < n {
      OursGrows(blocks, m, n - 1);
    }
  }

  /** No more is accepted than was sent, and no more sent than attempted. */
  lemma AcceptedAtMostAttempted(c: Config, s: State)
    requires c.Valid() && Reachable(c, s)
    ensures |s.chain.accepted| <= |s.chain.sent| <= |s.tried| <= c.Attempts()
  {
    ReachableKeeps(c, s);
    LoadGrid.AttemptsAtMostTarget(c, s);
    SubsetSize(s.chain.accepted, s.chain.sent);
  }

  lemma SubsetSize<T>(a: set<T>, b: set<T>)
    requires a <= b
    ensures |a| <= |b|
  {
    assert b == a + (b - a);
  }

  /**
  Completion is sound and complete: the collector has ended the run if and only if every attempt of the target
  was accepted and mined in blocks it took. In particular it never ends early, and when everything is mined
  after its start and it has scanned to the head, it has ended.
  */
  lemma CompleteExactlyWhenAllMined(c: Config, s: State)
    requires c.Valid() && Reachable(c, s) && SharedTarget(c)
    requires Begun(s.watch) && s.watch.begin.status.Running? && OnlyOurs(s)
    ensures s.watch.scan.status.Complete? <==> AllMinedInRange(c, s)
    ensures s.watch.scan.status.Complete? ==> |s.tried| == c.Attempts() && s.chain.pending == {}
  {
    AcceptedAtMostAttempted(c, s);
    ReachableKeeps(c, s);
    var blocks, from, to := s.chain.blocks, s.watch.begin.last, s.watch.scan.last;
    var w := WorldOf(c, blocks);
    ScanIsCut(c.stop, w, s.watch.begin, to);
    if to < |blocks| {
      SumInRange(c, blocks, from, to);
      OursGrows(blocks, 0, from + 1);
      OursGrows(blocks, to + 1, |blocks|);
      RangeIsEverything(c, s);
    } else {
      assert from == to && s.watch.scan.mined == 0;
      NothingInRange(c, s);
    }
  }

  /** An empty range does not hold everything accepted, if that is the whole target. */
  lemma NothingInRange(c: Config, s: State)
    requires c.Attempts() > 0 && s.watch.begin.last == s.watch.scan.last
    ensures !AllMinedInRange(c, s)
  {
    if |s.chain.accepted| == c.Attempts() {
      assert s.chain.accepted != {};
      var tx :| tx in s.chain.accepted;
      assert !exists n :: InBlock(s.chain.blocks, n, tx) && s.watch.begin.last < n <= s.watch.scan.last;
    }
  }

  /**
  The range holds as many of ours as the target exactly when everything accepted is in it, and that is the target.
  */
  lemma RangeIsEverything(c: Config, s: State)
    requires Inv(c, s) && |s.chain.accepted| <= c.Attempts()
    requires 0 <= s.watch.begin.last <= s.watch.scan.last < |s.chain.blocks|
    ensures
      var blocks := s.chain.blocks;
      var inRange := Ours(blocks, s.watch.scan.last + 1) - Ours(blocks, s.watch.begin.last + 1);
      && (inRange >= c.Attempts() <==> AllMinedInRange(c, s))
      && (inRange >= c.Attempts() ==> s.chain.pending == {})
  {
    var blocks, from, to := s.chain.blocks, s.watch.begin.last, s.watch.scan.last;
    OursGrows(blocks, 0, from + 1);
    OursGrows(blocks, to + 1, |blocks|);
    OursGrows(blocks, from + 1, to + 1);
    if Ours(blocks, to + 1) - Ours(blocks, from + 1) >= c.Attempts() {
      forall tx | tx in s.chain.accepted
        ensures exists n :: InBlock(blocks, n, tx) && from < n <= to
      {
        var n :| InBlock(blocks, n, tx);
      }
    }
    if AllMinedInRange(c, s) {
      OnlyInRange(c, s);
    }
  }

  lemma OnlyInRange(c: Config, s: State)
    requires Inv(c, s) && AllMinedInRange(c, s)
    ensures s.chain.pending == {}
    ensures forall k :: 0 <= k < |s.chain.blocks| && !(s.watch.begin.last < k <= s.watch.scan.last) ==>
      s.chain.blocks[k].ours == {}
  {
    forall k, tx | InBlock(s.chain.blocks, k, tx)
      ensures s.watch.begin.last < k <= s.watch.scan.last
    {
      var n :| InBlock(s.chain.blocks, n, tx) && s.watch.begin.last < n <= s.watch.scan.last;
    }
    forall k | 0 <= k < |s.chain.blocks| && !(s.watch.begin.last < k <= s.watch.scan.last)
      ensures s.chain.blocks[k].ours == {}
    {
      assert forall tx :: tx in s.chain.blocks[k].ours ==> InBlock(s.chain.blocks, k, tx);
    }
    forall tx | tx in s.chain.accepted
      ensures tx !in s.chain.pending
    {
      var n :| InBlock(s.chain.blocks, n, tx) && s.watch.begin.last < n <= s.watch.scan.last;
    }
  }

  /** No accepted send has been reported as an error: what was accepted was reported, or the call is still open. */
  ghost predicate Unambiguous(s: State) {
    forall tx :: tx in s.chain.accepted ==> tx in s.chain.reported || tx in OpenCalls(s.adders)
  }

  /** The transactions of the calls that have not returned. */
  function OpenCalls(adders: seq<Adder>): (txs: set<Tx>)
    ensures |txs| <= Sum(adders, Callers)
  {
    if adders == [] then {}
    else
      var t := |adders| - 1;
      var a := adders[t];
      OpenCalls(adders[..t]) + if a.phase.Calling? then {Tx(Acct(t, a.index), a.phase.nonce)} else {}
  }

  /** Without ambiguous failures, each failed attempt is a transaction that is missing. */
  lemma FailuresAreMissing(c: Config, s: State)
    requires c.Valid() && Reachable(c, s) && Unambiguous(s)
    ensures |s.chain.accepted| + s.tally.failed <= |s.tried|
  {
    ReachableKeeps(c, s);
    SubsetSize(s.chain.accepted, s.chain.reported + OpenCalls(s.adders));
  }

  /**
  What makes the target unreachable: a failed send, whether or not the collector has begun, or a transaction mined
  before the collector's first block.
  */
  ghost predicate Doomed(s: State) {
    s.tally.failed > 0 || (Begun(s.watch) && exists n, tx :: InBlock(s.chain.blocks, n, tx) && n <= s.watch.begin.last)
  }

  lemma {:induction false} DoomIsForever(c: Config, s: State, steps: seq<Step>, s': State)
    requires Inv(c, s) && Runs(c, s, steps, s') && Doomed(s)
    ensures Doomed(s')
    decreases |steps|
  {
    if steps != [] {
      StepKeeps(c, s, steps[0]);
      StepKeepsDoom(c, s, steps[0]);
      DoomIsForever(c, Apply(c, s, steps[0]), steps[1..], s');
    }
  }

  lemma StepKeepsDoom(c: Config, s: State, step: Step)
    requires c.Valid() && Enabled(c, s, step) && Doomed(s)
    requires s.main.GoCollector? ==> s.watch.phase.NotStarted?
    ensures Doomed(Apply(c, s, step))
  {
    var s' := Apply(c, s, step);
    if s.tally.failed == 0 {
      var n, tx :| InBlock(s.chain.blocks, n, tx) && n <= s.watch.begin.last;
      assert InBlock(s'.chain.blocks, n, tx);
    }
  }

  /**
  Once a send has failed, or a transaction was mined in a block the collector does not look at, no
  continuation of the run ever reaches the target.
  */
  lemma DoomedNeverCompletes(c: Config, s: State, steps: seq<Step>, s': State)
    requires c.Valid() && Reachable(c, s) && Runs(c, s, steps, s') && SharedTarget(c)
    requires Doomed(s) && Unambiguous(s') && OnlyOurs(s')
    ensures !s'.watch.scan.status.Complete?
  {
    ReachableKeeps(c, s);
    ReachableExtends(c, s, steps, s');
    DoomIsForever(c, s, steps, s');
    if s'.watch.scan.status.Complete? {
      CompleteHasBegun(c, s');
      CompleteExactlyWhenAllMined(c, s');
      CompleteIsNotDoomed(c, s');
    }
  }

  lemma CompleteHasBegun(c: Config, s: State)
    requires c.Valid() && Reachable(c, s) && s.watch.scan.status.Complete?
    ensures Begun(s.watch) && s.watch.begin.status.Running?
  {
    ReachableKeeps(c, s);
  }

  lemma CompleteIsNotDoomed(c: Config, s: State)
    requires c.Valid() && Reachable(c, s) && Begun(s.watch) && Unambiguous(s) && AllMinedInRange(c, s)
    ensures !Doomed(s)
  {
    FailuresAreMissing(c, s);
    AcceptedAtMostAttempted(c, s);
    OnePlaceEach(c, s);
    forall n, tx | InBlock(s.chain.blocks, n, tx)
      ensures n > s.watch.begin.last
    {
      assert tx in s.chain.accepted;
      var m :| InBlock(s.chain.blocks, m, tx) && s.watch.begin.last < m <= s.watch.scan.last;
    }
  }

  lemma OnePlaceEach(c: Config, s: State)
    requires c.Valid() && Reachable(c, s)
    ensures forall n, tx :: InBlock(s.chain.blocks, n, tx) ==> tx in s.chain.accepted
    ensures forall m, n, tx :: InBlock(s.chain.blocks, m, tx) && InBlock(s.chain.blocks, n, tx) ==> m == n
  {
    ReachableKeeps(c, s);
  }

  // ---- Nonces ----

  /**
  Every account's accepted nonces are a contiguous run from its initial nonce, whatever sends failed, were ambiguous
  or arrived late, and no send carries a nonce beyond the one the chain expects next. With managed nonces the client
  is at most one behind the chain, and it has moved by exactly the number of reported successes.
  */
  lemma GapFreeNonces(c: Config, s: State, a: Acct)
    requires c.Valid() && Reachable(c, s) && IsAcct(c, a)
    ensures a in s.client.nonce && a in s.client.wins && a in s.chain.next
    ensures forall n: nat :: Tx(a, n) in s.chain.accepted <==> c.nonce0(a) <= n < s.chain.next[a]
    ensures forall n: nat :: Tx(a, n) in s.chain.sent ==> c.nonce0(a) <= n <= s.chain.next[a]
    ensures c.manageNonce ==>
      && s.client.nonce[a] <= s.chain.next[a] <= s.client.nonce[a] + 1
      && s.client.nonce[a] + (if MidSuccess(s.adders, a) then 1 else 0) == c.nonce0(a) + s.client.wins[a]
  {
    ReachableKeeps(c, s);
    assert Synced(c, s, a);
  }

  // ---- The rate ----

  /** Within now nanoseconds of the ticker's creation no more than now / period sends have started. */
  lemma SendsBoundedByTime(c: Config, s: State)
    requires c.Valid() && Reachable(c, s)
    ensures |s.tried| + Sum(s.adders, Holders) <= s.limiter.now / c.period
  {
    ReachableKeeps(c, s);
  }

  /** The ticks that were fired and neither received nor waiting in the channel: dropped, never given back. */
  function Dropped(l: Limiter): int {
    l.ticks - l.received - l.slot
  }

  lemma TicksOfStep(c: Config, s: State, step: Step)
    requires c.Valid() && Enabled(c, s, step) && s.limiter.slot <= 1
    ensures
      var s' := Apply(c, s, step);
      && s.limiter.now <= s'.limiter.now && s'.limiter.slot <= 1
      && Dropped(s.limiter) <= Dropped(s'.limiter)
  {
  }

  lemma {:induction false} TicksOfWindow(c: Config, s: State, steps: seq<Step>, s': State)
    requires c.Valid() && s.limiter.slot <= 1 && Runs(c, s, steps, s')
    ensures s.limiter.now <= s'.limiter.now && Dropped(s.limiter) <= Dropped(s'.limiter)
    decreases |steps|
  {
    if steps != [] {
      TicksOfStep(c, s, steps[0]);
      TicksOfWindow(c, Apply(c, s, steps[0]), steps[1..], s');
    }
  }

  lemma PeriodsOfWindow(t: nat, d: nat, p: nat)
    requires p > 0
    ensures (t + d) / p <= t / p + d / p + 1
  {
    var a, b, x := t / p, d / p, (t + d) / p;
    assert t < p * a + p && d < p * b + p;
    assert p * x <= t + d;
    assert p * (a + b + 2) == p * a + p * b + 2 * p;
    if x > a + b + 1 {
      MulMono(p, a + b + 2, x);
    }
  }

  /**
  In any stretch of a run that lasts d nanoseconds, at most d / period + 2 ticks are received. Sends follow
  receives, but a goroutine can be held up in between: at most those already holding a tick come on top. LoadBurst
  says when they do.
  */
  lemma WindowBound(c: Config, s: State, steps: seq<Step>, s': State)
    requires c.Valid() && Reachable(c, s) && Runs(c, s, steps, s')
    ensures s.limiter.now <= s'.limiter.now
    ensures
      var d := s'.limiter.now - s.limiter.now;
      && s'.limiter.received - s.limiter.received <= d / c.period + 2
      && |s'.tried| - |s.tried| <= d / c.period + 2 + Sum(s.adders, Holders)
      && Sum(s.adders, Holders) <= c.threads
  {
    LimitersOfWindow(c, s, steps, s');
    SumBounded(s.adders, Holders);
    WindowOfLimiters(c, s, steps, s');
  }

  lemma LimitersOfWindow(c: Config, s: State, steps: seq<Step>, s': State)
    requires c.Valid() && Reachable(c, s) && Runs(c, s, steps, s')
    ensures |s.adders| == c.threads
    ensures OnTime(c, s.limiter) && Limited(s.limiter, s.adders, s.tried)
    ensures OnTime(c, s'.limiter) && Limited(s'.limiter, s'.adders, s'.tried)
  {
    ReachableKeeps(c, s);
    RunKeeps(c, s, steps, s');
  }

  lemma WindowOfLimiters(c: Config, s: State, steps: seq<Step>, s': State)
    requires c.Valid() && Runs(c, s, steps, s')
    requires OnTime(c, s.limiter) && Limited(s.limiter, s.adders, s.tried)
    requires OnTime(c, s'.limiter) && Limited(s'.limiter, s'.adders, s'.tried)
    ensures s.limiter.now <= s'.limiter.now
    ensures
      var d := s'.limiter.now - s.limiter.now;
      && s'.limiter.received - s.limiter.received <= d / c.period + 2
      && |s'.tried| - |s.tried| <= d / c.period + 2 + Sum(s.adders, Holders)
  {
    TicksOfWindow(c, s, steps, s');
    PeriodsOfWindow(s.limiter.now, s'.limiter.now - s.limiter.now, c.period);
  }

  /** The configured rate is exceeded by less than the factor SECOND / (SECOND - tps), the price of a whole period. */
  lemma ExcessOverTps(n: nat, t: nat, tps: nat)
    requires 0 < tps <= SECOND && n <= t / (SECOND / tps)
    ensures SECOND / tps > 0
    ensures (SECOND / tps) * tps > SECOND - tps
    ensures n * (SECOND - tps) <= t * tps
  {
    var p := SECOND / tps;
    assert SECOND == tps * p + SECOND % tps;
    assert p * (t / p) <= t;
    MulMono(p, n, t / p);
    assert p * n <= t;
    MulMono(tps, p * n, t);
    MulMono(n, SECOND - tps, p * tps);
    assert n * (p * tps) == tps * (p * n);
  }

  const SECOND: nat := 1_000_000_000

  // ---- The WaitGroup ----

  /** The counter is the goroutines that have not ended, plus one that is added but not yet started. */
  lemma WaitGroupCounts(c: Config, s: State)
    requires c.Valid() && Reachable(c, s)
    ensures s.wg >= 0
    ensures s.wg == Sum(s.adders, Live) +
      (if CollectorLive(s.watch) then 1 else 0) + (if AddedNotStarted(s.main) then 1 else 0)
  {
    ReachableKeeps(c, s);
  }

  /**
  Run passes Wait only when every adder has finished its grid and the collector, if there is one, has returned:
  because a stop condition held at its last block, or because a read failed.
  */
  lemma WaitPassesOnlyWhenAllDone(c: Config, s: State)
    requires c.Valid() && Reachable(c, s) && s.main.AfterWait?
    ensures forall t :: 0 <= t < c.threads ==>
      t < |s.adders| && s.adders[t].phase.Finished? && s.adders[t].batch == c.batches
    ensures |s.tried| == c.Attempts() == s.tally.issued + s.tally.failed
    ensures c.collecting ==> Begun(s.watch) && !s.watch.scan.status.Running?
    ensures c.collecting && s.watch.scan.status.Complete? ==> Stops(c.stop, s.watch.scan.last, s.watch.scan.mined)
  {
    AllEnded(c, s);
    LoadGrid.GridCoveredExactly(c, s);
    if c.collecting && s.watch.scan.status.Complete? {
      CompleteHasBegun(c, s);
      CollectorIsReferenceScan(c, s);
      ScanIsCut(c.stop, WorldOf(c, s.chain.blocks), s.watch.begin, s.watch.scan.last);
    }
  }

  lemma AllEnded(c: Config, s: State)
    requires c.Valid() && Reachable(c, s) && s.main.AfterWait?
    ensures |s.adders| == c.threads
    ensures forall t :: 0 <= t < |s.adders| ==> s.adders[t].phase.Finished? && s.adders[t].batch == c.batches
    ensures c.collecting ==> Begun(s.watch) && !s.watch.scan.status.Running?
  {
    ReachableKeeps(c, s);
    NobodyLeft(c, s.adders, s.watch, s.main, s.wg);
  }

  // ---- From the command line to the end of the run ----

  /**
  When Run has come past Wait it has made the truncated target's number of attempts, its issued and failed sends
  add up to that, and in the time that took it has kept to the configured rate within the excess.
  */
  lemma RunDeliversTheTarget(target: nat, tps: nat, c: Config, s: State)
    requires c.Valid() && 0 < tps <= SECOND && c.period == SECOND / tps
    requires c.batches == NumBatches(Truncated(target, c.threads * c.accounts), c.threads, c.accounts)
    requires Reachable(c, s) && s.main.AfterWait?
    ensures s.tally.issued + s.tally.failed == Truncated(target, c.threads * c.accounts)
    ensures Truncated(target, c.threads * c.accounts) * (SECOND - tps) <= s.limiter.now * tps
  {
    TruncatedTargetSplitsEvenly(target, c.threads, c.accounts);
    WaitPassesOnlyWhenAllDone(c, s);
    SendsBoundedByTime(c, s);
    ExcessOverTps(|s.tried|, s.limiter.now, tps);
  }
}
