/** What every step of the load run keeps, one group of facts at a time. */
module LoadInvariants {
  import opened Prelude
  import BlockDB
  import ConfigTx
  import opened Collector
  import opened LoadModel

  // ---- The grid: who has attempted what ----

  predicate Attempted(phase: AdderPhase) {
    phase.Calling? || phase.Returned? || phase.Counted?
  }

  /** The adder has called Transact at this point: it is past it, or at it and no longer before the call. */
  predicate Behind(a: Adder, p: Point) {
    || p.batch < a.batch
    || (p.batch == a.batch && (p.acct.index < a.index || (p.acct.index == a.index && Attempted(a.phase))))
  }

  predicate Passed(c: Config, adders: seq<Adder>, p: Point) {
    IsAcct(c, p.acct) && p.batch < c.batches && p.acct.thread < |adders| && Behind(adders[p.acct.thread], p)
  }

  predicate Standing(c: Config, a: Adder) {
    && a.index < c.accounts
    && a.batch <= c.batches
    && (a.batch == c.batches ==> a.index == 0 && (a.phase.Idle? || a.phase.Waiting? || a.phase.Finished?))
    && (a.phase.Idle? ==> a.batch == 0 && a.index == 0)
    && (a.phase.Finished? ==> a.batch == c.batches)
  }

  ghost predicate Grid(c: Config, adders: seq<Adder>, tried: set<Point>) {
    && |adders| == c.threads
    && (forall t :: 0 <= t < |adders| ==> Standing(c, adders[t]))
    && (forall p :: p in tried <==> Passed(c, adders, p))
  }

  lemma GridKept(c: Config, s: State, step: Step)
    requires c.Valid() && Enabled(c, s, step) && Grid(c, s.adders, s.tried)
    requires s.main.GoAdder? && s.main.i < |s.adders| ==> s.adders[s.main.i].phase.Idle?
    ensures Grid(c, Apply(c, s, step).adders, Apply(c, s, step).tried)
  {
    match step
    case Main => if s.main.GoAdder? { GridMove(c, s, s.main.i, Apply(c, s, step)); }
    case Receive(t) => GridMove(c, s, t, Apply(c, s, step));
    case Call(t) => GridMove(c, s, t, Apply(c, s, step));
    case Return(t, ok) => GridMove(c, s, t, Apply(c, s, step));
    case Count(t) => GridMove(c, s, t, Apply(c, s, step));
    case Bump(t) => GridMove(c, s, t, Apply(c, s, step));
    case Done(t) => GridMove(c, s, t, Apply(c, s, step));
    case _ =>
  }

  /** A move of one adder records the point it stands on exactly when it makes its call there. */
  lemma GridMove(c: Config, s: State, t: nat, s': State)
    requires Grid(c, s.adders, s.tried) && t < |s.adders| == |s'.adders| && s'.adders == s.adders[t := s'.adders[t]]
    requires Standing(c, s'.adders[t])
    requires
      var a, a' := s.adders[t], s'.adders[t];
      || (a' == a.(phase := a'.phase) && Attempted(a.phase) == Attempted(a'.phase) && s'.tried == s.tried)
      || (a' == a.(phase := a'.phase) && !Attempted(a.phase) && Attempted(a'.phase) && a.batch < c.batches
          && s'.tried == s.tried + {Point(At(s.adders, t), a.batch)})
      || (a' == NextPoint(c.accounts, a) && Attempted(a.phase) && s'.tried == s.tried)
    ensures Grid(c, s'.adders, s'.tried)
  {
    forall p
      ensures p in s'.tried <==> Passed(c, s'.adders, p)
    {
      assert p in s.tried <==> Passed(c, s.adders, p);
    }
  }

  // ---- The limiter ----

  ghost predicate OnTime(c: Config, l: Limiter) {
    c.period > 0 && l.ticks == l.now / c.period
  }

  ghost predicate Limited(l: Limiter, adders: seq<Adder>, tried: set<Point>) {
    && l.slot <= 1
    && l.received + l.slot <= l.ticks
    && l.received == |tried| + Sum(adders, Holders)
  }

  lemma TimeKept(c: Config, s: State, step: Step)
    requires c.Valid() && Enabled(c, s, step) && OnTime(c, s.limiter)
    ensures OnTime(c, Apply(c, s, step).limiter)
  {
    ConfigTx.QuotientOfNext(s.limiter.now, c.period);
  }

  /** Each call, and nothing else, records one more point. */
  lemma TriedGrows(c: Config, s: State, step: Step)
    requires c.Valid() && Enabled(c, s, step) && Grid(c, s.adders, s.tried)
    ensures |Apply(c, s, step).tried| == |s.tried| + if step.Call? then 1 else 0
  {
    match step
    case Call(t) => FreshPoint(c, s, t);
    case _ =>
  }

  lemma LimitKept(c: Config, s: State, step: Step)
    requires c.Valid() && Enabled(c, s, step) && Limited(s.limiter, s.adders, s.tried)
    requires |Apply(c, s, step).tried| == |s.tried| + if step.Call? then 1 else 0
    requires s.main.GoAdder? && s.main.i < |s.adders| ==> s.adders[s.main.i].phase.Idle?
    ensures var s' := Apply(c, s, step); Limited(s'.limiter, s'.adders, s'.tried)
  {
    AddersMove(c, s, step, Holders);
  }

  /** A call is made at a point where none was made before. */
  lemma FreshPoint(c: Config, s: State, t: nat)
    requires Grid(c, s.adders, s.tried) && Standby(s, t, Holding)
    ensures Point(At(s.adders, t), s.adders[t].batch) !in s.tried
  {
    assert !Passed(c, s.adders, Point(At(s.adders, t), s.adders[t].batch));
  }

  /** The adder a step moves, if it moves one. */
  function Mover(s: State, step: Step): Option<nat> {
    match step
    case Main => if s.main.GoAdder? then Some(s.main.i) else None
    case Receive(t) => Some(t)
    case Call(t) => Some(t)
    case Return(t, _) => Some(t)
    case Count(t) => Some(t)
    case Bump(t) => Some(t)
    case Done(t) => Some(t)
    case _ => None
  }

  /** A step moves at most one adder, so a sum over the adders changes by what that one contributes. */
  lemma AddersMove(c: Config, s: State, step: Step, f: Adder -> nat)
    requires c.Valid() && Enabled(c, s, step)
    ensures
      var s' := Apply(c, s, step);
      match Mover(s, step)
      case None => s'.adders == s.adders
      case Some(t) =>
        && t < |s.adders| == |s'.adders|
        && s'.adders == s.adders[t := s'.adders[t]]
        && Sum(s'.adders, f) + f(s.adders[t]) == Sum(s.adders, f) + f(s'.adders[t])
  {
    match Mover(s, step)
    case None =>
    case Some(t) => SumUpdate(s.adders, t, Apply(c, s, step).adders[t], f);
  }

  // ---- Outcomes of the attempts ----

  ghost predicate Accounted(tally: Tally, adders: seq<Adder>, tried: set<Point>, chain: Chain) {
    && |tried| == tally.oks + tally.failed + Sum(adders, Callers)
    && tally.oks == tally.issued + Sum(adders, Uncounted)
    && |chain.sent| <= |tried|
    && |chain.reported| <= tally.oks
  }

  lemma CallsKept(c: Config, s: State, step: Step)
    requires c.Valid() && Enabled(c, s, step)
    requires |s.tried| == s.tally.oks + s.tally.failed + Sum(s.adders, Callers)
    requires |Apply(c, s, step).tried| == |s.tried| + if step.Call? then 1 else 0
    requires s.main.GoAdder? && s.main.i < |s.adders| ==> s.adders[s.main.i].phase.Idle?
    ensures
      var s' := Apply(c, s, step);
      |s'.tried| == s'.tally.oks + s'.tally.failed + Sum(s'.adders, Callers)
  {
    AddersMove(c, s, step, Callers);
  }

  lemma SuccessesKept(c: Config, s: State, step: Step)
    requires c.Valid() && Enabled(c, s, step) && s.tally.oks == s.tally.issued + Sum(s.adders, Uncounted)
    requires s.main.GoAdder? && s.main.i < |s.adders| ==> s.adders[s.main.i].phase.Idle?
    ensures var s' := Apply(c, s, step); s'.tally.oks == s'.tally.issued + Sum(s'.adders, Uncounted)
  {
    AddersMove(c, s, step, Uncounted);
  }

  lemma OutcomesKept(c: Config, s: State, step: Step)
    requires c.Valid() && Enabled(c, s, step) && Accounted(s.tally, s.adders, s.tried, s.chain)
    requires |Apply(c, s, step).tried| == |s.tried| + if step.Call? then 1 else 0
    requires s.main.GoAdder? && s.main.i < |s.adders| ==> s.adders[s.main.i].phase.Idle?
    ensures var s' := Apply(c, s, step); Accounted(s'.tally, s'.adders, s'.tried, s'.chain)
  {
    CallsKept(c, s, step);
    SuccessesKept(c, s, step);
    SetsGrowByOne(c, s, step);
  }

  lemma SetsGrowByOne(c: Config, s: State, step: Step)
    requires c.Valid() && Enabled(c, s, step)
    ensures
      var s' := Apply(c, s, step);
      && |s'.chain.sent| <= |s.chain.sent| + (if step.Call? then 1 else 0)
      && |s'.chain.reported| - s'.tally.oks <= |s.chain.reported| - s.tally.oks
  {
  }

  // ---- Nonces ----

  /** The account's call has been accepted and reported, and its nonce has not been incremented yet. */
  predicate MidSuccess(adders: seq<Adder>, a: Acct) {
    && a.thread < |adders| && adders[a.thread].index == a.index
    && (adders[a.thread].phase.Returned? || adders[a.thread].phase.Counted?)
  }

  ghost predicate Chained(c: Config, chain: Chain) {
    && (forall a :: IsAcct(c, a) ==> a in chain.next && c.nonce0(a) <= chain.next[a])
    && (forall tx :: tx in chain.accepted <==>
          IsAcct(c, tx.acct) && c.nonce0(tx.acct) <= tx.nonce < chain.next[tx.acct])
    && (forall tx :: tx in chain.sent ==> IsAcct(c, tx.acct) && c.nonce0(tx.acct) <= tx.nonce <= chain.next[tx.acct])
    && chain.reported <= chain.accepted <= chain.sent
  }

  lemma ChainedKept(c: Config, s: State, step: Step)
    requires c.Valid() && Enabled(c, s, step) && Chained(c, s.chain) && Managed(c, s)
    ensures Chained(c, Apply(c, s, step).chain)
  {
    match step
    case Call(t) => assert Acts(c, s, t) && IsAcct(c, At(s.adders, t));
    case _ =>
  }

  ghost predicate Managed(c: Config, s: State)
    requires Chained(c, s.chain)
  {
    && |s.adders| == c.threads
    && (forall a :: IsAcct(c, a) ==> Synced(c, s, a))
    && (forall tx :: tx in s.chain.sent && c.manageNonce ==>
          tx.acct in s.client.nonce && tx.nonce <= s.client.nonce[tx.acct])
    && (forall t :: 0 <= t < |s.adders| ==> Acts(c, s, t))
  }

  /** The client's nonce and the chain's are at most one apart, and the client's counts the reported successes. */
  predicate Synced(c: Config, s: State, a: Acct) {
    && a in s.client.nonce && a in s.client.wins && a in s.chain.next
    && (c.manageNonce ==>
          && c.nonce0(a) <= s.client.nonce[a] <= s.chain.next[a] <= s.client.nonce[a] + 1
          && s.client.nonce[a] + (if MidSuccess(s.adders, a) then 1 else 0) == c.nonce0(a) + s.client.wins[a]
          && (MidSuccess(s.adders, a) ==> s.chain.next[a] == s.client.nonce[a] + 1))
  }

  /** The account of an adder is one of ours, and the call it is in carries the nonce the client holds for it. */
  predicate Acts(c: Config, s: State, t: nat)
    requires t < |s.adders|
  {
    && s.adders[t].index < c.accounts
    && (s.adders[t].phase.Calling? ==> Tx(At(s.adders, t), s.adders[t].phase.nonce) in s.chain.sent)
    && (s.adders[t].phase.Calling? && c.manageNonce ==>
          At(s.adders, t) in s.client.nonce && s.adders[t].phase.nonce == s.client.nonce[At(s.adders, t)])
  }

  lemma ManagedKept(c: Config, s: State, step: Step)
    requires c.Valid() && Enabled(c, s, step) && Chained(c, s.chain) && Managed(c, s)
    requires s.main.GoAdder? && s.main.i < |s.adders| ==> s.adders[s.main.i].phase.Idle?
    ensures Chained(c, Apply(c, s, step).chain) && Managed(c, Apply(c, s, step))
  {
    ChainedKept(c, s, step);
    var s' := Apply(c, s, step);
    forall a | IsAcct(c, a)
      ensures Synced(c, s', a)
    {
      SyncedKept(c, s, step, a);
    }
    forall t | 0 <= t < |s.adders|
      ensures Acts(c, s', t)
    {
      ActsKept(c, s, step, t);
    }
    match step
    case Call(t) => assert Synced(c, s, At(s.adders, t)) by { assert Acts(c, s, t) && IsAcct(c, At(s.adders, t)); }
    case _ =>
  }

  lemma SyncedKept(c: Config, s: State, step: Step, a: Acct)
    requires c.Valid() && Enabled(c, s, step) && a.thread < |s.adders|
    requires Synced(c, s, a) && Acts(c, s, a.thread)
    requires forall n: nat :: Tx(a, n) in s.chain.accepted ==> n < s.chain.next[a]
    requires forall n: nat :: Tx(a, n) in s.chain.sent && c.manageNonce ==> n <= s.client.nonce[a]
    requires s.main.GoAdder? && s.main.i < |s.adders| ==> s.adders[s.main.i].phase.Idle?
    ensures Synced(c, Apply(c, s, step), a)
  {
    if Mover(s, step) == Some(a.thread) {
      SyncedByItsAdder(c, s, step, a);
    } else {
      SyncedByOthers(c, s, step, a);
    }
  }

  lemma SyncedByItsAdder(c: Config, s: State, step: Step, a: Acct)
    requires c.Valid() && Enabled(c, s, step) && a.thread < |s.adders| && Mover(s, step) == Some(a.thread)
    requires Synced(c, s, a) && Acts(c, s, a.thread)
    requires forall n: nat :: Tx(a, n) in s.chain.accepted ==> n < s.chain.next[a]
    requires s.main.GoAdder? && s.main.i < |s.adders| ==> s.adders[s.main.i].phase.Idle?
    ensures Synced(c, Apply(c, s, step), a)
  {
  }

  lemma SyncedByOthers(c: Config, s: State, step: Step, a: Acct)
    requires c.Valid() && Enabled(c, s, step) && a.thread < |s.adders| && Mover(s, step) != Some(a.thread)
    requires Synced(c, s, a)
    requires forall n: nat :: Tx(a, n) in s.chain.sent && c.manageNonce ==> n <= s.client.nonce[a]
    ensures Synced(c, Apply(c, s, step), a)
  {
    assert MidSuccess(Apply(c, s, step).adders, a) == MidSuccess(s.adders, a);
  }

  lemma ActsKept(c: Config, s: State, step: Step, t: nat)
    requires c.Valid() && Enabled(c, s, step) && t < |s.adders| && Acts(c, s, t)
    ensures Acts(c, Apply(c, s, step), t)
  {
  }

  // ---- Pending and mined ----

  /** The transactions of ours in the first n blocks. */
  function Ours(blocks: seq<ChainBlock>, n: nat): nat
    requires n <= |blocks|
  {
    if n == 0 then 0 else Ours(blocks, n - 1) + |blocks[n - 1].ours|
  }

  predicate InBlock(blocks: seq<ChainBlock>, n: int, tx: Tx) {
    0 <= n < |blocks| && tx in blocks[n].ours
  }

  ghost predicate Mined(blocks: seq<ChainBlock>, tx: Tx) {
    exists n :: InBlock(blocks, n, tx)
  }

  /** Every accepted transaction is in one place: pending, or in one block. */
  ghost predicate Placed(chain: Chain) {
    && chain.pending <= chain.accepted
    && (forall n, tx :: InBlock(chain.blocks, n, tx) ==> tx in chain.accepted && tx !in chain.pending)
    && (forall m, n, tx :: InBlock(chain.blocks, m, tx) && InBlock(chain.blocks, n, tx) ==> m == n)
    && (forall tx :: tx in chain.accepted && tx !in chain.pending ==> Mined(chain.blocks, tx))
  }

  ghost predicate Conserved(chain: Chain) {
    && |chain.blocks| > 0
    && Placed(chain)
    && (forall n :: 0 <= n < |chain.blocks| ==> |chain.blocks[n].ours| <= chain.blocks[n].header.txcount)
    && |chain.accepted| == |chain.pending| + Ours(chain.blocks, |chain.blocks|)
  }

  lemma {:induction false} OursOfLonger(blocks: seq<ChainBlock>, b: ChainBlock, n: nat)
    requires n <= |blocks|
    ensures Ours(blocks + [b], n) == Ours(blocks, n)
  {
    if n > 0 {
      OursOfLonger(blocks, b, n - 1);
    }
  }

  lemma ConservationKept(c: Config, s: State, step: Step)
    requires c.Valid() && Enabled(c, s, step) && Chained(c, s.chain) && Conserved(s.chain)
    ensures Conserved(Apply(c, s, step).chain)
  {
    var chain' := Apply(c, s, step).chain;
    match step
    case Accept(tx) => AcceptConserves(s.chain, chain', tx);
    case Mine(txs, header) => MineConserves(s.chain, chain', txs, header);
    case _ => assert chain' == s.chain.(sent := chain'.sent, reported := chain'.reported);
  }

  lemma AcceptConserves(chain: Chain, chain': Chain, tx: Tx)
    requires Conserved(chain) && tx !in chain.accepted && chain'.blocks == chain.blocks
    requires chain'.accepted == chain.accepted + {tx} && chain'.pending == chain.pending + {tx}
    ensures Conserved(chain')
  {
  }

  lemma MineConserves(chain: Chain, chain': Chain, txs: set<Tx>, header: BlockDB.Block)
    requires Conserved(chain) && txs <= chain.pending && |txs| <= header.txcount
    requires chain'.blocks == chain.blocks + [ChainBlock(txs, header)]
    requires chain'.accepted == chain.accepted && chain'.pending == chain.pending - txs
    ensures Conserved(chain')
  {
    MiningPlaces(chain, chain', txs, header);
    OursOfLonger(chain.blocks, ChainBlock(txs, header), |chain.blocks|);
    assert |chain'.pending| + |txs| == |chain.pending| by {
      assert chain'.pending + txs == chain.pending;
    }
  }

  lemma MiningPlaces(chain: Chain, chain': Chain, txs: set<Tx>, header: BlockDB.Block)
    requires Placed(chain) && txs <= chain.pending && chain'.blocks == chain.blocks + [ChainBlock(txs, header)]
    requires chain'.accepted == chain.accepted && chain'.pending == chain.pending - txs
    ensures Placed(chain')
  {
    var top := |chain.blocks|;
    assert forall n, tx :: InBlock(chain'.blocks, n, tx) <==> InBlock(chain.blocks, n, tx) || (n == top && tx in txs);
    forall tx | tx in chain'.accepted && tx !in chain'.pending
      ensures Mined(chain'.blocks, tx)
    {
      if tx in txs {
        assert InBlock(chain'.blocks, top, tx);
      } else {
        var n :| InBlock(chain.blocks, n, tx);
        assert InBlock(chain'.blocks, n, tx);
      }
    }
  }

  // ---- The collector ----

  predicate Begun(w: Watch) {
    w.phase.Polling? || w.phase.Scanning?
  }

  /** The collector is where the reference scan of the chain is; a failed read leaves it where it was. */
  ghost predicate OnCourse(c: Config, blocks: seq<ChainBlock>, w: Watch) {
    var r := ScanTo(c.stop, WorldOf(c, blocks), w.begin, w.scan.last);
    && w.begin.last <= w.scan.last
    && (w.scan.last < |blocks| || w.scan.last == w.begin.last)
    && (w.scan == r || (w.scan.status.Failed? && r.status.Running? && w.scan == r.(status := Failed)))
  }

  ghost predicate Collecting(c: Config, blocks: seq<ChainBlock>, w: Watch) {
    && (!Begun(w) ==> w.scan.status.Running?)
    && (Begun(w) ==>
          && w.begin.mined == 0 && w.begin.rows == c.rows0 && !w.begin.status.Complete?
          && (c.startBlock != -1 ==> w.begin.last == c.startBlock && w.begin.status.Running?)
          && (c.startBlock == -1 && w.begin.status.Running? ==> 0 <= w.begin.last < |blocks|)
          && (w.begin.status.Failed? ==> w.scan == w.begin && w.phase.Polling?)
          && (w.begin.status.Running? ==> OnCourse(c, blocks, w)))
    && (w.phase.Scanning? ==> w.scan.status.Running? && w.scan.last < w.phase.head < |blocks|)
  }

  /** A scan looks at no block outside its range. */
  lemma {:induction false} ScanIsLocal(t: Target, w: BlockDB.World, w': BlockDB.World, s: Scan, head: int)
    requires forall n :: s.last < n <= head ==> w.fetch(n) == w'.fetch(n) && w.writable(n) == w'.writable(n)
    ensures ScanTo(t, w, s, head) == ScanTo(t, w', s, head)
    decreases Max(0, head - s.last)
  {
    if head > s.last {
      ScanIsLocal(t, w, w', s, head - 1);
      if ScanTo(t, w, s, head - 1).status.Running? {
        RunningReachedHead(t, w, s, head - 1);
      }
    }
  }

  lemma CollectingKept(c: Config, s: State, step: Step)
    requires c.Valid() && Enabled(c, s, step) && Collecting(c, s.chain.blocks, s.watch) && |s.chain.blocks| > 0
    requires s.main.GoCollector? ==> s.watch.phase.NotStarted?
    ensures var s' := Apply(c, s, step); Collecting(c, s'.chain.blocks, s'.watch)
  {
    match step
    case Mine(txs, header) =>
      var blocks, last := s.chain.blocks, s.watch.scan.last;
      if last < |blocks| {
        ScanIsLocal(c.stop, WorldOf(c, blocks), WorldOf(c, blocks + [ChainBlock(txs, header)]), s.watch.begin, last);
      }
    case _ =>
  }

  // ---- The WaitGroup ----

  /** How many adders the main goroutine has started. */
  function Spawned(c: Config, main: MainPc): nat {
    match main
    case AddCollector => 0
    case GoCollector => 0
    case AddAdder(i) => i
    case GoAdder(i) => i
    case _ => c.threads
  }

  predicate CollectorLive(w: Watch) {
    !w.phase.NotStarted? && w.scan.status.Running?
  }

  /** Added to the WaitGroup by the main goroutine, go statement not yet executed. */
  predicate AddedNotStarted(main: MainPc) {
    main.GoCollector? || main.GoAdder?
  }

  ghost predicate Grouped(c: Config, adders: seq<Adder>, w: Watch, main: MainPc, wg: int) {
    && |adders| == c.threads
    && Spawned(c, main) <= c.threads && (main.GoAdder? ==> main.i < c.threads)
    && (forall t :: 0 <= t < |adders| ==> (adders[t].phase.Idle? <==> t >= Spawned(c, main)))
    && (main.AddCollector? || main.GoCollector? ==> c.collecting)
    && (w.phase.NotStarted? <==> !c.collecting || main.AddCollector? || main.GoCollector?)
    && (w.phase.NotStarted? ==> w.scan.status.Running?)
    && wg == Sum(adders, Live) + (if CollectorLive(w) then 1 else 0) + (if AddedNotStarted(main) then 1 else 0)
  }

  /** The collector's steps: they leave the adders and the main goroutine alone. */
  predicate CollectorStep(step: Step) {
    step.Begin? || step.Poll? || step.ScanBlock?
  }

  lemma CollectorCounted(c: Config, s: State, step: Step)
    requires c.Valid() && Enabled(c, s, step) && CollectorStep(step)
    requires !Begun(s.watch) ==> s.watch.scan.status.Running?
    ensures
      var s' := Apply(c, s, step);
      && s'.adders == s.adders && s'.main == s.main && !s'.watch.phase.NotStarted? && !s.watch.phase.NotStarted?
      && s'.wg - (if CollectorLive(s'.watch) then 1 else 0) == s.wg - if CollectorLive(s.watch) then 1 else 0
  {
  }

  lemma GroupKept(c: Config, s: State, step: Step)
    requires c.Valid() && Enabled(c, s, step) && Grouped(c, s.adders, s.watch, s.main, s.wg)
    requires !Begun(s.watch) ==> s.watch.scan.status.Running?
    ensures var s' := Apply(c, s, step); Grouped(c, s'.adders, s'.watch, s'.main, s'.wg)
  {
    if CollectorStep(step) {
      CollectorCounted(c, s, step);
    } else {
      AddersCounted(c, s, step);
    }
  }

  lemma AddersCounted(c: Config, s: State, step: Step)
    requires c.Valid() && Enabled(c, s, step) && !CollectorStep(step)
    requires Grouped(c, s.adders, s.watch, s.main, s.wg)
    ensures var s' := Apply(c, s, step); Grouped(c, s'.adders, s'.watch, s'.main, s'.wg)
  {
    if step.Main? {
      MainCounted(c, s);
    } else {
      AddersMove(c, s, step, Live);
    }
  }

  lemma MainCounted(c: Config, s: State)
    requires c.Valid() && Enabled(c, s, Main) && Grouped(c, s.adders, s.watch, s.main, s.wg)
    ensures var s' := MainStep(c, s); Grouped(c, s'.adders, s'.watch, s'.main, s'.wg)
  {
    if s.main.GoAdder? {
      SumUpdate(s.adders, s.main.i, s.adders[s.main.i].(phase := Waiting), Live);
    }
  }

  /** Once Wait has returned, no goroutine is left to move the counter. */
  lemma WaitIsOver(c: Config, s: State, step: Step)
    requires c.Valid() && Enabled(c, s, step) && Grouped(c, s.adders, s.watch, s.main, s.wg)
    requires !Begun(s.watch) ==> s.watch.scan.status.Running?
    requires s.main.AfterWait? ==> s.wg == 0
    ensures var s' := Apply(c, s, step); s'.main.AfterWait? ==> s'.wg == 0
  {
    if s.main.AfterWait? {
      NobodyLeft(c, s.adders, s.watch, s.main, s.wg);
    }
  }

  /** A counter of 0 at Wait means that every adder and the collector have come to their end. */
  lemma NobodyLeft(c: Config, adders: seq<Adder>, w: Watch, main: MainPc, wg: int)
    requires Grouped(c, adders, w, main, wg) && wg == 0 && (main.AtWait? || main.AfterWait?)
    ensures forall t :: 0 <= t < |adders| ==> adders[t].phase.Finished?
    ensures !CollectorLive(w)
  {
    SumZero(adders, Live);
    forall t | 0 <= t < |adders|
      ensures adders[t].phase.Finished?
    {
      assert Live(adders[t]) == 0;
    }
  }

  // ---- All of them, over all runs ----

  ghost predicate Inv(c: Config, s: State) {
    && c.Valid()
    && Grid(c, s.adders, s.tried)
    && OnTime(c, s.limiter)
    && Limited(s.limiter, s.adders, s.tried)
    && Accounted(s.tally, s.adders, s.tried, s.chain)
    && Chained(c, s.chain)
    && Managed(c, s)
    && Conserved(s.chain)
    && Collecting(c, s.chain.blocks, s.watch)
    && Grouped(c, s.adders, s.watch, s.main, s.wg)
    && (s.main.AfterWait? ==> s.wg == 0)
  }

  lemma IdleSums(adders: seq<Adder>)
    requires forall t :: 0 <= t < |adders| ==> adders[t].phase.Idle?
    ensures Sum(adders, Holders) == Sum(adders, Callers) == Sum(adders, Uncounted) == Sum(adders, Live) == 0
  {
    SumZero(adders, Holders);
    SumZero(adders, Callers);
    SumZero(adders, Uncounted);
    SumZero(adders, Live);
  }

  lemma InitHolds(c: Config, s: State)
    requires Init(c, s)
    ensures Inv(c, s)
  {
    IdleSums(s.adders);
    NoneOfOurs(s.chain.blocks, |s.chain.blocks|);
  }

  lemma {:induction false} NoneOfOurs(blocks: seq<ChainBlock>, n: nat)
    requires n <= |blocks| && forall k :: 0 <= k < |blocks| ==> blocks[k].ours == {}
    ensures Ours(blocks, n) == 0
  {
    if n > 0 {
      NoneOfOurs(blocks, n - 1);
    }
  }

  /** One step from anywhere the invariant holds leads to where it holds. */
  lemma StepKeeps(c: Config, s: State, step: Step)
    requires Inv(c, s) && Enabled(c, s, step)
    ensures Inv(c, Apply(c, s, step))
  {
    GridKept(c, s, step);
    TimeKept(c, s, step);
    TriedGrows(c, s, step);
    LimitKept(c, s, step);
    OutcomesKept(c, s, step);
    ChainedKept(c, s, step);
    ManagedKept(c, s, step);
    ConservationKept(c, s, step);
    CollectingKept(c, s, step);
    GroupKept(c, s, step);
    WaitIsOver(c, s, step);
  }

  lemma {:induction false} RunKeeps(c: Config, s: State, steps: seq<Step>, s': State)
    requires Inv(c, s) && Runs(c, s, steps, s')
    ensures Inv(c, s')
    decreases |steps|
  {
    if steps != [] {
      StepKeeps(c, s, steps[0]);
      RunKeeps(c, Apply(c, s, steps[0]), steps[1..], s');
    }
  }

  lemma ReachableKeeps(c: Config, s: State)
    requires c.Valid() && Reachable(c, s)
    ensures Inv(c, s)
  {
    var s0, steps :| Init(c, s0) && Runs(c, s0, steps, s);
    InitHolds(c, s0);
    RunKeeps(c, s0, steps, s);
  }
}
