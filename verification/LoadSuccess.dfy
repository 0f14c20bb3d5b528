/** A load run can succeed: what the collector is shown it takes, and every target can be sent, mined and counted. */
module LoadSuccess {
  import opened Prelude
  import BlockDB
  import opened Collector
  import opened LoadModel
  import opened LoadInvariants
  import LoadGrid
  import LoadTheorems
  import opened LoadMoves
  import LoadEnd

  // ---- The collector acts on what it reads ----

  /** n blocks are read without an error. */
  function Scans(n: nat): seq<Step> {
    seq(n, _ => ScanBlock(true))
  }

  lemma ScanningFacts(c: Config, s: State)
    requires c.Valid() && Reachable(c, s) && s.watch.phase.Scanning?
    ensures s.watch.scan.status.Running? && s.watch.scan.last < s.watch.phase.head < |s.chain.blocks|
  {
    ReachableKeeps(c, s);
  }

  lemma RunsFirst(c: Config, s: State, step: Step, steps: seq<Step>, s': State)
    requires c.Valid() && Enabled(c, s, step) && Runs(c, Apply(c, s, step), steps, s')
    ensures Runs(c, s, [step] + steps, s')
  {
    assert ([step] + steps)[1..] == steps;
  }

  /** A scan under way takes the blocks up to its head, one after the other, and then waits for the next tick. */
  lemma {:induction false} ScanToHead(c: Config, s: State) returns (n: nat, s': State)
    requires c.Valid() && Reachable(c, s) && s.watch.phase.Scanning?
    ensures Runs(c, s, Scans(n), s') && s' == s.(watch := s'.watch, wg := s'.wg)
    ensures s'.watch == Watch(Polling, s.watch.begin,
                              ScanTo(c.stop, WorldOf(c, s.chain.blocks), s.watch.scan, s.watch.phase.head))
    decreases if s.watch.phase.Scanning? then s.watch.phase.head - s.watch.scan.last else 0
  {
    ScanningFacts(c, s);
    var w, scan, head := WorldOf(c, s.chain.blocks), s.watch.scan, s.watch.phase.head;
    var m := Apply(c, s, ScanBlock(true));
    assert m.watch.scan == ScanTo(c.stop, w, scan, scan.last + 1);
    if m.watch.phase.Scanning? {
      ReachableStep(c, s, ScanBlock(true));
      n, s' := ScanToHead(c, m);
      ScansCompose(c.stop, w, scan, scan.last + 1, head);
    } else {
      n, s' := 0, m;
      if !m.watch.scan.status.Running? {
        ScanStuck(c.stop, w, scan, scan.last + 1, head);
      }
    }
    RunsFirst(c, s, ScanBlock(true), Scans(n), s');
    assert [ScanBlock(true)] + Scans(n) == Scans(n + 1);
    n := n + 1;
  }

  /**
  A head that is read is acted on: when no read fails, the collector takes the blocks up to it, and stands where the
  reference scan does, before it reads another.
  */
  lemma PollIsActedOn(c: Config, s: State, h: nat) returns (n: nat, s': State)
    requires c.Valid() && Reachable(c, s) && s.watch.phase.Polling? && s.watch.scan.status.Running?
    requires h < |s.chain.blocks|
    ensures Runs(c, s, [Poll(Ok(h))] + Scans(n), s') && s' == s.(watch := s'.watch, wg := s'.wg)
    ensures s'.watch ==
      Watch(Polling, s.watch.begin, ScanTo(c.stop, WorldOf(c, s.chain.blocks), s.watch.scan, h))
  {
    var m := Apply(c, s, Poll(Ok(h)));
    if m.watch.phase.Scanning? {
      ReachableStep(c, s, Poll(Ok(h)));
      n, s' := ScanToHead(c, m);
    } else {
      n, s' := 0, m;
      assert Runs(c, m, Scans(0), m);
    }
    RunsFirst(c, s, Poll(Ok(h)), Scans(n), s');
  }

  /** A collector without a start block begins at the head it reads first, and counts from there. */
  lemma BeginsAtHead(c: Config, s: State, h: int)
    requires c.Valid() && Reachable(c, s) && Enabled(c, s, Begin(Ok(h)))
    ensures
      var watch := Apply(c, s, Begin(Ok(h))).watch;
      var b := if c.startBlock != -1 then c.startBlock else h;
      watch == Watch(Polling, Scan(b, 0, c.rows0, Running), Scan(b, 0, c.rows0, Running))
  {
  }

  // ---- A send that goes well ----

  /** Nothing has failed, everything accepted is pending, and every client is where the chain is. */
  ghost predicate Fine(c: Config, s: State) {
    && c.Valid() && Reachable(c, s) && |s.adders| == c.threads
    && s.tally.failed == 0 && s.chain.pending == s.chain.accepted && |s.chain.accepted| == s.tally.oks
    && (forall t :: 0 <= t < |s.adders| ==> s.adders[t].phase.Waiting? || s.adders[t].phase.Finished?)
    && (forall a :: IsAcct(c, a) ==> InStep(c, s, a))
  }

  predicate InStep(c: Config, s: State, a: Acct) {
    && a in s.client.nonce && a in s.client.wins && a in s.chain.next
    && (c.manageNonce ==> s.client.nonce[a] == s.chain.next[a])
  }

  /** What the moves of adders leave alone. */
  ghost predicate Apart(c: Config, s: State, s': State)
    requires c.Valid()
  {
    && Reachable(c, s) && Reachable(c, s') && Leads(c, s, s') && s'.main == s.main && s'.watch == s.watch
    && |s'.adders| == |s.adders| && s'.chain.blocks == s.chain.blocks
  }

  lemma Along(c: Config, s: State, m: State, s': State)
    requires c.Valid() && Apart(c, s, m) && Apart(c, m, s')
    ensures Apart(c, s, s')
  {
    Joined(c, s, m, s');
  }

  lemma OneStep(c: Config, s: State, step: Step)
    requires c.Valid() && Reachable(c, s) && Enabled(c, s, step)
    requires step.Receive? || step.Call? || step.Accept? || step.Return? || step.Count? || step.Bump? || step.Done?
    ensures Apart(c, s, Apply(c, s, step))
  {
    Moved(c, s, step);
  }

  /** The adder receives its tick, calls Transact, and the node accepts what it sends. */
  lemma SendAccepted(c: Config, s: State, t: nat) returns (s': State)
    requires c.Valid() && Reachable(c, s) && Standby(s, t, Waiting) && s.adders[t].batch < c.batches
    requires s.limiter.slot == 1 && InStep(c, s, At(s.adders, t))
    ensures Apart(c, s, s') && s'.tally == s.tally && s'.client == s.client
    ensures
      var a := At(s.adders, t);
      var tx := Tx(a, s.chain.next[a]);
      && s'.adders == s.adders[t := s.adders[t].(phase := Calling(tx.nonce))]
      && s'.chain.accepted == s.chain.accepted + {tx} && s'.chain.pending == s.chain.pending + {tx}
      && s'.chain.next == s.chain.next[a := tx.nonce + 1]
  {
    var m := Apply(c, s, Receive(t));
    OneStep(c, s, Receive(t));
    s' := CallAccepted(c, m, t);
    Along(c, s, m, s');
    assert s'.adders == s.adders[t := s'.adders[t]];
  }

  lemma CallAccepted(c: Config, s: State, t: nat) returns (s': State)
    requires c.Valid() && Reachable(c, s) && Standby(s, t, Holding) && InStep(c, s, At(s.adders, t))
    ensures Apart(c, s, s') && s'.tally == s.tally && s'.client == s.client
    ensures
      var a := At(s.adders, t);
      var tx := Tx(a, s.chain.next[a]);
      && s'.adders == InPhase(s.adders, t, Calling(tx.nonce))
      && s'.chain.accepted == s.chain.accepted + {tx} && s'.chain.pending == s.chain.pending + {tx}
      && s'.chain.next == s.chain.next[a := tx.nonce + 1]
  {
    var tx := Tx(At(s.adders, t), s.chain.next[At(s.adders, t)]);
    OneStep(c, s, Call(t));
    var m := Apply(c, s, Call(t));
    OneStep(c, m, Accept(tx));
    s' := Apply(c, m, Accept(tx));
    Along(c, s, m, s');
  }

  /** The call returns without an error, and the adder moves on. */
  lemma SendReported(c: Config, s: State, t: nat) returns (s': State)
    requires c.Valid() && Reachable(c, s) && t < |s.adders| && s.adders[t].phase.Calling?
    requires At(s.adders, t) in s.client.wins && At(s.adders, t) in s.client.nonce
    requires Tx(At(s.adders, t), s.adders[t].phase.nonce) in s.chain.accepted
    ensures Apart(c, s, s') && s'.tally == s.tally.(oks := s.tally.oks + 1, issued := s.tally.issued + 1)
    ensures s'.adders == s.adders[t := NextPoint(c.accounts, s.adders[t])]
    ensures s'.chain == s.chain.(reported := s'.chain.reported)
    ensures
      var a := At(s.adders, t);
      && s'.client.wins.Keys == s.client.wins.Keys
      && s'.client.nonce == if c.manageNonce then s.client.nonce[a := s.client.nonce[a] + 1] else s.client.nonce
  {
    OneStep(c, s, Return(t, true));
    var m := Apply(c, s, Return(t, true));
    s' := CountedAndBumped(c, m, t);
    Along(c, s, m, s');
    assert s'.adders == s.adders[t := NextPoint(c.accounts, s.adders[t])];
  }

  lemma CountedAndBumped(c: Config, s: State, t: nat) returns (s': State)
    requires c.Valid() && Reachable(c, s) && Standby(s, t, Returned) && At(s.adders, t) in s.client.nonce
    ensures Apart(c, s, s') && s'.tally == s.tally.(issued := s.tally.issued + 1) && s'.chain == s.chain
    ensures s'.adders == s.adders[t := NextPoint(c.accounts, s.adders[t])]
    ensures
      var a := At(s.adders, t);
      && s'.client.wins == s.client.wins
      && s'.client.nonce == if c.manageNonce then s.client.nonce[a := s.client.nonce[a] + 1] else s.client.nonce
  {
    OneStep(c, s, Count(t));
    var m := Apply(c, s, Count(t));
    OneStep(c, m, Bump(t));
    s' := Apply(c, m, Bump(t));
    Along(c, s, m, s');
    assert s'.adders == s.adders[t := NextPoint(c.accounts, s.adders[t])];
  }

  lemma FineFacts(c: Config, s: State, t: nat)
    requires Fine(c, s) && t < |s.adders|
    ensures Standing(c, s.adders[t]) && IsAcct(c, At(s.adders, t)) && InStep(c, s, At(s.adders, t))
    ensures Tx(At(s.adders, t), s.chain.next[At(s.adders, t)]) !in s.chain.accepted
  {
    AdderFacts(c, s, t);
    assert IsAcct(c, At(s.adders, t));
    LoadTheorems.GapFreeNonces(c, s, At(s.adders, t));
  }

  lemma StillFine(c: Config, s: State, m: State, s': State, t: nat)
    requires Fine(c, s) && t < |s.adders| && Reachable(c, s') && s.limiter.slot == 1
    requires
      var a := At(s.adders, t);
      var tx := Tx(a, if a in s.chain.next then s.chain.next[a] else 0);
      && m.client == s.client && m.tally == s.tally && tx !in s.chain.accepted && IsAcct(c, a)
      && m.chain.accepted == s.chain.accepted + {tx} && m.chain.pending == s.chain.pending + {tx}
      && m.chain.next == s.chain.next[a := tx.nonce + 1] && s'.chain == m.chain.(reported := s'.chain.reported)
      && s'.tally == m.tally.(oks := m.tally.oks + 1, issued := m.tally.issued + 1)
      && s'.client.wins.Keys == m.client.wins.Keys && a in m.client.nonce
      && s'.client.nonce == if c.manageNonce then m.client.nonce[a := m.client.nonce[a] + 1] else m.client.nonce
    requires s'.adders == s.adders[t := NextPoint(c.accounts, s.adders[t])]
    ensures Fine(c, s')
  {
    forall b | IsAcct(c, b)
      ensures InStep(c, s', b)
    {
      assert InStep(c, s, b);
    }
  }

  /** One attempt from start to end, with success. */
  lemma SendWell(c: Config, s: State, t: nat) returns (s': State)
    requires Fine(c, s) && Standby(s, t, Waiting) && s.adders[t].batch < c.batches && s.limiter.slot == 1
    ensures Fine(c, s') && Apart(c, s, s') && s'.adders == s.adders[t := NextPoint(c.accounts, s.adders[t])]
  {
    FineFacts(c, s, t);
    var m;
    m, s' := SendAndReport(c, s, t);
    StillFine(c, s, m, s', t);
  }

  lemma SendAndReport(c: Config, s: State, t: nat) returns (m: State, s': State)
    requires c.Valid() && Reachable(c, s) && Standby(s, t, Waiting) && s.adders[t].batch < c.batches
    requires s.limiter.slot == 1 && InStep(c, s, At(s.adders, t))
    ensures Apart(c, s, s') && s'.adders == s.adders[t := NextPoint(c.accounts, s.adders[t])]
    ensures
      var a := At(s.adders, t);
      var tx := Tx(a, s.chain.next[a]);
      && m.client == s.client && m.tally == s.tally
      && m.chain.accepted == s.chain.accepted + {tx} && m.chain.pending == s.chain.pending + {tx}
      && m.chain.next == s.chain.next[a := tx.nonce + 1] && s'.chain == m.chain.(reported := s'.chain.reported)
      && s'.tally == m.tally.(oks := m.tally.oks + 1, issued := m.tally.issued + 1)
      && s'.client.wins.Keys == m.client.wins.Keys
      && s'.client.nonce == if c.manageNonce then m.client.nonce[a := m.client.nonce[a] + 1] else m.client.nonce
  {
    m := SendAccepted(c, s, t);
    s' := SendReported(c, m, t);
    Along(c, s, m, s');
    assert s'.adders == s.adders[t := NextPoint(c.accounts, s.adders[t])];
  }

  lemma TickWell(c: Config, s: State, t: nat) returns (s': State)
    requires Fine(c, s) && t < |s.adders|
    ensures Fine(c, s') && Apart(c, s, s') && s'.adders == s.adders && s'.limiter.slot == 1
  {
    s' := LoadEnd.WithTick(c, s, t);
    forall a | IsAcct(c, a)
      ensures InStep(c, s', a)
    {
      assert InStep(c, s, a);
    }
  }

  lemma LessLeft(c: Config, a: Adder)
    requires Standing(c, a) && a.phase.Waiting? && a.batch < c.batches
    ensures LoadGrid.Rank(c)(NextPoint(c.accounts, a)) < LoadGrid.Rank(c)(a)
  {
    LoadGrid.NextPointRank(c, a.(phase := Counted));
  }

  /** One adder makes all its attempts with success, and ends. */
  lemma {:induction false} FinishWell(c: Config, s: State, t: nat) returns (s': State)
    requires Fine(c, s) && t < |s.adders|
    ensures Fine(c, s') && Apart(c, s, s') && s'.adders[t].phase.Finished?
    ensures forall u :: 0 <= u < |s.adders| && u != t ==> s'.adders[u] == s.adders[u]
    decreases LoadGrid.Rank(c)(s.adders[t])
  {
    FineFacts(c, s, t);
    if s.adders[t].phase.Finished? {
      s' := s;
      assert Runs(c, s, [], s);
    } else if s.adders[t].batch < c.batches {
      var m := TickWell(c, s, t);
      var n := SendWell(c, m, t);
      Along(c, s, m, n);
      LessLeft(c, s.adders[t]);
      s' := FinishWell(c, n, t);
      Along(c, s, n, s');
    } else {
      s' := DoneWell(c, s, t);
    }
  }

  lemma DoneWell(c: Config, s: State, t: nat) returns (s': State)
    requires Fine(c, s) && Standby(s, t, Waiting) && s.adders[t].batch >= c.batches
    ensures Fine(c, s') && Apart(c, s, s') && s'.adders == InPhase(s.adders, t, Finished)
  {
    OneStep(c, s, Done(t));
    s' := Apply(c, s, Done(t));
    forall a | IsAcct(c, a)
      ensures InStep(c, s', a)
    {
      assert InStep(c, s, a);
    }
  }

  lemma {:induction false} FinishFirstWell(c: Config, s: State, k: nat) returns (s': State)
    requires Fine(c, s) && k <= |s.adders|
    ensures Fine(c, s') && Apart(c, s, s') && forall t :: 0 <= t < k ==> s'.adders[t].phase.Finished?
  {
    if k == 0 {
      s' := s;
      assert Runs(c, s, [], s);
    } else {
      var m := FinishFirstWell(c, s, k - 1);
      s' := FinishWell(c, m, k - 1);
      Along(c, s, m, s');
    }
  }

  /** The whole target is then issued, and accepted. */
  lemma AllIssued(c: Config, s: State)
    requires Fine(c, s) && forall t :: 0 <= t < |s.adders| ==> s.adders[t].phase.Finished?
    ensures s.tally.issued == c.Attempts() == |s.chain.accepted|
  {
    LoadGrid.GridCoveredExactly(c, s);
    LoadGrid.GridOfReachable(c, s);
    SumZero(s.adders, Uncounted);
  }

  // ---- The run that goes well ----

  /** All is started, and the adders have made all their attempts with success, before a block is mined. */
  lemma AllSent(c: Config) returns (s: State)
    requires c.Valid()
    ensures Fine(c, s) && forall t :: 0 <= t < |s.adders| ==> s.adders[t].phase.Finished?
    ensures s.main.AtWait? && |s.chain.blocks| == 1 && s.watch == Launched(c)
  {
    var p := Spawn(c, c.threads);
    Moved(c, p, Main);
    var q := Apply(c, p, Main);
    s := FinishFirstWell(c, q, c.threads);
  }

  const EmptyBlock := BlockDB.Block(0, 0, 0, 0, 0)

  lemma {:induction false} MineEmpty(c: Config, s: State, k: nat) returns (s': State)
    requires c.Valid() && Reachable(c, s) && 0 < |s.chain.blocks| <= k
    ensures Reachable(c, s') && s' == s.(chain := s.chain.(blocks := s'.chain.blocks)) && |s'.chain.blocks| == k
    decreases k
  {
    if |s.chain.blocks| == k {
      s' := s;
    } else {
      var m := MineEmpty(c, s, k - 1);
      Moved(c, m, Mine({}, EmptyBlock));
      s' := Apply(c, m, Mine({}, EmptyBlock));
    }
  }

  /** The collector begins, everything is mined in the next block, and the collector is shown it. */
  lemma CollectAll(c: Config, s: State) returns (s': State)
    requires c.Valid() && Reachable(c, s) && c.collecting && LoadTheorems.SharedTarget(c)
    requires s.watch == Launched(c) && |s.chain.blocks| == 1 && |s.chain.pending| == c.Attempts()
    ensures Reachable(c, s') && s'.adders == s.adders && s'.main == s.main && s'.tally == s.tally
    ensures Begun(s'.watch) && s'.watch.scan.status.Complete?
  {
    var b: nat := if c.startBlock == -1 then 0 else c.startBlock;
    var m := MineEmpty(c, s, b + 1);
    Moved(c, m, Begin(Ok(0)));
    BeginsAtHead(c, m, 0);
    var n := Apply(c, m, Begin(Ok(0)));
    s' := ShowAll(c, n, b);
  }

  lemma ShowAll(c: Config, s: State, b: nat) returns (s': State)
    requires c.Valid() && Reachable(c, s) && LoadTheorems.SharedTarget(c)
    requires s.watch.phase.Polling? && s.watch.scan == Scan(b, 0, c.rows0, Running)
    requires |s.chain.blocks| == b + 1 && |s.chain.pending| == c.Attempts()
    ensures Reachable(c, s') && s'.adders == s.adders && s'.main == s.main && s'.tally == s.tally
    ensures Begun(s'.watch) && s'.watch.scan.status.Complete?
  {
    var m := MineAll(c, s);
    var full := m.chain.blocks[b + 1].header;
    var n;
    n, s' := PollIsActedOn(c, m, b + 1);
    ReachableExtends(c, m, [Poll(Ok(b + 1))] + Scans(n), s');
    EnoughInOneBlock(c.stop, WorldOf(c, m.chain.blocks), m.watch.scan, full);
  }

  lemma MineAll(c: Config, s: State) returns (s': State)
    requires c.Valid() && Reachable(c, s)
    ensures Reachable(c, s') && s' == s.(chain := s'.chain) && |s'.chain.blocks| == |s.chain.blocks| + 1
    ensures s'.chain.blocks[|s.chain.blocks|].header.txcount == |s.chain.pending|
  {
    var full := BlockDB.Block(0, 0, 0, 0, |s.chain.pending|);
    Moved(c, s, Mine(s.chain.pending, full));
    s' := Apply(c, s, Mine(s.chain.pending, full));
  }

  lemma EnoughInOneBlock(t: Target, w: BlockDB.World, s: Scan, block: BlockDB.Block)
    requires s.status.Running? && w.fetch(s.last + 1) == Ok(block)
    requires t.expected != -1 && s.mined + block.txcount >= t.expected
    ensures ScanTo(t, w, s, s.last + 1).status.Complete?
  {
    assert ScanTo(t, w, s, s.last) == s;
  }

  /**
  Every target can be met: for any number of threads, accounts and batches, managed nonces or not, from any start
  block, some run issues the whole target without a failure and passes Wait, its collector complete.
  */
  lemma RunCanSucceed(c: Config)
    requires c.Valid() && (c.collecting ==> LoadTheorems.SharedTarget(c))
    ensures exists s ::
      && Reachable(c, s) && s.main.AfterWait? && s.tally.issued == c.Attempts() && s.tally.failed == 0
      && (c.collecting ==> Begun(s.watch) && s.watch.scan.status.Complete?)
  {
    var m := AllSent(c);
    AllIssued(c, m);
    var n := m;
    if c.collecting {
      n := CollectAll(c, m);
    }
    LoadEnd.WaitReturns(c, n);
    Moved(c, n, Main);
    var s := Apply(c, n, Main);
  }
}
