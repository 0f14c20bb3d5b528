/**
The block collector (go/bbeth/collect/collect.go): it polls the head of the chain, scans the blocks it has not
seen, records and counts them, and decides when the run is complete.
*/
module Collector {
  import opened Prelude
  import Progress
  import opened BlockDB

  datatype Status = Running | Complete | Failed

  /** What a collector has done so far: the last block it took, the transactions counted and the table. */
  datatype Scan = Scan(last: int, mined: int, rows: map<int, Block>, status: Status)

  /** The two stop conditions; -1 switches each of them off. */
  datatype Target = Target(expected: int, endBlock: int)

  /** Whether the end block ends the run once block last is counted. */
  predicate Ends(endBlock: int, last: int) {
    endBlock == last || (endBlock > -1 && last > endBlock)
  }

  /** The condition tested after a block is counted. */
  predicate Stops(t: Target, last: int, mined: int) {
    Progress.Reached(t.expected, mined) || Ends(t.endBlock, last)
  }

  /** One iteration of the inner loop: fetch, insert, count and test the block after the last one. */
  function ScanOne(t: Target, w: World, s: Scan): Scan {
    var n := s.last + 1;
    match w.fetch(n)
    case Err => s.(status := Failed)
    case Ok(b) =>
      var mined := s.mined + b.txcount;
      Scan(n, mined, Inserted(s.rows, n, b, w.writable(n)), if Stops(t, n, mined) then Complete else Running)
  }

  /** The reference: a scan one block at a time, up to a head. */
  function ScanTo(t: Target, w: World, s: Scan, head: int): Scan
    decreases Max(0, head - s.last)
  {
    if head <= s.last then s
    else
      var p := ScanTo(t, w, s, head - 1);
      if p.status.Running? then ScanOne(t, w, p) else p
  }

  /** The outer loop body for one observation of the head. */
  function ScanPoll(t: Target, w: World, s: Scan, poll: Reply<int>): Scan {
    if !s.status.Running? then s
    else match poll
      case Err => s.(status := Failed)
      case Ok(head) => ScanTo(t, w, s, head)
  }

  function ScanPolls(t: Target, w: World, s: Scan, polls: seq<Reply<int>>): Scan {
    if polls == [] then s
    else ScanPoll(t, w, ScanPolls(t, w, s, polls[..|polls| - 1]), polls[|polls| - 1])
  }

  /** The state in which polling begins; the block number it holds is not itself collected. */
  function InitialScan(startBlock: int, first: Reply<int>, mined: int, rows: map<int, Block>): Scan {
    if startBlock != -1 then Scan(startBlock, mined, rows, Running)
    else match first
      case Err => Scan(0, mined, rows, Failed)
      case Ok(head) => Scan(head, mined, rows, Running)
  }

  /** WithProgress not given, given nil, or given a meter. */
  datatype ProgressOption = NoBar | OwnBar | Shared(pb: Progress.TransactionProgress)

  class Collector {
    const startBlock: int
    const endBlock: int
    const pb: Progress.TransactionProgress
    const db: Table

    /**
    A meter given by WithProgress brings its target with it, and one made by WithProgress(nil) takes it before an end
    block is looked at: only a collector without that option drops the target for an end block.
    */
    constructor (startBlock: int, endBlock: int, numTransactions: int, progress: ProgressOption, db: Table)
      ensures this.startBlock == startBlock && this.endBlock == endBlock && this.db == db
      ensures progress.Shared? ==> pb == progress.pb
      ensures !progress.Shared? ==> fresh(pb) && pb.numMined == 0 && !pb.issuedBar && pb.minedBar == progress.OwnBar?
      ensures progress.OwnBar? ==> pb.numExpected == numTransactions
      ensures progress.NoBar? ==> pb.numExpected == if endBlock != -1 then -1 else numTransactions
    {
      var n := numTransactions;
      var p: Progress.TransactionProgress?;
      match progress {
        case NoBar => p := null;
        case OwnBar => p := new Progress.TransactionProgress(n, false, true);
        case Shared(pb) => p := pb;
      }
      if endBlock != -1 {
        n := -1;
      }
      if p == null {
        p := new Progress.TransactionProgress(n, false, false);
      }
      this.startBlock, this.endBlock, this.db := startBlock, endBlock, db;
      this.pb := p;
    }

    ghost function State(last: int, status: Status): Scan
      reads pb, db
    {
      Scan(last, pb.numMined, db.rows, status)
    }

    /**
    The whole of Collect, against a finite script of what eth_blockNumber answers: first the initial read,
    used when no start block is configured, then one reply for every tick. Running means the script ran out
    while the collector was still waiting for a tick.
    */
    method Collect(w: World, first: Reply<int>, polls: seq<Reply<int>>) returns (lastBlock: int, status: Status)
      modifies pb`numMined, pb`mined, db
      ensures State(lastBlock, status)
           == ScanPolls(Target(pb.numExpected, endBlock), w,
              InitialScan(startBlock, first, old(pb.numMined), old(db.rows)), polls)
    {
      ghost var t := Target(pb.numExpected, endBlock);
      ghost var s0 := InitialScan(startBlock, first, pb.numMined, db.rows);
      lastBlock := startBlock;
      if lastBlock == -1 {
        if first.Err? {
          StoppedStays(t, w, s0, polls, 0);
          return 0, Failed;
        }
        lastBlock := first.value;
      }
      for k := 0 to |polls|
        invariant State(lastBlock, Running) == ScanPolls(t, w, s0, polls[..k])
      {
        assert polls[..k + 1][..k] == polls[..k];
        if polls[k].Err? {
          StoppedStays(t, w, s0, polls, k + 1);
          return lastBlock, Failed;
        }
        var blockNumber := polls[k].value;
        if blockNumber <= lastBlock {
          continue;
        }
        lastBlock, status := ScanBlocks(w, lastBlock, blockNumber);
        if status != Running {
          StoppedStays(t, w, s0, polls, k + 1);
          return;
        }
      }
      assert polls[..|polls|] == polls;
      status := Running;
    }

    /** The inner loop: the blocks after the last one, up to the head. */
    method ScanBlocks(w: World, from: int, head: int) returns (lastBlock: int, status: Status)
      requires from < head
      modifies pb`numMined, pb`mined, db
      ensures State(lastBlock, status)
           == ScanTo(Target(pb.numExpected, endBlock), w, Scan(from, old(pb.numMined), old(db.rows), Running), head)
    {
      ghost var t, s := Target(pb.numExpected, endBlock), State(from, Running);
      lastBlock := from;
      for i := from + 1 to head + 1
        invariant lastBlock == i - 1
        invariant State(lastBlock, Running) == ScanTo(t, w, s, lastBlock)
      {
        var reply := w.fetch(i);
        if reply.Err? {
          assert ScanTo(t, w, s, i) == State(lastBlock, Failed);
          ScanStuck(t, w, s, i, head);
          return lastBlock, Failed;
        }
        var _ := db.Insert(i, reply.value, w.writable(i));
        lastBlock := i;
        var complete := pb.MinedComplete(reply.value.txcount);
        if complete || endBlock == lastBlock || (lastBlock > endBlock && endBlock > -1) {
          assert ScanTo(t, w, s, i) == State(lastBlock, Complete);
          ScanStuck(t, w, s, i, head);
          return lastBlock, Complete;
        }
      }
      status := Running;
    }
  }

  /** A scan that has stopped ignores a higher head. */
  lemma {:induction false} ScanStuck(t: Target, w: World, s: Scan, h: int, head: int)
    requires h <= head && !ScanTo(t, w, s, h).status.Running?
    ensures ScanTo(t, w, s, head) == ScanTo(t, w, s, h)
    decreases head - h
  {
    if h < head {
      ScanStuck(t, w, s, h, head - 1);
    }
  }

  /** Once stopped, later polls change nothing. */
  lemma {:induction false} StoppedStays(t: Target, w: World, s: Scan, polls: seq<Reply<int>>, k: nat)
    requires k <= |polls| && !ScanPolls(t, w, s, polls[..k]).status.Running?
    ensures ScanPolls(t, w, s, polls) == ScanPolls(t, w, s, polls[..k])
    decreases |polls|
  {
    if k < |polls| {
      var init := polls[..|polls| - 1];
      assert init[..k] == polls[..k];
      StoppedStays(t, w, s, init, k);
    } else {
      assert polls[..k] == polls;
    }
  }

  /** A scan that is still running has reached the head. */
  lemma {:induction false} RunningReachedHead(t: Target, w: World, s: Scan, head: int)
    requires ScanTo(t, w, s, head).status.Running?
    ensures ScanTo(t, w, s, head).last == Max(s.last, head)
    decreases Max(0, head - s.last)
  {
    if head > s.last {
      RunningReachedHead(t, w, s, head - 1);
    }
  }

  /** Two scans in a row are one scan to the higher head. */
  lemma {:induction false} ScansCompose(t: Target, w: World, s: Scan, h1: int, h2: int)
    requires ScanTo(t, w, s, h1).status.Running?
    ensures ScanTo(t, w, ScanTo(t, w, s, h1), h2) == ScanTo(t, w, s, Max(h1, h2))
    decreases Max(0, h2 - h1)
  {
    RunningReachedHead(t, w, s, h1);
    if h2 > h1 && h2 > s.last {
      ScansCompose(t, w, s, h1, h2 - 1);
      assert Max(h1, h2 - 1) == h2 - 1;
    } else if h2 > h1 {
      assert ScanTo(t, w, s, h1) == s == ScanTo(t, w, s, h2);
    }
  }

  /** The polls that came before the first failed one. */
  function Answered(polls: seq<Reply<int>>): (n: nat)
    ensures n <= |polls| && (forall k :: 0 <= k < n ==> polls[k].Ok?) && (n < |polls| ==> polls[n].Err?)
  {
    if polls == [] || polls[0].Err? then 0 else 1 + Answered(polls[1..])
  }

  /** The highest head among the first n observations, and no less than the block collection began at. */
  function MaxHead(polls: seq<Reply<int>>, n: nat, last: int): int
    requires n <= |polls| && forall k :: 0 <= k < n ==> polls[k].Ok?
  {
    if n == 0 then last else Max(MaxHead(polls, n - 1, last), polls[n - 1].value)
  }

  lemma {:induction false} AnsweredPollsScanToMax(t: Target, w: World, s: Scan, polls: seq<Reply<int>>, n: nat)
    requires s.status.Running? && n <= |polls| && forall k :: 0 <= k < n ==> polls[k].Ok?
    ensures ScanPolls(t, w, s, polls[..n]) == ScanTo(t, w, s, MaxHead(polls, n, s.last))
    decreases n
  {
    if n > 0 {
      AnsweredPollsScanToMax(t, w, s, polls, n - 1);
      assert polls[..n][..n - 1] == polls[..n - 1];
      var m, h := MaxHead(polls, n - 1, s.last), polls[n - 1].value;
      var p := ScanTo(t, w, s, m);
      if p.status.Running? {
        ScansCompose(t, w, s, m, h);
      } else {
        ScanStuck(t, w, s, m, Max(m, h));
      }
    }
  }

  /**
  Independence from the polling schedule: whatever heads are observed, in whatever order, with repeats and
  regressions, the result is the one-block-at-a-time scan to the highest of them. If a poll fails before that
  scan stops, the result is the same scan of the heads seen until then, marked as failed.
  */
  lemma PollingScheduleIndependence(t: Target, w: World, s: Scan, polls: seq<Reply<int>>)
    requires s.status.Running?
    ensures
      var n := Answered(polls);
      var r := ScanTo(t, w, s, MaxHead(polls, n, s.last));
      ScanPolls(t, w, s, polls) == if n < |polls| && r.status.Running? then r.(status := Failed) else r
  {
    var n := Answered(polls);
    AnsweredPollsScanToMax(t, w, s, polls, n);
    if n == |polls| {
      assert polls[..n] == polls;
    } else if ScanPolls(t, w, s, polls[..n]).status.Running? {
      assert polls[..n + 1][..n] == polls[..n];
      StoppedStays(t, w, s, polls, n + 1);
    } else {
      StoppedStays(t, w, s, polls, n);
    }
  }

  /** The transactions of block n, 0 when it cannot be had. */
  function TxCount(w: World, n: int): nat {
    match w.fetch(n) case Ok(b) => b.txcount case Err => 0
  }

  /** The transactions of the blocks after from, up to and including to. */
  function TxSum(w: World, from: int, to: int): nat
    decreases Max(0, to - from)
  {
    if to <= from then 0 else TxSum(w, from, to - 1) + TxCount(w, to)
  }

  /** Whether the run is over once block b has been counted, said without running the scan. */
  predicate StopsAt(t: Target, w: World, s: Scan, b: int) {
    Stops(t, b, s.mined + TxSum(w, s.last, b))
  }

  /**
  What the collected range is, said without running the scan: it ends at the least block after the start that
  meets a stop condition, or before the first block that cannot be fetched, or at the head; the count is the
  total of exactly the blocks in it, and the table gains exactly its insertable blocks.
  */
  ghost predicate IsCut(t: Target, w: World, s: Scan, head: int, r: Scan) {
    && s.last <= r.last <= Max(s.last, head)
    && (forall b :: s.last < b <= r.last ==> w.fetch(b).Ok?)
    && (forall b :: s.last < b < r.last ==> !StopsAt(t, w, s, b))
    && r.mined == s.mined + TxSum(w, s.last, r.last)
    && (forall n :: n in r.rows <==> n in s.rows || (s.last < n <= r.last && w.writable(n)))
    && (forall n :: n in r.rows ==> if n in s.rows then r.rows[n] == s.rows[n] else w.fetch(n) == Ok(r.rows[n]))
    && match r.status
       case Complete => s.last < r.last && StopsAt(t, w, s, r.last)
       case Running => r.last == Max(s.last, head) && (s.last < r.last ==> !StopsAt(t, w, s, r.last))
       case Failed => r.last < head && w.fetch(r.last + 1).Err? && (s.last < r.last ==> !StopsAt(t, w, s, r.last))
  }

  lemma {:induction false} ScanIsCut(t: Target, w: World, s: Scan, head: int)
    requires s.status.Running?
    ensures IsCut(t, w, s, head, ScanTo(t, w, s, head))
    decreases Max(0, head - s.last)
  {
    if head > s.last {
      ScanIsCut(t, w, s, head - 1);
    }
  }

  /** The cut determines the whole outcome. */
  lemma CutIsUnique(t: Target, w: World, s: Scan, head: int, r1: Scan, r2: Scan)
    requires IsCut(t, w, s, head, r1) && IsCut(t, w, s, head, r2)
    ensures r1 == r2
  {
    assert r1.last == r2.last;
    forall n | n in r1.rows
      ensures n in r2.rows && r1.rows[n] == r2.rows[n]
    {
      assert n in r2.rows;
    }
    assert forall n :: n in r2.rows ==> n in r1.rows;
    assert r1.rows.Keys == r2.rows.Keys;
    assert r1.rows == r2.rows;
  }

  /**
  Where collection begins: one past the configured start block, or, when there is none, one past the head that was
  read first. No block up to there gains a row. If that read fails, nothing is collected whatever comes after.
  */
  lemma CollectionBegins(t: Target, w: World, startBlock: int, first: Reply<int>, mined: int, rows: map<int, Block>,
                         head: int)
    ensures
      var r := ScanTo(t, w, InitialScan(startBlock, first, mined, rows), head);
      if startBlock == -1 && first.Err? then r.status == Failed && r.mined == mined && r.rows == rows
      else
        var b := if startBlock != -1 then startBlock else first.value;
        && IsCut(t, w, Scan(b, mined, rows, Running), head, r)
        && forall n :: n <= b ==> (n in r.rows <==> n in rows)
  {
    var s := InitialScan(startBlock, first, mined, rows);
    if s.status == Running {
      ScanIsCut(t, w, s, head);
    } else if head > s.last {
      ScanStuck(t, w, s, s.last, head);
    }
  }

  /** The option says "first block to collect", but the start block itself is never collected: it stays as it was. */
  lemma StartBlockIsExclusive(t: Target, w: World, startBlock: int, rows: map<int, Block>, head: int)
    requires startBlock != -1
    ensures
      var r := ScanTo(t, w, InitialScan(startBlock, Err, 0, rows), head);
      startBlock in r.rows <==> startBlock in rows
  {
    ScanIsCut(t, w, InitialScan(startBlock, Err, 0, rows), head);
  }

  /** With a shared target of 0, which a too small request truncates to, the first block scanned ends the run. */
  lemma ZeroTargetStopsAtFirstBlock(t: Target, w: World, s: Scan, head: int)
    requires t.expected == 0 && s.mined >= 0 && s.status.Running?
    requires head > s.last && w.fetch(s.last + 1).Ok?
    ensures ScanTo(t, w, s, head).last == s.last + 1 && ScanTo(t, w, s, head).status.Complete?
  {
    ScanIsCut(t, w, s, head);
    assert StopsAt(t, w, s, s.last + 1);
  }

  /** A scan that is ended by its first block, if it can be had, looks at no other and at no target. */
  lemma {:induction false} EndedAtOnce(t: Target, w: World, s: Scan, head: int)
    requires s.status.Running? && Ends(t.endBlock, s.last + 1)
    ensures head > s.last ==>
      !ScanTo(t, w, s, head).status.Running?
      && ScanTo(t, w, s, head) == ScanTo(Target(-1, t.endBlock), w, s, head)
    decreases head - s.last
  {
    if head > s.last + 1 {
      EndedAtOnce(t, w, s, head - 1);
    } else if head == s.last + 1 {
      assert ScanTo(t, w, s, head - 1) == s == ScanTo(Target(-1, t.endBlock), w, s, head - 1);
    }
  }

  /**
  A next block with transactions enough ends a scan that has a target, and not one with only an end block further on.
  */
  lemma TargetDecides(t: Target, s: Scan) returns (w: World)
    requires s.status.Running? && t.expected != -1 && !Ends(t.endBlock, s.last + 1)
    ensures ScanTo(t, w, s, s.last + 1) != ScanTo(Target(-1, t.endBlock), w, s, s.last + 1)
  {
    w := World(_ => Ok(Block(0, 0, 0, 0, Max(0, t.expected - s.mined))), _ => true);
    var n := s.last + 1;
    assert ScanTo(t, w, s, n - 1) == s == ScanTo(Target(-1, t.endBlock), w, s, n - 1);
  }

  /**
  The message "endblock set, ignoring numtransactions" is true of a scan exactly when the meter has no target or
  the very first block scanned is the end block or past it. A meter shared with the loader has a target, but for a
  request of -1 with one thread and one account, so then the run can end before the end block.
  */
  lemma EndBlockOverridesTargetExactlyWhen(t: Target, s: Scan)
    requires s.status.Running?
    ensures
      (forall w, head :: ScanTo(t, w, s, head) == ScanTo(Target(-1, t.endBlock), w, s, head))
      <==> t.expected == -1 || t.endBlock == s.last + 1 || (t.endBlock > -1 && s.last + 1 > t.endBlock)
  {
    if t.expected == -1 {
      assert t == Target(-1, t.endBlock);
    } else if Ends(t.endBlock, s.last + 1) {
      forall w, head
        ensures ScanTo(t, w, s, head) == ScanTo(Target(-1, t.endBlock), w, s, head)
      {
        EndedAtOnce(t, w, s, head);
      }
    } else {
      var w := TargetDecides(t, s);
    }
  }
}
