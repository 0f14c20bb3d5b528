/**
The results table, keyed by a UNIQUE block number, and the range loop that fills it without a collector
(go/bbeth/collect/blockdb.go).
*/
module BlockDB {
  import opened Prelude

  /** The recorded columns of a block. */
  datatype Block = Block(time: nat, size: nat, gasUsed: nat, gasLimit: nat, txcount: nat)

  /**
  The world a scan talks to: what the node answers for a block number, and whether the database file can be
  written when that block comes up. A scan asks for a number once, so neither depends on time.
  */
  datatype World = World(fetch: int -> Reply<Block>, writable: int -> bool)

  /** The table after an insert: a row that exists is never replaced. */
  function Inserted(rows: map<int, Block>, number: int, block: Block, writable: bool): map<int, Block> {
    if number in rows || !writable then rows else rows[number := block]
  }

  class Table {
    var rows: map<int, Block>

    constructor (rows: map<int, Block>)
      ensures this.rows == rows
    {
      this.rows := rows;
    }

    method Insert(number: int, block: Block, writable: bool) returns (ok: bool)
      modifies this
      ensures rows == Inserted(old(rows), number, block, writable)
      ensures ok <==> number !in old(rows) && writable
    {
      if number in rows || !writable {
        return false;
      }
      rows := rows[number := block];
      return true;
    }
  }

  /** A Go int64 conversion or subtraction: arithmetic modulo 2^64, read as signed. */
  function I64(n: int): int {
    (n + 0x8000_0000_0000_0000) % 0x1_0000_0000_0000_0000 - 0x8000_0000_0000_0000
  }

  /** A printed line: the block number and the time since the block before it; None is printed as NaN. */
  datatype Line = Line(number: int, delta: Option<int>)

  datatype RangeResult = Done | StartAfterEnd | FetchFailed(number: int)

  /** What the loop prints for block n: a previous time of -1 doubles as "there is none". */
  function LineFor(w: World, start: int, n: int): Line
    requires w.fetch(n).Ok?
    requires start <= n && (start < n || start >= 1 ==> w.fetch(n - 1).Ok?)
  {
    var prev := if start < n || start >= 1 then I64(w.fetch(n - 1).value.time) else -1;
    Line(n, if prev == -1 then None else Some(I64(I64(w.fetch(n).value.time) - prev)))
  }

  /** Walks start..end in order, stopping at the first block that cannot be had. */
  method GetBlocks(w: World, db: Table?, start: int, end: int) returns (lines: seq<Line>, result: RangeResult)
    modifies db
    ensures result.StartAfterEnd? <==> end < start
    ensures end < start ==> lines == []
    ensures result.Done? <==> start <= end && forall n ::
      (if start >= 1 then start - 1 else start) <= n <= end ==> w.fetch(n).Ok?
    ensures result.FetchFailed? ==>
      && w.fetch(result.number).Err?
      && (if start >= 1 then start - 1 else start) <= result.number <= end
      && |lines| == (if result.number < start then 0 else result.number - start)
    ensures result.Done? ==> |lines| == end - start + 1
    ensures forall k :: 0 <= k < |lines| ==>
      && w.fetch(start + k).Ok? && (0 < k || start >= 1 ==> w.fetch(start + k - 1).Ok?)
      && lines[k] == LineFor(w, start, start + k)
    ensures db != null ==> forall n ::
      n in db.rows <==> n in old(db.rows) || (start <= n < start + |lines| && w.writable(n))
    ensures db != null ==> forall n :: n in db.rows ==>
      if n in old(db.rows) then db.rows[n] == old(db.rows)[n] else w.fetch(n) == Ok(db.rows[n])
  {
    lines := [];
    if end < start {
      return lines, StartAfterEnd;
    }
    var tprev := -1;
    if start >= 1 {
      var reply := w.fetch(start - 1);
      if reply.Err? {
        return lines, FetchFailed(start - 1);
      }
      tprev := I64(reply.value.time);
    }
    var n := start;
    while n <= end
      invariant start <= n <= end + 1 && |lines| == n - start
      invariant start >= 1 ==> w.fetch(start - 1).Ok?
      invariant forall m :: start <= m < n ==> w.fetch(m).Ok?
      invariant tprev == if start < n || start >= 1 then I64(w.fetch(n - 1).value.time) else -1
      invariant forall k :: 0 <= k < |lines| ==> lines[k] == LineFor(w, start, start + k)
      invariant db != null ==> forall m :: m in db.rows <==> m in old(db.rows) || (start <= m < n && w.writable(m))
      invariant db != null ==> forall m :: m in db.rows ==>
        if m in old(db.rows) then db.rows[m] == old(db.rows)[m] else w.fetch(m) == Ok(db.rows[m])
    {
      var reply := w.fetch(n);
      if reply.Err? {
        return lines, FetchFailed(n);
      }
      if db != null {
        var _ := db.Insert(n, reply.value, w.writable(n));
      }
      var delta := None;
      if tprev != -1 {
        delta := Some(I64(I64(reply.value.time) - tprev));
      }
      tprev := I64(reply.value.time);
      lines := lines + [Line(n, delta)];
      n := n + 1;
    }
    return lines, Done;
  }

  /** The sum of the deltas that are numbers. */
  function DeltaSum(lines: seq<Line>): int {
    if lines == [] then 0
    else
      var last := lines[|lines| - 1].delta;
      DeltaSum(lines[..|lines| - 1]) + if last.Some? then last.value else 0
  }

  /** A block time that int64 can hold. */
  predicate SmallTimes(w: World, from: int, to: int) {
    forall n :: from <= n <= to ==> w.fetch(n).Ok? && w.fetch(n).value.time < 0x8000_0000_0000_0000
  }

  /**
  Any printed line, whatever the times: the delta is NaN exactly when there is no block before, or when the time before
  it reads as -1, and otherwise the difference of the times modulo 2^64, in the range of int64.
  */
  lemma LineIs(w: World, start: int, n: int)
    requires w.fetch(n).Ok? && start <= n && (start < n || start >= 1 ==> w.fetch(n - 1).Ok?)
    ensures
      var line := LineFor(w, start, n);
      && line.number == n
      && (line.delta.None? <==>
            n == start < 1 || w.fetch(n - 1).value.time % 0x1_0000_0000_0000_0000 == 0xffff_ffff_ffff_ffff)
      && (line.delta.Some? ==>
            && -0x8000_0000_0000_0000 <= line.delta.value < 0x8000_0000_0000_0000
            && (w.fetch(n).value.time - w.fetch(n - 1).value.time - line.delta.value) % 0x1_0000_0000_0000_0000 == 0)
  {
    if start < n || start >= 1 {
      I64Is(w.fetch(n - 1).value.time);
      I64Difference(w.fetch(n).value.time, w.fetch(n - 1).value.time);
    }
  }

  lemma I64Is(n: int)
    ensures -0x8000_0000_0000_0000 <= I64(n) < 0x8000_0000_0000_0000
    ensures exists q: int :: n - I64(n) == 0x1_0000_0000_0000_0000 * q
    ensures I64(n) == -1 <==> n % 0x1_0000_0000_0000_0000 == 0xffff_ffff_ffff_ffff
  {
    var q := (n + 0x8000_0000_0000_0000) / 0x1_0000_0000_0000_0000;
    assert n - I64(n) == 0x1_0000_0000_0000_0000 * q;
  }

  lemma I64Difference(a: int, b: int)
    ensures
      var d := I64(I64(a) - I64(b));
      && -0x8000_0000_0000_0000 <= d < 0x8000_0000_0000_0000
      && (a - b - d) % 0x1_0000_0000_0000_0000 == 0
  {
    I64Is(a);
    I64Is(b);
    I64Is(I64(a) - I64(b));
    var p, q, r :| a - I64(a) == 0x1_0000_0000_0000_0000 * p && b - I64(b) == 0x1_0000_0000_0000_0000 * q
      && I64(a) - I64(b) - I64(I64(a) - I64(b)) == 0x1_0000_0000_0000_0000 * r;
    assert a - b - I64(I64(a) - I64(b)) == 0x1_0000_0000_0000_0000 * (p - q + r);
  }

  lemma DeltaOfLine(w: World, start: int, n: int)
    requires 1 <= start <= n && SmallTimes(w, n - 1, n)
    ensures w.fetch(n).Ok? && w.fetch(n - 1).Ok?
    ensures LineFor(w, start, n) == Line(n, Some(w.fetch(n).value.time - w.fetch(n - 1).value.time))
  {
    assert w.fetch(n - 1).value.time < 0x8000_0000_0000_0000;
  }

  /** The printed deltas of a range starting at block 1 or later telescope, and none of them is NaN. */
  lemma {:induction false} DeltasTelescope(w: World, start: int, end: int, lines: seq<Line>)
    requires 1 <= start && SmallTimes(w, start - 1, end) && |lines| == end - start + 1
    requires forall k :: 0 <= k < |lines| ==> lines[k] == LineFor(w, start, start + k)
    ensures forall k :: 0 <= k < |lines| ==> lines[k].number == start + k && lines[k].delta.Some?
    ensures DeltaSum(lines) == w.fetch(end).value.time - w.fetch(start - 1).value.time
    decreases |lines|
  {
    if lines != [] {
      var k := |lines| - 1;
      DeltasTelescope(w, start, end - 1, lines[..k]);
      DeltaOfLine(w, start, start + k);
    }
  }

  /** A range starting at block 0 has no earlier block, so only its first delta is NaN. */
  lemma FirstDeltaFromGenesis(w: World, n: int)
    requires 0 <= n && SmallTimes(w, 0, n)
    ensures LineFor(w, 0, n).delta.None? <==> n == 0
  {
    if n > 0 {
      assert w.fetch(n - 1).value.time < 0x8000_0000_0000_0000;
    }
  }
}
