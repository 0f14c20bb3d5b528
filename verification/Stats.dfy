/**
Summary statistics over the results table (jupyter-support/bbplots/db.py), and what they say about the
collector that filled it.
*/
module Stats {
  import opened Prelude
  import opened BlockDB
  import opened Collector

  /** A row of statistics; None is SQL's NULL, the value of an aggregate over no rows. */
  datatype CommonStats = CommonStats(
    txcountSum: Option<nat>,
    sizeMax: Option<nat>,
    txcountMax: Option<nat>,
    txcountAv: Option<real>,
    txcountAvNonempty: real,
    blocksNonemptyCount: nat)

  /** The keys of the rows a "lo <= blocknumber and blocknumber <= hi" clause selects. */
  function Selected(rows: map<int, Block>, lo: int, hi: int): set<int> {
    set n | n in rows && lo <= n <= hi
  }

  /** The block numbers a caller asks for: an omitted bound is open, and so is a last block of 0 or less. */
  predicate Asked(first: Option<int>, last: Option<int>, n: int) {
    (first.None? || first.value <= n) && (last.None? || last.value <= 0 || n <= last.value)
  }

  /** SUM(f) over the rows selected by the clause; the absent keys in between add nothing. */
  function SumOver(rows: map<int, Block>, f: Block -> nat, lo: int, hi: int): nat
    decreases Max(0, hi - lo + 1)
  {
    if hi < lo then 0 else SumOver(rows, f, lo, hi - 1) + if hi in rows then f(rows[hi]) else 0
  }

  /** MAX(f), 0 when nothing is selected. */
  function MaxOver(rows: map<int, Block>, f: Block -> nat, lo: int, hi: int): (m: nat)
    ensures forall n :: n in rows && lo <= n <= hi ==> f(rows[n]) <= m
    ensures m == 0 || exists n :: n in rows && lo <= n <= hi && f(rows[n]) == m
    decreases Max(0, hi - lo + 1)
  {
    if hi < lo then 0
    else
      var m := MaxOver(rows, f, lo, hi - 1);
      if hi in rows && f(rows[hi]) > m then f(rows[hi]) else m
  }

  const Txcount := (b: Block) => b.txcount
  const Size := (b: Block) => b.size
  const One := (b: Block) => 1 as nat
  const Nonempty := (b: Block) => if b.txcount != 0 then 1 as nat else 0

  /** SELECT MIN(blocknumber), MAX(blocknumber): NULL for an empty table. */
  ghost predicate MinMax(rows: map<int, Block>, lo: Option<int>, hi: Option<int>) {
    if rows == map[] then lo == hi == None else lo.Some? && hi.Some? && Bounds(rows, lo.value, hi.value)
  }

  /** The least and greatest keys. */
  ghost predicate Bounds(rows: map<int, Block>, lo: int, hi: int) {
    lo in rows && hi in rows && forall n :: n in rows ==> lo <= n <= hi
  }

  class Blocks {
    const rows: map<int, Block>
    const minblock: Option<int>
    const maxblock: Option<int>

    constructor (rows: map<int, Block>, minblock: Option<int>, maxblock: Option<int>)
      requires MinMax(rows, minblock, maxblock)
      ensures Valid() && this.rows == rows
    {
      this.rows, this.minblock, this.maxblock := rows, minblock, maxblock;
    }

    ghost predicate Valid() {
      MinMax(rows, minblock, maxblock)
    }

    /**
    Fills in and clamps the bounds of a range; a last block of 0 or less counts as not given. Over an empty
    table there are no bounds to compare with, and Python raises.
    */
    method CheckRange(first: Option<int>, last: Option<int>) returns (r: Reply<(int, int)>)
      requires Valid()
      ensures r.Err? <==> rows == map[]
      ensures r.Ok? ==>
        && r.value.0 == (if first.None? || first.value < minblock.value then minblock.value else first.value)
        && r.value.1 == (if last.None? || last.value <= 0 || last.value > maxblock.value then maxblock.value
                         else last.value)
        && Selected(rows, r.value.0, r.value.1) == set n | n in rows && Asked(first, last, n)
    {
      if minblock.None? {
        return Err;
      }
      var f := match first case None => minblock.value case Some(v) => v;
      var l := match last case None => maxblock.value case Some(v) => if v <= 0 then maxblock.value else v;
      if f < minblock.value {
        f := minblock.value;
      }
      if l > maxblock.value {
        l := maxblock.value;
      }
      return Ok((f, l));
    }

    method GetCommonStats(first: Option<int>, last: Option<int>) returns (r: Reply<CommonStats>)
      requires Valid()
      ensures r.Err? <==> rows == map[]
      ensures r.Ok? ==> AreStatsOf(r.value, rows, set n | n in rows && Asked(first, last, n))
      ensures r.Ok? && first.None? && last.None? ==>
        && r.value.txcountSum == Some(SumOver(rows, Txcount, minblock.value, maxblock.value))
        && r.value.txcountMax.Some? && r.value.sizeMax.Some?
        && (forall n :: n in rows ==>
              rows[n].txcount <= r.value.txcountMax.value && rows[n].size <= r.value.sizeMax.value)
    {
      var range := CheckRange(first, last);
      if range.Err? {
        return Err;
      }
      var (lo, hi) := range.value;
      r := Ok(StatsOver(rows, lo, hi));
      StatsOverSelected(rows, lo, hi);
      if first.None? && last.None? {
        assert minblock.value in Selected(rows, lo, hi) && maxblock.value in Selected(rows, lo, hi);
        assert lo <= minblock.value <= hi && lo <= maxblock.value <= hi;
        SumPositive(rows, One, lo, hi, minblock.value);
      }
    }
  }

  /** The blocks with transactions among some rows. */
  function FilledRows(rows: map<int, Block>, keys: set<int>): set<int> {
    set n | n in keys && n in rows && rows[n].txcount != 0
  }

  /**
  The six statistics of a set of rows, said without the queries: the sum is over a range that selects just these rows,
  each maximum is attained and no row exceeds it, the averages divide the sum by the number of the rows and by the
  number of those with transactions. Without rows, all but the last two are missing.
  */
  ghost predicate AreStatsOf(r: CommonStats, rows: map<int, Block>, asked: set<int>) {
    && r.blocksNonemptyCount == |FilledRows(rows, asked)|
    && (asked == {} ==>
          r.txcountSum == r.sizeMax == r.txcountMax == None && r.txcountAv == None && r.txcountAvNonempty == 0.0)
    && (asked != {} ==>
          && r.txcountSum.Some? && r.sizeMax.Some? && r.txcountMax.Some?
          && (exists lo, hi :: Selected(rows, lo, hi) == asked && r.txcountSum.value == SumOver(rows, Txcount, lo, hi))
          && (forall n :: n in asked && n in rows ==>
                rows[n].size <= r.sizeMax.value && rows[n].txcount <= r.txcountMax.value)
          && (exists n :: n in asked && n in rows && rows[n].size == r.sizeMax.value)
          && (exists n :: n in asked && n in rows && rows[n].txcount == r.txcountMax.value)
          && r.txcountAv == Some(r.txcountSum.value as real / |asked| as real)
          && r.txcountAvNonempty == if FilledRows(rows, asked) == {} then 0.0
                                    else r.txcountSum.value as real / |FilledRows(rows, asked)| as real)
  }

  lemma StatsOverSelected(rows: map<int, Block>, lo: int, hi: int)
    ensures AreStatsOf(StatsOver(rows, lo, hi), rows, Selected(rows, lo, hi))
  {
    CountsSelected(rows, lo, hi);
    CountsFilled(rows, lo, hi);
    var asked := Selected(rows, lo, hi);
    if asked != {} {
      MaxIsAttained(rows, Size, lo, hi);
      MaxIsAttained(rows, Txcount, lo, hi);
      assert |asked| != 0;
    }
  }

  lemma {:induction false} CountsSelected(rows: map<int, Block>, lo: int, hi: int)
    ensures SumOver(rows, One, lo, hi) == |Selected(rows, lo, hi)|
    decreases Max(0, hi - lo + 1)
  {
    if hi < lo {
      assert Selected(rows, lo, hi) == {};
    } else {
      CountsSelected(rows, lo, hi - 1);
      assert Selected(rows, lo, hi) == Selected(rows, lo, hi - 1) + if hi in rows then {hi} else {};
    }
  }

  lemma {:induction false} CountsFilled(rows: map<int, Block>, lo: int, hi: int)
    ensures SumOver(rows, Nonempty, lo, hi) == |FilledRows(rows, Selected(rows, lo, hi))|
    decreases Max(0, hi - lo + 1)
  {
    var now := FilledRows(rows, Selected(rows, lo, hi));
    if hi < lo {
      assert now == {};
    } else {
      CountsFilled(rows, lo, hi - 1);
      var before := FilledRows(rows, Selected(rows, lo, hi - 1));
      assert now == before + if hi in rows && rows[hi].txcount != 0 then {hi} else {};
    }
  }

  lemma MaxIsAttained(rows: map<int, Block>, f: Block -> nat, lo: int, hi: int)
    requires Selected(rows, lo, hi) != {}
    ensures exists n :: n in Selected(rows, lo, hi) && f(rows[n]) == MaxOver(rows, f, lo, hi)
  {
    var m := MaxOver(rows, f, lo, hi);
    var k :| k in Selected(rows, lo, hi);
    if m == 0 {
      assert f(rows[k]) == 0;
    } else {
      var n :| n in rows && lo <= n <= hi && f(rows[n]) == m;
      assert n in Selected(rows, lo, hi);
    }
  }

  /** What the six queries compute over a clause; SUM, MAX and AVG of no rows are NULL. */
  function StatsOver(rows: map<int, Block>, lo: int, hi: int): CommonStats {
    var count := SumOver(rows, One, lo, hi);
    var sum := SumOver(rows, Txcount, lo, hi);
    var nonempty := SumOver(rows, Nonempty, lo, hi);
    CommonStats(
      if count == 0 then None else Some(sum),
      if count == 0 then None else Some(MaxOver(rows, Size, lo, hi)),
      if count == 0 then None else Some(MaxOver(rows, Txcount, lo, hi)),
      if count == 0 then None else Some(sum as real / count as real),
      if nonempty > 0 then sum as real / nonempty as real else 0.0,
      nonempty)
  }

  lemma {:induction false} SumPositive(rows: map<int, Block>, f: Block -> nat, lo: int, hi: int, n: int)
    requires n in rows && lo <= n <= hi
    ensures SumOver(rows, f, lo, hi) >= f(rows[n])
    decreases hi - lo
  {
    if n < hi {
      SumPositive(rows, f, lo, hi - 1, n);
    }
  }

  /** The transactions counted by the collector whose rows did not make it into the table. */
  function Lost(w: World, rows: map<int, Block>, from: int, to: int): nat
    decreases Max(0, to - from)
  {
    if to <= from then 0
    else Lost(w, rows, from, to - 1) + if to in rows || !w.writable(to) then TxCount(w, to) else 0
  }

  /** Over any range around the collected one, the rows added are those counted less those lost. */
  lemma {:induction false} SumGrowsByCollected(w: World, before: map<int, Block>, after: map<int, Block>,
    from: int, to: int, lo: int, hi: int)
    requires lo <= from + 1 && from <= to
    requires forall b :: from < b <= to ==> w.fetch(b).Ok?
    requires forall n :: n in after <==> n in before || (from < n <= to && w.writable(n))
    requires forall n :: n in after ==> if n in before then after[n] == before[n] else w.fetch(n) == Ok(after[n])
    ensures SumOver(after, Txcount, lo, hi) + Lost(w, before, from, if hi < to then hi else to)
         == SumOver(before, Txcount, lo, hi) + TxSum(w, from, if hi < to then hi else to)
    decreases Max(0, hi - lo + 1)
  {
    if lo <= hi {
      SumGrowsByCollected(w, before, after, from, to, lo, hi - 1);
    }
  }

  /** No key above or below the range: widening it changes no sum. */
  lemma {:induction false} SumIsAllRows(rows: map<int, Block>, f: Block -> nat, lo: int, hi: int, lo': int, hi': int)
    requires lo' <= lo <= hi <= hi' && forall n :: n in rows ==> lo <= n <= hi
    ensures SumOver(rows, f, lo', hi') == SumOver(rows, f, lo, hi)
    decreases hi' - lo'
  {
    if hi < hi' {
      SumIsAllRows(rows, f, lo, hi, lo', hi' - 1);
    } else {
      SumFrom(rows, f, lo, hi, lo');
    }
  }

  lemma {:induction false} SumFrom(rows: map<int, Block>, f: Block -> nat, lo: int, hi: int, lo': int)
    requires lo' <= lo && forall n :: n in rows ==> lo <= n
    ensures SumOver(rows, f, lo', hi) == SumOver(rows, f, lo, hi)
    decreases Max(0, hi - lo' + 1)
  {
    if lo' <= hi {
      SumFrom(rows, f, lo, hi - 1, lo');
    }
  }

  /** The default sum of a table, and 0 for one with no rows. */
  ghost predicate IsTotal(rows: map<int, Block>, total: nat) {
    if rows == map[] then total == 0
    else exists lo, hi :: Bounds(rows, lo, hi) && total == SumOver(rows, Txcount, lo, hi)
  }

  lemma {:induction false} SumOfNothing(f: Block -> nat, lo: int, hi: int)
    ensures SumOver(map[], f, lo, hi) == 0
    decreases Max(0, hi - lo + 1)
  {
    if lo <= hi {
      SumOfNothing(f, lo, hi - 1);
    }
  }

  lemma TotalOverWideRange(rows: map<int, Block>, total: nat, lo: int, hi: int)
    requires IsTotal(rows, total) && forall n :: n in rows ==> lo <= n <= hi
    ensures SumOver(rows, Txcount, lo, hi) == total
  {
    if rows == map[] {
      SumOfNothing(Txcount, lo, hi);
    } else {
      var lo', hi' :| Bounds(rows, lo', hi') && total == SumOver(rows, Txcount, lo', hi');
      SumIsAllRows(rows, Txcount, lo', hi', lo, hi);
    }
  }

  /**
  Conservation between the collector and the statistics, for any table to start from, any failing inserts and
  any way for the scan to end: rows that were there are kept as they were, and what the statistics sum to, plus
  what was counted but not stored, is what was there before, plus what the counter moved by.
  */
  lemma CounterAndTableAgree(t: Target, w: World, s: Scan, head: int, before: nat, after: nat)
    requires s.status.Running?
    requires IsTotal(s.rows, before) && IsTotal(ScanTo(t, w, s, head).rows, after)
    ensures
      var r := ScanTo(t, w, s, head);
      && (forall n :: n in s.rows ==> n in r.rows && r.rows[n] == s.rows[n])
      && after + Lost(w, s.rows, s.last, r.last) == before + (r.mined - s.mined)
  {
    var r := ScanTo(t, w, s, head);
    ScanIsCut(t, w, s, head);
    var lo, hi := WideRange(s.rows, r.rows, s.last + 1, r.last);
    SumGrowsByCollected(w, s.rows, r.rows, s.last, r.last, lo, hi);
    TotalOverWideRange(s.rows, before, lo, hi);
    TotalOverWideRange(r.rows, after, lo, hi);
  }

  /** Some range that holds two finite tables and an interval. */
  lemma {:induction false} WideRange(a: map<int, Block>, b: map<int, Block>, from: int, to: int)
    returns (lo: int, hi: int)
    ensures lo <= from && to <= hi
    ensures forall n :: n in a || n in b ==> lo <= n <= hi
  {
    lo, hi := SetRange(a.Keys + b.Keys, from, to);
  }

  lemma {:induction false} SetRange(s: set<int>, from: int, to: int) returns (lo: int, hi: int)
    ensures lo <= from && to <= hi && forall n :: n in s ==> lo <= n <= hi
    decreases |s|
  {
    if x :| x in s {
      lo, hi := SetRange(s - {x}, if x < from then x else from, Max(to, x));
      assert forall n :: n in s ==> n == x || n in s - {x};
    } else {
      lo, hi := from, to;
    }
  }

  /** When nothing is lost, the counter and the table agree; a single lost transaction is a disagreement. */
  lemma AgreeExactlyWhenNothingLost(t: Target, w: World, s: Scan, head: int, after: nat)
    requires s.status.Running? && s.mined == 0 && IsTotal(s.rows, 0)
    requires IsTotal(ScanTo(t, w, s, head).rows, after)
    ensures
      var r := ScanTo(t, w, s, head);
      after == r.mined <==> forall b :: s.last < b <= r.last && (b in s.rows || !w.writable(b)) ==> TxCount(w, b) == 0
  {
    var r := ScanTo(t, w, s, head);
    CounterAndTableAgree(t, w, s, head, 0, after);
    LostNothing(w, s.rows, s.last, r.last);
  }

  lemma {:induction false} LostNothing(w: World, rows: map<int, Block>, from: int, to: int)
    ensures Lost(w, rows, from, to) == 0
       <==> forall b :: from < b <= to && (b in rows || !w.writable(b)) ==> TxCount(w, b) == 0
    decreases Max(0, to - from)
  {
    if from < to {
      LostNothing(w, rows, from, to - 1);
    }
  }

  /**
  From an empty table with a writable file and at least one block collected: the keys are the contiguous
  collected range, and the statistics over the default bounds sum to what the collector counted.
  */
  lemma EmptyTableAgrees(t: Target, w: World, s: Scan, head: int)
    requires s.status.Running? && s.mined == 0 && s.rows == map[]
    requires forall b :: w.writable(b)
    requires ScanTo(t, w, s, head).last > s.last
    ensures
      var r := ScanTo(t, w, s, head);
      && Bounds(r.rows, s.last + 1, r.last)
      && (forall n :: n in r.rows <==> s.last < n <= r.last)
      && StatsOver(r.rows, s.last + 1, r.last).txcountSum == Some(r.mined)
  {
    var r := ScanTo(t, w, s, head);
    ScanIsCut(t, w, s, head);
    assert Bounds(r.rows, s.last + 1, r.last);
    var after := SumOver(r.rows, Txcount, s.last + 1, r.last);
    assert IsTotal(r.rows, after);
    AgreeExactlyWhenNothingLost(t, w, s, head, after);
    SumPositive(r.rows, One, s.last + 1, r.last, r.last);
  }
}
