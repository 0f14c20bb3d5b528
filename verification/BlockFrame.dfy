/** Block times and rolling rates over a frame of blocks (jupyter-support/bbplots/blockframe.py), over exact reals. */
module BlockFrame {
  import opened Prelude

  /** A cell of a column. Dividing a number by zero gives an infinity, dividing zero by zero gives NaN. */
  datatype Cell = NaN | Inf(positive: bool) | Num(value: real)

  datatype Column = Timestamp | BlockTime | TxCount | GasUsed | GasLimit | Rate(field: Column, window: nat)

  function Minus(a: Cell, b: Cell): Cell {
    if a.Num? && b.Num? then Num(a.value - b.value) else NaN
  }

  function Divide(a: Cell, b: Cell): Cell {
    if !a.Num? || !b.Num? then NaN
    else if b.value != 0.0 then Num(a.value / b.value)
    else if a.value == 0.0 then NaN
    else Inf(a.value > 0.0)
  }

  predicate AllNum(xs: seq<Cell>, from: int, end: int) {
    forall k :: from <= k < end && 0 <= k < |xs| ==> xs[k].Num?
  }

  /** The sum of the cells from..to; only numbers are added up. */
  function Sum(xs: seq<Cell>, from: nat, end: nat): real
    requires from <= end <= |xs|
  {
    if from == end then 0.0 else Sum(xs, from, end - 1) + if xs[end - 1].Num? then xs[end - 1].value else 0.0
  }

  /** rolling(window).sum() at row n: a full window of numbers, or NaN. */
  function Rolling(xs: seq<Cell>, window: nat, n: nat): Cell
    requires n < |xs|
  {
    if n + 1 >= window && AllNum(xs, n + 1 - window, n + 1) then Num(Sum(xs, n + 1 - window, n + 1)) else NaN
  }

  /** Over numbers a rolling sum is defined exactly from the first full window on, and moves by one cell at a time. */
  lemma RollingMoves(xs: seq<Cell>, window: nat, n: nat)
    requires AllNum(xs, 0, |xs|) && 1 <= window && n < |xs|
    ensures Rolling(xs, window, n).Num? <==> n >= window - 1
    ensures n == window - 1 ==> Rolling(xs, window, n) == Num(Sum(xs, 0, window))
    ensures n >= window ==>
      Rolling(xs, window, n).value == Rolling(xs, window, n - 1).value + xs[n].value - xs[n - window].value
  {
    if n >= window {
      SumDropsFirst(xs, n - window, n + 1);
    }
  }

  lemma {:induction false} SumDropsFirst(xs: seq<Cell>, from: nat, end: nat)
    requires AllNum(xs, 0, |xs|) && from < end <= |xs|
    ensures Sum(xs, from, end) == xs[from].value + Sum(xs, from + 1, end)
    decreases end
  {
    if from + 1 < end {
      SumDropsFirst(xs, from, end - 1);
    }
  }

  /** A column without a value in its last row: what pandas does to the others when it adds a row for one. */
  function Lengthened(xs: seq<Cell>): seq<Cell> {
    xs + [NaN]
  }

  class Frame {
    var df: map<Column, seq<Cell>>

    /** Every column has as many cells as the frame has rows. */
    ghost predicate Valid(rows: nat)
      reads this
    {
      Timestamp in df && forall col :: col in df ==> |df[col]| == rows
    }

    constructor (df: map<Column, seq<Cell>>)
      ensures this.df == df
    {
      this.df := df;
    }

    /**
    Scales the timestamps if asked to, and adds the time since the row before. The second assignment clears row
    1; a frame that has no such row is given one, with every other cell of it empty.
    */
    method AddBlockTime(timescale: Option<real>, ghost rows: nat)
      requires Valid(rows)
      modifies this
      ensures Valid(if rows < 2 then rows + 1 else rows)
      ensures df.Keys == old(df).Keys + {BlockTime}
      ensures rows >= 2 ==>
        && df[Timestamp] == Scaled(old(df)[Timestamp], timescale)
        && df[BlockTime] == BlockTimes(df[Timestamp])
        && forall col :: col in df && col != Timestamp && col != BlockTime ==> df[col] == old(df)[col]
      ensures rows < 2 ==>
        && df[BlockTime] == seq(rows + 1, _ => NaN)
        && df[Timestamp] == Scaled(old(df)[Timestamp], timescale) + [NaN]
        && forall col :: col in df && col != Timestamp && col != BlockTime ==> df[col] == old(df)[col] + [NaN]
    {
      if timescale.Some? {
        df := df[Timestamp := Scaled(df[Timestamp], timescale)];
      }
      var ts := df[Timestamp];
      df := df[BlockTime := SinceRowBefore(ts)];
      if |ts| > 1 {
        df := df[BlockTime := df[BlockTime][1 := NaN]];
        assert df[BlockTime] == BlockTimes(ts);
      } else {
        df := map col | col in df :: Lengthened(df[col]);
      }
    }

    /** Adds a rolling rate of a field over a window, under a name that says which. */
    method AddWindow(window: nat, field: Column, ghost rows: nat) returns (name: Column)
      requires Valid(rows) && window > 0 && field in df && BlockTime in df
      modifies this
      ensures Valid(rows) && name == Rate(field, window)
      ensures df == old(df)[name := Rates(old(df)[field], old(df)[BlockTime], window)]
      ensures rows >= 2 && Increasing(df[Timestamp])
        && AllNum(old(df)[field], 0, rows) && old(df)[BlockTime] == BlockTimes(df[Timestamp])
        ==> forall n :: 0 <= n < rows ==> df[name][n] == Telescoped(old(df)[field], df[Timestamp], window, n)
    {
      name := Rate(field, window);
      var xs, times := df[field], df[BlockTime];
      df := df[name := Rates(xs, times, window)];
      if rows >= 2 && Increasing(df[Timestamp]) && AllNum(xs, 0, rows) && times == BlockTimes(df[Timestamp]) {
        forall n | 0 <= n < rows
          ensures df[name][n] == Telescoped(xs, df[Timestamp], window, n)
        {
          RateTelescopes(xs, df[Timestamp], window, n);
        }
      }
    }
  }

  function Scaled(ts: seq<Cell>, timescale: Option<real>): (r: seq<Cell>)
    ensures |r| == |ts|
    ensures forall i :: 0 <= i < |ts| ==> r[i] == if timescale.Some? then Divide(ts[i], Num(timescale.value)) else ts[i]
  {
    match timescale
    case None => ts
    case Some(c) => seq(|ts|, i requires 0 <= i < |ts| => Divide(ts[i], Num(c)))
  }

  /** timestamp - timestamp.shift(). */
  function SinceRowBefore(ts: seq<Cell>): (r: seq<Cell>)
    ensures |r| == |ts| && forall i {:trigger r[i]} :: 0 <= i < |ts| ==>
      r[i] == if i == 0 then NaN else Minus(ts[i], ts[i - 1])
  {
    seq(|ts|, i requires 0 <= i < |ts| => if i == 0 then NaN else Minus(ts[i], ts[i - 1]))
  }

  /** The block times of at least two rows: the first two are not defined. */
  function BlockTimes(ts: seq<Cell>): (r: seq<Cell>)
    ensures |r| == |ts| && forall i {:trigger r[i]} :: 0 <= i < |ts| ==>
      r[i] == if i < 2 then NaN else Minus(ts[i], ts[i - 1])
  {
    seq(|ts|, i requires 0 <= i < |ts| => if i < 2 then NaN else Minus(ts[i], ts[i - 1]))
  }

  /** The quotient of the two rolling sums, row by row. */
  function Rates(xs: seq<Cell>, times: seq<Cell>, window: nat): (r: seq<Cell>)
    requires |xs| == |times|
    ensures |r| == |xs| && forall i :: 0 <= i < |xs| ==>
      r[i] == Divide(Rolling(xs, window, i), Rolling(times, window, i))
  {
    seq(|xs|, i requires 0 <= i < |xs| => Divide(Rolling(xs, window, i), Rolling(times, window, i)))
  }

  /** A table as it is read: every timestamp a number, each later than the one before, every count a number. */
  predicate Increasing(ts: seq<Cell>) {
    && (forall i :: 0 <= i < |ts| ==> ts[i].Num?)
    && (forall i, j :: 0 <= i < j < |ts| ==> ts[i].value < ts[j].value)
  }

  lemma {:induction false} BlockTimesTelescope(ts: seq<Cell>, times: seq<Cell>, from: nat, end: nat)
    requires AllNum(ts, 0, |ts|) && times == BlockTimes(ts) && 2 <= from <= end <= |ts|
    ensures Sum(times, from, end) == if from == end then 0.0 else ts[end - 1].value - ts[from - 1].value
    ensures AllNum(times, from, end)
    decreases end - from
  {
    if from < end {
      BlockTimesTelescope(ts, times, from, end - 1);
    }
  }

  /** A rolling sum of block times is the time from the row before the window to its last, once it has one. */
  lemma RollingBlockTime(ts: seq<Cell>, times: seq<Cell>, w: nat, n: nat)
    requires AllNum(ts, 0, |ts|) && times == BlockTimes(ts) && w >= 1 && n < |ts|
    ensures Rolling(times, w, n) == if n >= w + 1 then Num(ts[n].value - ts[n - w].value) else NaN
  {
    if n >= w + 1 {
      BlockTimesTelescope(ts, times, n + 1 - w, n + 1);
    } else if n + 1 >= w {
      assert times[n + 1 - w] == NaN;
    }
  }

  /** The field's total over the window, divided by the time from the row before the window to its last. */
  function Telescoped(xs: seq<Cell>, ts: seq<Cell>, w: nat, n: nat): Cell
    requires |xs| == |ts| && n < |ts| && Increasing(ts) && w >= 1
  {
    if n >= w + 1 then Num(Sum(xs, n + 1 - w, n + 1) / (ts[n].value - ts[n - w].value)) else NaN
  }

  /** Over any timestamps: no time between the two rows makes the rate infinite, or NaN without a total. */
  lemma RateOfAnyTimes(xs: seq<Cell>, ts: seq<Cell>, w: nat, n: nat)
    requires AllNum(ts, 0, |ts|) && |xs| == |ts| >= 2 && AllNum(xs, 0, |xs|) && w >= 1 && n < |ts|
    ensures
      var rate := Rates(xs, BlockTimes(ts), w)[n];
      if n < w + 1 then rate == NaN
      else
        var total, time := Sum(xs, n + 1 - w, n + 1), ts[n].value - ts[n - w].value;
        if time != 0.0 then rate == Num(total / time)
        else rate == if total == 0.0 then NaN else Inf(total > 0.0)
  {
    RollingBlockTime(ts, BlockTimes(ts), w, n);
  }

  /** The window-w rate of row n is defined exactly from row w + 1 on, and it telescopes. */
  lemma RateTelescopes(xs: seq<Cell>, ts: seq<Cell>, w: nat, n: nat)
    requires Increasing(ts) && |xs| == |ts| >= 2 && AllNum(xs, 0, |xs|) && w >= 1 && n < |ts|
    ensures
      var rate := Rates(xs, BlockTimes(ts), w)[n];
      rate == Telescoped(xs, ts, w, n) && (rate.Num? <==> n >= w + 1)
  {
    RollingBlockTime(ts, BlockTimes(ts), w, n);
  }

  lemma {:induction false} SumBetween(xs: seq<Cell>, times: seq<Cell>, from: nat, end: nat, lo: real, hi: real)
    requires from <= end <= |xs| == |times| && AllNum(xs, from, end) && AllNum(times, from, end)
    requires forall k :: from <= k < end ==> times[k].value > 0.0 && lo <= xs[k].value / times[k].value <= hi
    ensures lo * Sum(times, from, end) <= Sum(xs, from, end) <= hi * Sum(times, from, end)
    ensures from < end ==> Sum(times, from, end) > 0.0
    decreases end - from
  {
    if from < end {
      SumBetween(xs, times, from, end - 1, lo, hi);
      var x, t, s := xs[end - 1].value, times[end - 1].value, Sum(times, from, end - 1);
      QuotientBounds(x, t, lo, hi);
      assert lo * (s + t) == lo * s + lo * t && hi * (s + t) == hi * s + hi * t;
    }
  }

  lemma MeanBetween(xs: seq<Cell>, times: seq<Cell>, from: nat, end: nat, lo: real, hi: real)
    requires from < end <= |xs| == |times| && AllNum(xs, from, end) && AllNum(times, from, end)
    requires forall k :: from <= k < end ==> times[k].value > 0.0 && lo <= xs[k].value / times[k].value <= hi
    ensures Sum(times, from, end) > 0.0 && lo <= Sum(xs, from, end) / Sum(times, from, end) <= hi
  {
    SumBetween(xs, times, from, end, lo, hi);
    QuotientBounds(Sum(xs, from, end), Sum(times, from, end), lo, hi);
  }

  lemma QuotientBounds(x: real, t: real, lo: real, hi: real)
    requires t > 0.0
    ensures lo <= x / t <= hi <==> lo * t <= x <= hi * t
  {
    var q := x / t;
    assert q * t == x;
    if lo <= q { assert lo * t <= q * t; } else { assert lo * t > q * t; }
    if q <= hi { assert q * t <= hi * t; } else { assert q * t > hi * t; }
  }

  /** The single-block rates of the rows from..end lie between lo and hi. */
  predicate SinglesWithin(xs: seq<Cell>, ts: seq<Cell>, from: nat, end: nat, lo: real, hi: real)
    requires |xs| == |ts| && end <= |ts|
  {
    forall k :: from <= k < end ==>
      var single := Rates(xs, BlockTimes(ts), 1)[k]; single.Num? && lo <= single.value <= hi
  }

  /** A windowed rate lies between the least and the greatest of the single-block rates in its window. */
  lemma RateBetweenExtremes(xs: seq<Cell>, ts: seq<Cell>, w: nat, n: nat, lo: real, hi: real)
    requires Increasing(ts) && |xs| == |ts| >= 2 && AllNum(xs, 0, |xs|) && w >= 1 && w + 1 <= n < |ts|
    requires SinglesWithin(xs, ts, n + 1 - w, n + 1, lo, hi)
    ensures var rate := Rates(xs, BlockTimes(ts), w)[n]; rate.Num? && lo <= rate.value <= hi
  {
    RateTelescopes(xs, ts, w, n);
    TelescopedBetween(xs, ts, w, n, lo, hi);
  }

  lemma TelescopedBetween(xs: seq<Cell>, ts: seq<Cell>, w: nat, n: nat, lo: real, hi: real)
    requires Increasing(ts) && |xs| == |ts| >= 2 && AllNum(xs, 0, |xs|) && w >= 1 && w + 1 <= n < |ts|
    requires SinglesWithin(xs, ts, n + 1 - w, n + 1, lo, hi)
    ensures lo <= Telescoped(xs, ts, w, n).value <= hi
  {
    var times, from, end := BlockTimes(ts), n + 1 - w, n + 1;
    QuotientsWithin(xs, ts, from, end, lo, hi);
    BlockTimesTelescope(ts, times, from, end);
    MeanBetween(xs, times, from, end, lo, hi);
    assert Sum(times, from, end) == ts[n].value - ts[n - w].value;
  }

  lemma QuotientsWithin(xs: seq<Cell>, ts: seq<Cell>, from: nat, end: nat, lo: real, hi: real)
    requires Increasing(ts) && |xs| == |ts| && AllNum(xs, 0, |xs|) && 2 <= from <= end <= |ts|
    requires SinglesWithin(xs, ts, from, end, lo, hi)
    ensures AllNum(BlockTimes(ts), from, end)
    ensures forall k :: from <= k < end ==>
      BlockTimes(ts)[k].value > 0.0 && lo <= xs[k].value / BlockTimes(ts)[k].value <= hi
  {
    forall k | from <= k < end
      ensures BlockTimes(ts)[k].Num? && BlockTimes(ts)[k].value > 0.0
      ensures xs[k].Num? && lo <= xs[k].value / BlockTimes(ts)[k].value <= hi
    {
      SingleRate(xs, ts, k);
    }
  }

  lemma SingleRate(xs: seq<Cell>, ts: seq<Cell>, k: nat)
    requires Increasing(ts) && |xs| == |ts| && AllNum(xs, 0, |xs|) && 2 <= k < |ts|
    ensures
      var times := BlockTimes(ts);
      && times[k].Num? && times[k].value > 0.0 && xs[k].Num?
      && Rates(xs, times, 1)[k] == Num(xs[k].value / times[k].value)
  {
    RateTelescopes(xs, ts, 1, k);
    assert Sum(xs, k, k) == 0.0;
  }

  /** Dividing the timestamps by a time scale multiplies every defined rate by it, and defines no other. */
  lemma RateScales(xs: seq<Cell>, ts: seq<Cell>, w: nat, n: nat, c: real)
    requires Increasing(ts) && |xs| == |ts| >= 2 && AllNum(xs, 0, |xs|) && w >= 1 && n < |ts| && c > 0.0
    ensures
      var rate := Rates(xs, BlockTimes(ts), w)[n];
      Rates(xs, BlockTimes(Scaled(ts, Some(c))), w)[n] == if rate.Num? then Num(c * rate.value) else NaN
  {
    ScalingKeepsOrder(ts, c);
    TelescopedScales(xs, ts, w, n, c);
    RatesScale(xs, ts, Scaled(ts, Some(c)), w, n, c);
  }

  lemma RatesScale(xs: seq<Cell>, ts: seq<Cell>, ts': seq<Cell>, w: nat, n: nat, c: real)
    requires Increasing(ts) && Increasing(ts') && |xs| == |ts| == |ts'| >= 2 && AllNum(xs, 0, |xs|)
    requires w >= 1 && n < |ts|
    requires Telescoped(xs, ts', w, n) == if n >= w + 1 then Num(c * Telescoped(xs, ts, w, n).value) else NaN
    ensures
      var rate := Rates(xs, BlockTimes(ts), w)[n];
      Rates(xs, BlockTimes(ts'), w)[n] == if rate.Num? then Num(c * rate.value) else NaN
  {
    RateTelescopes(xs, ts, w, n);
    RateTelescopes(xs, ts', w, n);
  }

  lemma TelescopedScales(xs: seq<Cell>, ts: seq<Cell>, w: nat, n: nat, c: real)
    requires Increasing(ts) && Increasing(Scaled(ts, Some(c))) && |xs| == |ts| && w >= 1 && n < |ts| && c > 0.0
    ensures Telescoped(xs, Scaled(ts, Some(c)), w, n)
      == if n >= w + 1 then Num(c * Telescoped(xs, ts, w, n).value) else NaN
  {
    if n >= w + 1 {
      DivideDistributes(ts[n].value, ts[n - w].value, c);
      ScaleQuotient(Sum(xs, n + 1 - w, n + 1), ts[n].value - ts[n - w].value, c);
    }
  }

  lemma ScalingKeepsOrder(ts: seq<Cell>, c: real)
    requires Increasing(ts) && c > 0.0
    ensures Increasing(Scaled(ts, Some(c)))
  {
    forall i, j | 0 <= i < j < |ts|
      ensures ts[i].value / c < ts[j].value / c
    {
      DivideMonotone(ts[i].value, ts[j].value, c);
    }
  }

  lemma DivideMonotone(a: real, b: real, c: real)
    requires a < b && c > 0.0
    ensures a / c < b / c
  {
    var x, y := a / c, b / c;
    assert x * c == a && y * c == b;
    assert (y - x) * c > 0.0;
  }

  lemma DivideDistributes(a: real, b: real, c: real)
    requires c > 0.0
    ensures a / c - b / c == (a - b) / c
  {
  }

  lemma ScaleQuotient(s: real, d: real, c: real)
    requires d > 0.0 && c > 0.0
    ensures d / c > 0.0 && s / (d / c) == c * (s / d)
  {
    var e := d / c;
    assert e * c == d;
    var q := s / d;
    assert q * d == s;
    assert (c * q) * e == q * (e * c) == s;
    assert s / e == c * q;
  }
}
