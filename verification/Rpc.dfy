/** The retry loops and their backoff (go/bbeth/client/ethrpc.go). */
module Rpc {
  import opened Prelude

  const BackoffMs: seq<nat> :=
    [0, 500, 500, 1000, 1000, 2000, 2000, 4000, 4000, 10000, 10000, 10000, 10000, 10000, 10000]

  /** The lookup in the table, cut off at its end. */
  method Lookup(nth: nat) returns (ms: nat)
    ensures ms == Base(nth)
  {
    var i := nth;
    if i >= |BackoffMs| {
      i := |BackoffMs| - 1;
    }
    ms := BackoffMs[i];
  }

  /** The base of the backoff after the nth failure: pairs of equal steps, and then 10 seconds for good. */
  function Base(nth: nat): nat {
    if nth == 0 then 0
    else if nth <= 2 then 500
    else if nth <= 4 then 1000
    else if nth <= 6 then 2000
    else if nth <= 8 then 4000
    else 10000
  }

  /** A later failure never waits for less, steps come in pairs that double, and 10 seconds is the most. */
  lemma BaseGrows(nth: nat)
    ensures Base(nth) <= Base(nth + 1) <= 10000
    ensures Base(0) == 0 && Base(1) == 500
    ensures nth < 4 ==> Base(2 * nth + 1) == Base(2 * nth + 2)
    ensures nth < 3 ==> Base(2 * nth + 3) == 2 * Base(2 * nth + 1)
    ensures nth >= 9 ==> Base(nth) == 10000
  {
  }

  /** Half of ms and a random part below ms. */
  function Jitter(ms: nat, draw: nat): nat {
    if ms == 0 then 0 else ms / 2 + draw
  }

  /** The random source: draw(i) is rand.Intn of the base of failure i, asked for only when that is positive. */
  predicate Draws(draw: nat -> nat, k: nat) {
    forall i :: 0 <= i < k && Base(i) > 0 ==> draw(i) < Base(i)
  }

  /** The milliseconds slept over the first k failures. */
  function TotalBackoff(draw: nat -> nat, k: nat): nat {
    if k == 0 then 0 else TotalBackoff(draw, k - 1) + Jitter(Base(k - 1), draw(k - 1))
  }

  /** The least total for k failures. */
  function LeastTotal(k: nat): nat {
    if k == 0 then 0 else LeastTotal(k - 1) + Base(k - 1) / 2
  }

  /** The greatest total for k failures. */
  function GreatestTotal(k: nat): nat {
    if k == 0 then 0 else GreatestTotal(k - 1) + Jitter(Base(k - 1), GreatestDraw(k - 1))
  }

  function GreatestDraw(i: nat): nat {
    if Base(i) == 0 then 0 else Base(i) - 1
  }

  /** The total lies between the two extremes, and both are reached by allowed draws. */
  lemma {:induction false} BackoffBetween(draw: nat -> nat, k: nat)
    requires Draws(draw, k)
    ensures LeastTotal(k) <= TotalBackoff(draw, k) <= GreatestTotal(k)
    ensures Draws(_ => 0, k) && TotalBackoff(_ => 0, k) == LeastTotal(k)
    ensures Draws(GreatestDraw, k) && TotalBackoff(GreatestDraw, k) == GreatestTotal(k)
  {
    if k > 0 {
      BackoffBetween(draw, k - 1);
    }
  }

  /** Past the table the extremes grow linearly. */
  lemma {:induction false} ExtremesPastTable(k: nat)
    requires k >= 15
    ensures LeastTotal(k) == 37500 + 5000 * (k - 15)
    ensures GreatestTotal(k) == 112486 + 14999 * (k - 15)
    decreases k
  {
    if k == 15 {
      ExtremesOfTable();
    } else {
      ExtremesPastTable(k - 1);
      assert Base(k - 1) == 10000;
    }
  }

  lemma ExtremesOfTable()
    ensures LeastTotal(15) == 37500 && GreatestTotal(15) == 112486
  {
    assert LeastTotal(5) == 1500 && GreatestTotal(5) == 4496;
    assert LeastTotal(10) == 12500 && GreatestTotal(10) == 37491;
  }

  /** Over k >= 15 failures, for every outcome of the jitter. */
  lemma BackoffBounds(draw: nat -> nat, k: nat)
    requires k >= 15 && Draws(draw, k)
    ensures 37500 + 5000 * (k - 15) <= TotalBackoff(draw, k) <= 112486 + 14999 * (k - 15)
  {
    BackoffBetween(draw, k);
    ExtremesPastTable(k);
  }

  /** What one call to the node gives: a block, an error, or the error that says the context was cancelled. */
  datatype Answer<+T> = Block(value: T) | Failure(code: int) | Cancelled

  /** NoCall is Go's nil block with a nil error; StillTrying says the script of answers ran out first. */
  datatype Fetch<+T> = Fetched(value: T) | LastError(code: int) | Aborted | NoCall | StillTrying

  /** The answers before the first that is not a plain failure. */
  function Failures<T>(answers: seq<Answer<T>>): (n: nat)
    ensures n <= |answers| && (forall i :: 0 <= i < n ==> answers[i].Failure?) &&
      (n < |answers| ==> !answers[n].Failure?)
  {
    if answers == [] || !answers[0].Failure? then 0 else 1 + Failures(answers[1..])
  }

  /**
  Calls until a block or a cancellation comes, or the retries are used up; 0 means without limit. The answers
  are those the node would give in turn.
  */
  method GetBlockByNumber<T>(retries: int, answers: seq<Answer<T>>, draw: nat -> nat)
    returns (r: Fetch<T>, calls: nat, slept: nat)
    ensures
      var n := Failures(answers);
      var limited := retries != 0 && retries <= n;
      && calls == (if limited then if retries < 0 then 0 else retries else if n < |answers| then n + 1 else n)
      && slept == TotalBackoff(draw, if limited then calls else n)
      && r == (if limited then if calls == 0 then NoCall else LastError(answers[calls - 1].code)
               else if n == |answers| then StillTrying
               else match answers[n] case Block(b) => Fetched(b) case _ => Aborted)
    ensures retries > 0 ==> calls <= retries && !r.NoCall?
  {
    var i := 0;
    slept := 0;
    while retries == 0 || i < retries
      invariant 0 <= i <= Failures(answers) && (retries != 0 ==> i <= if retries < 0 then 0 else retries)
      invariant slept == TotalBackoff(draw, i)
      decreases |answers| - i
    {
      if i == |answers| {
        return StillTrying, i, slept;
      }
      match answers[i] {
        case Block(b) =>
          return Fetched(b), i + 1, slept;
        case Cancelled =>
          return Aborted, i + 1, slept;
        case Failure(_) =>
      }
      var ms := Lookup(i);
      slept := slept + Jitter(ms, draw(i));
      i := i + 1;
    }
    return if i == 0 then NoCall else LastError(answers[i - 1].code), i, slept;
  }

  /** A receipt that is missing, or cannot be had, is asked for again; one that is there settles the matter. */
  method CheckReceipt(retries: int, receipt: nat -> Option<int>, draw: nat -> nat)
    returns (ok: bool, calls: nat, slept: nat)
    ensures calls <= if retries < 0 then 0 else retries
    ensures ok <==> calls > 0 && receipt(calls - 1) == Some(1)
    ensures forall i :: 0 <= i < calls - 1 ==> receipt(i).None?
    ensures calls < retries ==> calls > 0 && receipt(calls - 1).Some?
    ensures slept == TotalBackoff(draw, if calls > 0 && receipt(calls - 1).Some? then calls - 1 else calls)
  {
    var i := 0;
    slept := 0;
    while i < retries
      invariant 0 <= i && (i <= retries || i == 0)
      invariant forall j :: 0 <= j < i ==> receipt(j).None?
      invariant slept == TotalBackoff(draw, i)
    {
      match receipt(i) {
        case None =>
          var ms := Lookup(i);
          slept := slept + Jitter(ms, draw(i));
          i := i + 1;
          continue;
        case Some(status) =>
          if status == 1 {
            return true, i + 1, slept;
          }
          return false, i + 1, slept;
      }
    }
    return false, i, slept;
  }
}
