/**
The transaction target (go/bbeth/collect/configtx.go) and the split of that target into threads, batches
and accounts (go/bbeth/load/load.go).
*/
module ConfigTx {
  import Prelude

  class ConfigTransactions {
    var threads: int
    var threadAccounts: int
    var numTransactions: int

    constructor (threads: int, threadAccounts: int, numTransactions: int)
      ensures this.threads == threads && this.threadAccounts == threadAccounts
      ensures this.numTransactions == numTransactions
    {
      this.threads, this.threadAccounts, this.numTransactions := threads, threadAccounts, numTransactions;
    }

    /** Rounds the target toward zero to a multiple of threads * threadAccounts and returns what it took away. */
    method TruncateTargetTransactions() returns (delta: int)
      requires threads * threadAccounts != 0 // Go panics on a zero divisor
      modifies this`numTransactions
      ensures numTransactions == Truncated(old(numTransactions), threads * threadAccounts)
      ensures numTransactions + delta == old(numTransactions)
      ensures old(numTransactions) >= 0 && threads * threadAccounts > 0 ==> 0 <= delta < threads * threadAccounts
    {
      var x := threads * threadAccounts;
      var y := Prelude.GoMod(numTransactions, x);
      if y == 0 {
        return 0;
      }
      RemainderIsNotDivisor(numTransactions, x);
      var n;
      if x == y {
        n, y := x, 0;
      } else {
        n := numTransactions - y;
      }
      delta := numTransactions - n;
      numTransactions := n;
    }

    /** The command and then NewLoader both truncate the same configuration: the second call finds nothing to do. */
    method TruncateByCommandAndLoader() returns (first: int, second: int)
      requires threads * threadAccounts != 0
      modifies this`numTransactions
      ensures second == 0
      ensures numTransactions == Truncated(old(numTransactions), threads * threadAccounts)
      ensures first == old(numTransactions) - numTransactions
    {
      first := TruncateTargetTransactions();
      TruncationIsIdempotent(old(numTransactions), threads * threadAccounts);
      second := TruncateTargetTransactions();
    }
  }

  /** The target after truncation. */
  function Truncated(n: int, x: int): int
    requires x != 0
  {
    n - Prelude.GoMod(n, x)
  }

  /** The guard of the small-target branch never holds: a remainder is never the divisor. */
  lemma RemainderIsNotDivisor(n: int, x: int)
    requires x != 0
    ensures Prelude.GoMod(n, x) != x
  {
  }

  /** For a target that is not negative, truncation gives the greatest multiple of x that is not above it. */
  lemma TruncatedIsGreatestMultiple(n: nat, x: int, q: int)
    requires x > 0
    ensures 0 <= Truncated(n, x) <= n
    ensures Truncated(n, x) == x * (n / x)
    ensures x * q <= n ==> x * q <= Truncated(n, x)
  {
    DivisionSplits(n, x);
    if x * q <= n {
      NoMultipleBetween(x, n / x, n % x, q);
    }
  }

  lemma DivisionSplits(n: nat, x: int)
    requires x > 0
    ensures n == x * (n / x) + n % x && 0 <= n % x <= n
  {
  }

  lemma NoMultipleBetween(x: int, d: int, r: int, q: int)
    requires 0 <= r < x && x * q <= x * d + r
    ensures x * q <= x * d
  {
    assert x * (d + 1) == x * d + x;
    if q > d {
      MulMono(x, d + 1, q);
    } else {
      MulMono(x, q, d);
    }
  }

  lemma MulMono(x: int, a: int, b: int)
    requires x >= 0 && a <= b
    ensures x * a <= x * b
  {
  }

  lemma MultipleHasNoRemainder(x: int, q: nat)
    requires x > 0
    ensures (x * q) % x == 0 && (x * q) / x == q
  {
    QuotientIsUnique(x, q, x * q, 0);
  }

  lemma QuotientIsUnique(x: int, q: int, n: int, r: int)
    requires x > 0 && n == x * q + r && 0 <= r < x
    ensures n / x == q && n % x == r
  {
    var d := n / x;
    assert n == x * d + n % x;
    assert x * (q - d) == n % x - r;
    if q > d {
      MulMono(x, 1, q - d);
    } else if q < d {
      MulMono(x, q - d, -1);
    }
  }

  lemma QuotientOfNext(n: nat, x: int)
    requires x > 0
    ensures (n + 1) % x == if n % x + 1 == x then 0 else n % x + 1
    ensures (n + 1) / x == if n % x + 1 == x then n / x + 1 else n / x
  {
    var d, m := n / x, n % x;
    assert n == x * d + m;
    if m + 1 == x {
      assert n + 1 == x * (d + 1);
      QuotientIsUnique(x, d + 1, n + 1, 0);
    } else {
      QuotientIsUnique(x, d, n + 1, m + 1);
    }
  }

  lemma TruncationIsIdempotent(n: int, x: int)
    requires x != 0
    ensures Truncated(Truncated(n, x), x) == Truncated(n, x)
  {
    var a := if x < 0 then -x else x;
    var p := if n < 0 then -n else n;
    assert p % x == p % a;
    TruncatedIsGreatestMultiple(p, a, 0);
    MultipleHasNoRemainder(a, p / a);
    assert Truncated(n, x) == if n < 0 then -Truncated(p, a) else Truncated(p, a);
    assert Truncated(p, a) % x == Truncated(p, a) % a == 0;
  }

  /**
  The comment on the field promises at least one transaction per account. The code keeps that promise exactly
  when the requested target already reaches threads * accounts; every smaller target becomes 0.
  */
  lemma MinimumPromiseKeptExactlyWhen(n: nat, x: int)
    requires x > 0
    ensures Truncated(n, x) >= x <==> n >= x
    ensures n < x ==> Truncated(n, x) == 0
  {
    TruncatedIsGreatestMultiple(n, x, 1);
  }

  /** With the default 12 threads of 6 accounts, asking for 50 transactions issues none. */
  lemma MinimumPromiseBroken()
    ensures Truncated(50, 12 * 6) == 0
  {
  }

  /** numBatches of the adder, for a configured target. */
  function NumBatches(target: int, threads: int, accounts: int): int
    requires threads * accounts != 0
  {
    Prelude.GoDiv(target, threads * accounts)
  }

  /**
  After truncation the run comes out even: with B batches, every account is given B attempts, every thread
  target / threads, and the whole grid is the target.
  */
  lemma TruncatedTargetSplitsEvenly(n: nat, threads: int, accounts: int)
    requires threads > 0 && accounts > 0
    ensures
      var x := threads * accounts;
      var target := Truncated(n, x);
      var b := NumBatches(target, threads, accounts);
      && x > 0 && b >= 0
      && threads * (b * accounts) == target
      && target % threads == 0 && target / threads == b * accounts
      && target / x == b
  {
    var x := threads * accounts;
    assert x > 0;
    TruncatedIsGreatestMultiple(n, x, 0);
    var b := n / x;
    MultipleHasNoRemainder(x, b);
    assert x * b == threads * (accounts * b);
    assert accounts * b >= 0;
    MultipleHasNoRemainder(threads, accounts * b);
  }
}
