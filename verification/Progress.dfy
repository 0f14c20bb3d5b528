/** The issued and mined counters shared by the adders and the collector (go/bbeth/client/progress.go). */
module Progress {
  /** The completion rule: a target of -1 means there is none. */
  predicate Reached(expected: int, mined: int) {
    expected != -1 && mined >= expected
  }

  class TransactionProgress {
    const numExpected: int
    var numMined: int
    // The progress bars; a disabled bar neither counts nor reports.
    const issuedBar: bool
    const minedBar: bool
    var issued: int
    var mined: int

    constructor (numExpected: int, issuedBar: bool, minedBar: bool)
      ensures this.numExpected == numExpected && this.issuedBar == issuedBar && this.minedBar == minedBar
      ensures numMined == issued == mined == 0
    {
      this.numExpected, this.issuedBar, this.minedBar := numExpected, issuedBar, minedBar;
      numMined, issued, mined := 0, 0, 0;
    }

    /** Counts ntx mined transactions, whether or not the bars are on, and tells whether the target is reached. */
    method MinedComplete(ntx: int) returns (complete: bool)
      modifies this`numMined, this`mined
      ensures numMined == old(numMined) + ntx
      ensures complete <==> Reached(numExpected, numMined)
      ensures mined == if !minedBar then old(mined) else if complete then numExpected else old(mined) + ntx
    {
      numMined := numMined + ntx;
      MinedIncrBy(ntx);
      if numMined < numExpected || numExpected == -1 {
        return false;
      }
      SetTotalMined(numExpected);
      return true;
    }

    method IssuedIncrement()
      modifies this`issued
      ensures issued == if issuedBar then old(issued) + 1 else old(issued)
    {
      if !issuedBar {
        return;
      }
      issued := issued + 1;
    }

    method MinedIncrBy(n: int)
      modifies this`mined
      ensures mined == if minedBar then old(mined) + n else old(mined)
    {
      if !minedBar {
        return;
      }
      mined := mined + n;
    }

    /** Completing a bar moves it to its total. */
    method SetTotalMined(total: int)
      modifies this`mined
      ensures mined == if minedBar then total else old(mined)
    {
      if !minedBar {
        return;
      }
      mined := total;
    }

    method CurrentMined() returns (n: int)
      ensures n == if minedBar then mined else -1
    {
      if !minedBar {
        return -1;
      }
      return mined;
    }
  }
}
