/**
The code of one adder goroutine (go/bbeth/load/load.go) and the accounts it owns
(go/bbeth/client/accountset.go), tied to the transition system's grid.
*/
module AdderCode {
  import opened Prelude
  import Progress
  import ConfigTx
  import opened LoadModel
  import opened LoadInvariants
  import LoadGrid

  /** The nonces of the transactors of one thread; None is left for the node to fill in. */
  class AccountSet {
    const nonce: array<Option<nat>>

    constructor (n: nat)
      ensures nonce.Length == n && fresh(nonce) && forall i :: 0 <= i < n ==> nonce[i] == None
    {
      nonce := new Option<nat>[n](_ => None);
    }

    /**
    With managed nonces each account starts from what the node reports as pending; the first failing request is
    returned as the error, with no usable set.
    */
    method FillNonces(manageNonce: bool, pendingNonceAt: int -> Reply<nat>) returns (ok: bool)
      modifies nonce
      ensures ok <==> !manageNonce || forall i :: 0 <= i < nonce.Length ==> pendingNonceAt(i).Ok?
      ensures ok ==> forall i :: 0 <= i < nonce.Length ==>
        nonce[i] == if manageNonce then Some(pendingNonceAt(i).value) else old(nonce[i])
    {
      for i := 0 to nonce.Length
        invariant manageNonce ==> forall j :: 0 <= j < i ==>
          pendingNonceAt(j).Ok? && nonce[j] == Some(pendingNonceAt(j).value)
        invariant forall j :: i <= j < nonce.Length ==> nonce[j] == old(nonce[j])
        invariant !manageNonce ==> forall j :: 0 <= j < nonce.Length ==> nonce[j] == old(nonce[j])
      {
        if !manageNonce {
          continue;
        }
        var reply := pendingNonceAt(i);
        if reply.Err? {
          return false;
        }
        nonce[i] := Some(reply.value);
      }
      ok := true;
    }

    /** Go panics on an index out of range, and on a nonce that was never set. */
    method IncNonce(i: nat)
      requires i < nonce.Length && nonce[i].Some?
      modifies nonce
      ensures nonce[..] == old(nonce[..])[i := Some(old(nonce[i]).value + 1)]
    {
      nonce[i] := Some(nonce[i].value + 1);
    }
  }

  /** A call of Transact: where the adder stood, and the nonce it passed. */
  datatype Sent = Sent(batch: nat, index: nat, nonce: Option<nat>)

  /** Where an adder stands after k attempts: k steps of the loop increments of the transition system. */
  function PointAfter(accounts: nat, k: nat): Adder {
    if k == 0 then Adder(0, 0, Waiting) else NextPoint(accounts, PointAfter(accounts, k - 1))
  }

  /** How many of the first k calls were made for account i and succeeded. */
  function Wins(outcome: nat -> bool, accounts: nat, i: nat, k: nat): nat {
    if k == 0 then 0
    else Wins(outcome, accounts, i, k - 1) + if PointAfter(accounts, k - 1).index == i && outcome(k - 1) then 1 else 0
  }

  function AllWins(outcome: nat -> bool, k: nat): nat {
    if k == 0 then 0 else AllWins(outcome, k - 1) + if outcome(k - 1) then 1 else 0
  }

  function Advanced(nonce: Option<nat>, wins: nat): Option<nat> {
    match nonce case None => None case Some(n) => Some(n + wins)
  }

  /**
  The nested loops of an adder, against the outcome of each of its calls in turn. The calls walk the grid in
  order, every point once and whatever fails; a call carries the initial nonce of its account moved on by the
  successes before it; only successes are counted as issued.
  */
  method Run(accounts: AccountSet, pb: Progress.TransactionProgress, numBatches: int, manageNonce: bool,
             outcome: nat -> bool)
    returns (calls: seq<Sent>)
    requires accounts.nonce.Length > 0
    requires manageNonce ==> forall i :: 0 <= i < accounts.nonce.Length ==> accounts.nonce[i].Some?
    modifies accounts.nonce, pb`issued
    ensures |calls| == if numBatches > 0 then numBatches * accounts.nonce.Length else 0
    ensures forall k :: 0 <= k < |calls| ==>
      IsCall(old(accounts.nonce[..]), manageNonce, outcome, numBatches, k, calls[k])
    ensures forall i :: 0 <= i < accounts.nonce.Length ==>
      accounts.nonce[i] == Advanced(old(accounts.nonce[i]),
        if manageNonce then Wins(outcome, accounts.nonce.Length, i, |calls|) else 0)
    ensures pb.issued == old(pb.issued) + if pb.issuedBar then AllWins(outcome, |calls|) else 0
  {
    ghost var nonce0 := accounts.nonce[..];
    var n := accounts.nonce.Length;
    calls := [];
    var r := 0;
    while r < numBatches
      invariant 0 <= r && (numBatches >= 0 ==> r <= numBatches) && (numBatches < 0 ==> r == 0)
      invariant |calls| == r * n && PointAfter(n, |calls|) == Adder(r, 0, Waiting)
      invariant Walked(nonce0, manageNonce, outcome, numBatches, calls, accounts.nonce[..])
      invariant pb.issued == old(pb.issued) + if pb.issuedBar then AllWins(outcome, |calls|) else 0
    {
      var i := 0;
      while i < n
        invariant 0 <= i <= n
        invariant |calls| == r * n + i
        invariant PointAfter(n, |calls|) == if i < n then Adder(r, i, Waiting) else Adder(r + 1, 0, Waiting)
        invariant Walked(nonce0, manageNonce, outcome, numBatches, calls, accounts.nonce[..])
        invariant pb.issued == old(pb.issued) + if pb.issuedBar then AllWins(outcome, |calls|) else 0
      {
        ghost var before, made := accounts.nonce[..], calls;
        calls := calls + [Sent(r, i, accounts.nonce[i])];
        Settle(accounts, pb, i, manageNonce, outcome(|calls| - 1));
        WalkExtends(nonce0, manageNonce, outcome, numBatches, made, before, calls, accounts.nonce[..]);
        i := i + 1;
      }
      r := r + 1;
      assert r * n == (r - 1) * n + n;
    }
  }

  /** What the adder does once a call for account i has returned: a failure is skipped, without a retry. */
  method Settle(accounts: AccountSet, pb: Progress.TransactionProgress, i: nat, manageNonce: bool, ok: bool)
    requires i < accounts.nonce.Length && (manageNonce ==> accounts.nonce[i].Some?)
    modifies accounts.nonce, pb`issued
    ensures accounts.nonce[..] == if ok && manageNonce
      then old(accounts.nonce[..])[i := Some(old(accounts.nonce[i]).value + 1)] else old(accounts.nonce[..])
    ensures pb.issued == old(pb.issued) + if ok && pb.issuedBar then 1 else 0
  {
    if !ok {
      return;
    }
    pb.IssuedIncrement();
    if manageNonce {
      accounts.IncNonce(i);
    }
  }

  /** The nonce call k carries. */
  function CallNonceAfter(nonce0: seq<Option<nat>>, manageNonce: bool, outcome: nat -> bool, k: nat): Option<nat> {
    var i := PointAfter(|nonce0|, k).index;
    if i >= |nonce0| then None
    else Advanced(nonce0[i], if manageNonce then Wins(outcome, |nonce0|, i, k) else 0)
  }

  /** The calls made so far are the first of the walk, and the nonces stand where they leave them. */
  ghost predicate Walked(nonce0: seq<Option<nat>>, manageNonce: bool, outcome: nat -> bool, numBatches: int,
                         calls: seq<Sent>, nonces: seq<Option<nat>>)
  {
    var n := |nonce0|;
    && |nonces| == n
    && (manageNonce ==> forall i :: 0 <= i < n ==> nonce0[i].Some?)
    && (forall i :: 0 <= i < n ==>
          nonces[i] == Advanced(nonce0[i], if manageNonce then Wins(outcome, n, i, |calls|) else 0))
    && (forall k :: 0 <= k < |calls| ==> IsCall(nonce0, manageNonce, outcome, numBatches, k, calls[k]))
  }

  /** What call k is. */
  predicate IsCall(nonce0: seq<Option<nat>>, manageNonce: bool, outcome: nat -> bool, numBatches: int,
                    k: nat, call: Sent) {
    var p := PointAfter(|nonce0|, k);
    && p.index < |nonce0| && p.batch < numBatches
    && call == Sent(p.batch, p.index, CallNonceAfter(nonce0, manageNonce, outcome, k))
  }

  lemma WalkExtends(nonce0: seq<Option<nat>>, manageNonce: bool, outcome: nat -> bool, numBatches: int,
                    calls: seq<Sent>, nonces: seq<Option<nat>>, calls': seq<Sent>, nonces': seq<Option<nat>>)
    requires Walked(nonce0, manageNonce, outcome, numBatches, calls, nonces)
    requires
      var k := |calls|;
      var p := PointAfter(|nonce0|, k);
      && p.index < |nonces| && p.batch < numBatches
      && calls' == calls + [Sent(p.batch, p.index, nonces[p.index])]
      && nonces' == if outcome(k) && manageNonce && nonces[p.index].Some?
                    then nonces[p.index := Some(nonces[p.index].value + 1)] else nonces
    ensures Walked(nonce0, manageNonce, outcome, numBatches, calls', nonces')
  {
    CallsExtend(nonce0, manageNonce, outcome, numBatches, calls, calls');
    forall i | 0 <= i < |nonce0|
      ensures nonces'[i] == Advanced(nonce0[i], if manageNonce then Wins(outcome, |nonce0|, i, |calls'|) else 0)
    {
      var at := PointAfter(|nonce0|, |calls|).index;
      NonceExtends(nonce0[i], manageNonce, outcome, |nonce0|, i, |calls|);
      assert nonces'[i] == if i == at && outcome(|calls|) && manageNonce then Some(nonces[i].value + 1) else nonces[i];
    }
  }

  lemma NonceExtends(first: Option<nat>, manageNonce: bool, outcome: nat -> bool, accounts: nat, i: nat, k: nat)
    requires manageNonce ==> first.Some?
    ensures
      var before := Advanced(first, if manageNonce then Wins(outcome, accounts, i, k) else 0);
      var after := Advanced(first, if manageNonce then Wins(outcome, accounts, i, k + 1) else 0);
      var won := i == PointAfter(accounts, k).index && outcome(k) && manageNonce;
      after == if won then Some(before.value + 1) else before
  {
  }

  lemma CallsExtend(nonce0: seq<Option<nat>>, manageNonce: bool, outcome: nat -> bool, numBatches: int,
                    calls: seq<Sent>, calls': seq<Sent>)
    requires |calls'| == |calls| + 1 && calls'[..|calls|] == calls
    requires forall k :: 0 <= k < |calls| ==> IsCall(nonce0, manageNonce, outcome, numBatches, k, calls[k])
    requires IsCall(nonce0, manageNonce, outcome, numBatches, |calls|, calls'[|calls|])
    ensures forall k :: 0 <= k < |calls'| ==> IsCall(nonce0, manageNonce, outcome, numBatches, k, calls'[k])
  {
    forall k | 0 <= k < |calls'|
      ensures IsCall(nonce0, manageNonce, outcome, numBatches, k, calls'[k])
    {
      if k < |calls| {
        assert calls'[k] == calls[k];
      }
    }
  }

  /** The walk in closed form: call k of a thread is for account k mod accounts, in batch k / accounts. */
  lemma {:induction false} PointAfterIs(accounts: nat, k: nat)
    requires accounts > 0
    ensures PointAfter(accounts, k) == Adder(k / accounts, k % accounts, Waiting)
    decreases k
  {
    if k > 0 {
      PointAfterIs(accounts, k - 1);
      ConfigTx.QuotientOfNext(k - 1, accounts);
    }
  }

  // ---- The adders of the transition system run this code ----

  /** What the calls of thread t gave, in the order they returned. */
  function Outcomes(steps: seq<Step>, t: nat): seq<bool> {
    if steps == [] then [] else OutcomeOf(steps[0], t) + Outcomes(steps[1..], t)
  }

  function OutcomeOf(step: Step, t: nat): seq<bool> {
    if step.Return? && step.t == t then [step.ok] else []
  }

  /** How often thread t has incremented the issued counter. */
  function Issued(steps: seq<Step>, t: nat): nat {
    if steps == [] then 0 else IssuedOf(steps[0], t) + Issued(steps[1..], t)
  }

  function IssuedOf(step: Step, t: nat): nat {
    if step == Count(t) then 1 else 0
  }

  function AsOutcome(o: seq<bool>): nat -> bool {
    (k: nat) => k < |o| && o[k]
  }

  /** A call that succeeded, and whose grid point the adder has not left yet. */
  function Open(a: Adder): nat {
    if a.phase.Returned? || a.phase.Counted? then 1 else 0
  }

  /**
  After calls with the outcomes o, thread t is where its code is: position, successes per account, issued counter.
  */
  ghost predicate Follows(c: Config, s: State, t: nat, o: seq<bool>, issued: nat) {
    && t < |s.adders| && |o| >= Open(s.adders[t])
    && s.adders[t].(phase := Waiting) == PointAfter(c.accounts, |o| - Open(s.adders[t]))
    && (forall i :: 0 <= i < c.accounts ==> WonBy(c, s, t, o, i))
    && AllWins(AsOutcome(o), |o|) == issued + if s.adders[t].phase.Returned? then 1 else 0
  }

  predicate WonBy(c: Config, s: State, t: nat, o: seq<bool>, i: nat) {
    Acct(t, i) in s.client.wins && s.client.wins[Acct(t, i)] == Wins(AsOutcome(o), c.accounts, i, |o|)
  }

  lemma {:induction false} WinsOfPrefix(o: seq<bool>, ok: bool, accounts: nat, i: nat, k: nat)
    requires k <= |o|
    ensures Wins(AsOutcome(o + [ok]), accounts, i, k) == Wins(AsOutcome(o), accounts, i, k)
    ensures AllWins(AsOutcome(o + [ok]), k) == AllWins(AsOutcome(o), k)
    decreases k
  {
    if k > 0 {
      WinsOfPrefix(o, ok, accounts, i, k - 1);
    }
  }

  lemma FollowsStep(c: Config, s: State, step: Step, t: nat, o: seq<bool>, issued: nat)
    requires c.Valid() && Enabled(c, s, step) && Follows(c, s, t, o, issued)
    requires s.main.GoAdder? && s.main.i < |s.adders| ==> s.adders[s.main.i].phase.Idle?
    ensures Follows(c, Apply(c, s, step), t, o + OutcomeOf(step, t), issued + IssuedOf(step, t))
  {
    if step.Return? && step.t == t {
      FollowsReturn(c, s, t, step.ok, o, issued);
    } else {
      assert o + [] == o;
      forall i | 0 <= i < c.accounts
        ensures WonBy(c, Apply(c, s, step), t, o, i)
      {
        assert WonBy(c, s, t, o, i);
      }
    }
  }

  lemma FollowsReturn(c: Config, s: State, t: nat, ok: bool, o: seq<bool>, issued: nat)
    requires c.Valid() && Enabled(c, s, Return(t, ok)) && Follows(c, s, t, o, issued)
    ensures Follows(c, Apply(c, s, Return(t, ok)), t, o + [ok], issued)
  {
    forall i | 0 <= i < c.accounts
      ensures WonBy(c, Apply(c, s, Return(t, ok)), t, o + [ok], i)
    {
      assert WonBy(c, s, t, o, i);
      WinsOfPrefix(o, ok, c.accounts, i, |o|);
    }
    WinsOfPrefix(o, ok, c.accounts, 0, |o|);
  }

  lemma FollowsInvariantStep(c: Config, s: State, step: Step, t: nat, o: seq<bool>, issued: nat)
    requires Inv(c, s) && Enabled(c, s, step) && Follows(c, s, t, o, issued)
    ensures Inv(c, Apply(c, s, step))
    ensures Follows(c, Apply(c, s, step), t, o + OutcomeOf(step, t), issued + IssuedOf(step, t))
  {
    StepKeeps(c, s, step);
    FollowsStep(c, s, step, t, o, issued);
  }

  /** What every step keeps, given the outcomes so far, a whole run keeps. */
  lemma {:induction false} AlongTheRun(c: Config, s: State, steps: seq<Step>, s': State, t: nat, o: seq<bool>,
                                       issued: nat, kept: (State, seq<bool>, nat) -> bool)
    requires c.Valid() && Runs(c, s, steps, s') && kept(s, o, issued)
    requires forall x, step, o, n: nat :: kept(x, o, n) && Enabled(c, x, step) ==>
      kept(Apply(c, x, step), o + OutcomeOf(step, t), n + IssuedOf(step, t))
    ensures kept(s', o + Outcomes(steps, t), issued + Issued(steps, t))
    decreases |steps|
  {
    if steps == [] {
      assert o + [] == o;
    } else {
      var first, rest := OutcomeOf(steps[0], t), Outcomes(steps[1..], t);
      AlongTheRun(c, Apply(c, s, steps[0]), steps[1..], s', t, o + first, issued + IssuedOf(steps[0], t), kept);
      assert o + first + rest == o + (first + rest);
    }
  }

  lemma FollowsFromTheStart(c: Config, s0: State, steps: seq<Step>, s: State, t: nat)
    requires Init(c, s0) && Runs(c, s0, steps, s) && t < c.threads
    ensures Inv(c, s) && Follows(c, s, t, Outcomes(steps, t), Issued(steps, t))
  {
    var kept := (x: State, o: seq<bool>, n: nat) => Inv(c, x) && Follows(c, x, t, o, n);
    forall x, step, o, n: nat | kept(x, o, n) && Enabled(c, x, step)
      ensures kept(Apply(c, x, step), o + OutcomeOf(step, t), n + IssuedOf(step, t))
    {
      FollowsInvariantStep(c, x, step, t, o, n);
    }
    InitHolds(c, s0);
    FollowsNothing(c, s0, t);
    AlongTheRun(c, s0, steps, s, t, [], 0, kept);
    assert [] + Outcomes(steps, t) == Outcomes(steps, t);
  }

  lemma FollowsNothing(c: Config, s0: State, t: nat)
    requires Init(c, s0) && t < c.threads
    ensures Follows(c, s0, t, [], 0)
  {
    assert s0.adders[t] == Adder(0, 0, Idle);
    forall i | 0 <= i < c.accounts
      ensures WonBy(c, s0, t, [], i)
    {
      assert IsAcct(c, Acct(t, i));
    }
  }

  lemma FollowsAndManaged(c: Config, s0: State, steps: seq<Step>, s: State, t: nat)
    requires Init(c, s0) && Runs(c, s0, steps, s) && t < c.threads
    ensures Follows(c, s, t, Outcomes(steps, t), Issued(steps, t))
    ensures Chained(c, s.chain) && Managed(c, s) && Standing(c, s.adders[t])
  {
    FollowsFromTheStart(c, s0, steps, s, t);
  }

  /** The initial nonces of a thread, as its code holds them. */
  function Nonces0(c: Config, t: nat): seq<Option<nat>> {
    seq(c.accounts, i requires i >= 0 => Some(c.nonce0(Acct(t, i))))
  }

  /** The attempts whose call has returned. */
  function Returns(c: Config, a: Adder): int {
    LoadGrid.Made(c.accounts)(a) - if a.phase.Calling? then 1 else 0
  }

  /**
  In every run, and at every point of it, each adder is where its code is for the outcomes its calls have had:
  on the same grid point, with the same successes for each account and the same share of the issued counter. With
  managed nonces the client's nonces and the nonce of the call it is in are those of the code, too.
  */
  lemma AdderStandsWhereItsCodeDoes(c: Config, s0: State, steps: seq<Step>, s: State, t: nat)
    requires Init(c, s0) && Runs(c, s0, steps, s) && t < c.threads
    ensures t < |s.adders|
    ensures
      var a, o := s.adders[t], Outcomes(steps, t);
      && |o| == Returns(c, a) >= Open(a)
      && a.(phase := Waiting) == PointAfter(c.accounts, |o| - Open(a))
      && AllWins(AsOutcome(o), |o|) == Issued(steps, t) + if a.phase.Returned? then 1 else 0
    ensures forall i :: 0 <= i < c.accounts ==> WonBy(c, s, t, Outcomes(steps, t), i)
    ensures c.manageNonce ==> HasCodesNonces(c, s, t, Outcomes(steps, t))
  {
    FollowsAndManaged(c, s0, steps, s, t);
    FollowsIs(c, s, t, Outcomes(steps, t), Issued(steps, t));
    if c.manageNonce {
      NoncesFollow(c, s, t, Outcomes(steps, t), Issued(steps, t));
    }
  }

  lemma FollowsIs(c: Config, s: State, t: nat, o: seq<bool>, issued: nat)
    requires c.Valid() && Follows(c, s, t, o, issued)
    ensures |o| == Returns(c, s.adders[t])
  {
    PointAfterIs(c.accounts, |o| - Open(s.adders[t]));
  }

  /** The client's nonces, and the nonce of the call it is in, are those the code has after calls with outcomes o. */
  ghost predicate HasCodesNonces(c: Config, s: State, t: nat, o: seq<bool>) {
    && t < |s.adders|
    && (forall i :: 0 <= i < c.accounts ==> NonceFollows(c, s, t, o, i))
    && (s.adders[t].phase.Calling? ==>
          Some(s.adders[t].phase.nonce) == CallNonceAfter(Nonces0(c, t), true, AsOutcome(o), |o|))
  }

  predicate NonceFollows(c: Config, s: State, t: nat, o: seq<bool>, i: nat) {
    && Acct(t, i) in s.client.nonce
    && Advanced(Some(c.nonce0(Acct(t, i))), Wins(AsOutcome(o), c.accounts, i, |o|))
       == Some(s.client.nonce[Acct(t, i)] + if MidSuccess(s.adders, Acct(t, i)) then 1 else 0)
  }

  lemma NoncesFollow(c: Config, s: State, t: nat, o: seq<bool>, issued: nat)
    requires Chained(c, s.chain) && Managed(c, s) && c.manageNonce && t < c.threads && Follows(c, s, t, o, issued)
    ensures HasCodesNonces(c, s, t, o)
  {
    forall i | 0 <= i < c.accounts
      ensures NonceFollows(c, s, t, o, i)
    {
      assert WonBy(c, s, t, o, i) && IsAcct(c, Acct(t, i)) && Synced(c, s, Acct(t, i));
    }
    if s.adders[t].phase.Calling? {
      var i := s.adders[t].index;
      assert Acts(c, s, t) && NonceFollows(c, s, t, o, i);
      assert Nonces0(c, t)[i] == Some(c.nonce0(Acct(t, i)));
    }
  }

  /** An adder at the end of its grid has made its calls and moved its nonces as the method does at its end. */
  lemma FinishedAsItsCode(c: Config, s0: State, steps: seq<Step>, s: State, t: nat, i: nat)
    requires Init(c, s0) && Runs(c, s0, steps, s) && t < c.threads && i < c.accounts
    requires c.manageNonce && Standby(s, t, Finished)
    ensures
      var o := Outcomes(steps, t);
      && |o| == c.batches * c.accounts && Issued(steps, t) == AllWins(AsOutcome(o), |o|)
      && Acct(t, i) in s.client.nonce
      && Some(s.client.nonce[Acct(t, i)]) == Advanced(Nonces0(c, t)[i], Wins(AsOutcome(o), c.accounts, i, |o|))
  {
    AdderStandsWhereItsCodeDoes(c, s0, steps, s, t);
    FollowsAndManaged(c, s0, steps, s, t);
    assert NonceFollows(c, s, t, Outcomes(steps, t), i);
    LoadGrid.MadeAtMost(c, s.adders[t]);
  }

  /** In B batches every account of a thread is called exactly B times. */
  lemma {:induction false} EveryAccountOncePerBatch(accounts: nat, i: nat, batches: nat)
    requires i < accounts
    ensures Wins(_ => true, accounts, i, accounts * batches) == batches
    decreases batches
  {
    if batches > 0 {
      EveryAccountOncePerBatch(accounts, i, batches - 1);
      WinsInBatch(accounts, i, batches - 1, accounts * (batches - 1), accounts);
      assert accounts * batches == accounts * (batches - 1) + accounts;
    }
  }

  lemma {:induction false} WinsInBatch(accounts: nat, i: nat, r: nat, base: nat, m: nat)
    requires i < accounts && m <= accounts && base == accounts * r
    ensures Wins(_ => true, accounts, i, base + m) == Wins(_ => true, accounts, i, base) + if i < m then 1 else 0
    decreases m
  {
    if m > 0 {
      WinsInBatch(accounts, i, r, base, m - 1);
      PointAfterIs(accounts, base + m - 1);
      ConfigTx.QuotientIsUnique(accounts, r, base + m - 1, m - 1);
    }
  }
}
