/**
The load run (go/bbeth/load/load.go) as a transition system: the main goroutine, the adders, the ticker they
share, the chain they send to and the collector that watches it. Every step below is atomic; any interleaving
of steps is a run.
*/
module LoadModel {
  import opened Prelude
  import BlockDB
  import opened Collector

  /** One of the accounts of a thread. Every thread has its own, and their keys are fresh, so they are distinct. */
  datatype Acct = Acct(thread: nat, index: nat)

  /** A signed transaction. Its nonce identifies it among those of its account: the call it makes is always the same. */
  datatype Tx = Tx(acct: Acct, nonce: nat)

  /** A point of the grid the adders walk: one attempt to send. */
  datatype Point = Point(acct: Acct, batch: nat)

  datatype Config = Config(
    threads: nat,
    accounts: nat,       // per thread
    batches: nat,
    period: nat,         // of the ticker, in nanoseconds
    manageNonce: bool,
    nonce0: Acct -> nat, // PendingNonceAt of the fresh account
    collecting: bool,
    startBlock: int,
    stop: Target,
    rows0: map<int, BlockDB.Block>,
    writable: int -> bool)
  {
    predicate Valid() {
      threads > 0 && accounts > 0 && period > 0 && startBlock >= -1
    }

    function Attempts(): nat {
      threads * (batches * accounts)
    }
  }

  /** Where an adder is at the grid point it stands on. */
  datatype AdderPhase =
    | Idle                 // the goroutine does not exist yet
    | Waiting              // at the loop head or receiving from the limiter
    | Holding              // has a tick, has not called Transact
    | Calling(nonce: nat)  // inside Transact, with the nonce it signed
    | Returned             // Transact returned without error
    | Counted              // has incremented the issued counter
    | Finished             // has called wg.Done

  datatype Adder = Adder(batch: nat, index: nat, phase: AdderPhase)

  datatype CollectorPhase = NotStarted | Starting | Polling | Scanning(head: int)

  datatype MainPc = AddCollector | GoCollector | AddAdder(i: nat) | GoAdder(i: nat) | AtWait | AfterWait

  /** A block of the chain: those of its transactions that are ours, and what the node reports about it. */
  datatype ChainBlock = ChainBlock(ours: set<Tx>, header: BlockDB.Block)

  /** Time, ticks fired, the one-slot channel, ticks received. */
  datatype Limiter = Limiter(now: nat, ticks: nat, slot: nat, received: nat)

  /** Calls of Transact that succeeded or failed, and the issued counter of the progress meter. */
  datatype Tally = Tally(oks: nat, failed: nat, issued: nat)

  /** Per account: the nonce the client will use, and the calls that succeeded. */
  datatype Client = Client(nonce: map<Acct, nat>, wins: map<Acct, nat>)

  /**
  Transactions that left a client, those reported as sent, those a node accepted and those not mined yet; the
  nonce the chain expects of each account; and the blocks.
  */
  datatype Chain = Chain(
    sent: set<Tx>, reported: set<Tx>, accepted: set<Tx>, pending: set<Tx>,
    next: map<Acct, nat>, blocks: seq<ChainBlock>)

  /** Where the collector is in its code, how it began and how far it is. */
  datatype Watch = Watch(phase: CollectorPhase, begin: Scan, scan: Scan)

  datatype State = State(
    limiter: Limiter,
    adders: seq<Adder>,
    tried: set<Point>, // the points at which Transact has been called
    tally: Tally,
    client: Client,
    chain: Chain,
    watch: Watch,
    main: MainPc,
    wg: int)

  datatype Step =
    | Clock
    | Main
    | Receive(t: nat)
    | Call(t: nat)
    | Accept(tx: Tx)
    | Return(t: nat, ok: bool)
    | Count(t: nat)
    | Bump(t: nat)
    | Done(t: nat)
    | Mine(txs: set<Tx>, header: BlockDB.Block)
    | Begin(reply: Reply<int>)
    | Poll(poll: Reply<int>)
    | ScanBlock(ok: bool)

  predicate IsAcct(c: Config, a: Acct) {
    a.thread < c.threads && a.index < c.accounts
  }

  /** The blocks as the collector's node serves them. */
  function WorldOf(c: Config, blocks: seq<ChainBlock>): BlockDB.World {
    BlockDB.World(n => if 0 <= n < |blocks| then Ok(blocks[n].header) else Err, c.writable)
  }

  /** The account an adder is at. */
  function At(adders: seq<Adder>, t: nat): Acct
    requires t < |adders|
  {
    Acct(t, adders[t].index)
  }

  /** The loop increments: the next account of the batch, or the first of the next batch. */
  function NextPoint(accounts: nat, a: Adder): Adder {
    if a.index + 1 < accounts then Adder(a.batch, a.index + 1, Waiting) else Adder(a.batch + 1, 0, Waiting)
  }

  function InPhase(adders: seq<Adder>, t: nat, phase: AdderPhase): seq<Adder>
    requires t < |adders|
  {
    adders[t := adders[t].(phase := phase)]
  }

  /** Managed nonces come from the client; otherwise Transact asks the node for the pending nonce. */
  function CallNonce(c: Config, s: State, a: Acct): nat
    requires a in s.client.nonce && a in s.chain.next
  {
    if c.manageNonce then s.client.nonce[a] else s.chain.next[a]
  }

  predicate Standby(s: State, t: nat, phase: AdderPhase) {
    t < |s.adders| && s.adders[t].phase == phase
  }

  predicate Enabled(c: Config, s: State, step: Step) {
    match step
    case Clock => true
    case Main =>
      match s.main {
        case GoAdder(i) => i < |s.adders|
        case AtWait => s.wg == 0
        case AfterWait => false
        case _ => true
      }
    case Receive(t) => Standby(s, t, Waiting) && s.adders[t].batch < c.batches && s.limiter.slot == 1
    case Call(t) => Standby(s, t, Holding) && At(s.adders, t) in s.client.nonce && At(s.adders, t) in s.chain.next
    // A transaction may reach a node long after the client gave up on it. The node accepts the nonce it expects.
    case Accept(tx) => tx in s.chain.sent && tx.acct in s.chain.next && tx.nonce == s.chain.next[tx.acct]
    // Success is reported only for a transaction that a node has; an error may be reported in any case.
    case Return(t, ok) =>
      && t < |s.adders| && s.adders[t].phase.Calling? && At(s.adders, t) in s.client.wins
      && (ok ==> Tx(At(s.adders, t), s.adders[t].phase.nonce) in s.chain.accepted)
    case Count(t) => Standby(s, t, Returned)
    case Bump(t) => Standby(s, t, Counted) && At(s.adders, t) in s.client.nonce
    case Done(t) => Standby(s, t, Waiting) && s.adders[t].batch >= c.batches
    case Mine(txs, header) => txs <= s.chain.pending && |txs| <= header.txcount
    // A node may lag or fall back, but it does not invent blocks.
    case Begin(reply) => s.watch.phase.Starting? && (reply.Ok? ==> 0 <= reply.value < |s.chain.blocks|)
    case Poll(poll) =>
      && s.watch.phase.Polling? && s.watch.scan.status.Running?
      && (poll.Ok? ==> 0 <= poll.value < |s.chain.blocks|)
    case ScanBlock(ok) => s.watch.phase.Scanning? && s.watch.scan.status.Running?
  }

  function MainStep(c: Config, s: State): State
    requires Enabled(c, s, Main)
  {
    match s.main
    case AddCollector => s.(wg := s.wg + 1, main := GoCollector)
    case GoCollector => s.(watch := s.watch.(phase := Starting), main := AddAdder(0))
    case AddAdder(i) => if i < c.threads then s.(wg := s.wg + 1, main := GoAdder(i)) else s.(main := AtWait)
    case GoAdder(i) => s.(adders := InPhase(s.adders, i, Waiting), main := AddAdder(i + 1))
    case AtWait => s.(main := AfterWait)
  }

  function Tick(period: nat, l: Limiter): Limiter
    requires period > 0
  {
    var now := l.now + 1;
    if now % period == 0 then l.(now := now, ticks := l.ticks + 1, slot := 1) else l.(now := now)
  }

  /** The collector's next state; when it stops it runs its deferred wg.Done. */
  function Watched(s: State, watch: Watch): State {
    s.(watch := watch, wg := if watch.scan.status.Running? then s.wg else s.wg - 1)
  }

  function ScanStep(c: Config, s: State): Watch
    requires s.watch.phase.Scanning?
  {
    var scan := ScanOne(c.stop, WorldOf(c, s.chain.blocks), s.watch.scan);
    s.watch.(scan := scan,
              phase := if scan.status.Running? && scan.last < s.watch.phase.head then s.watch.phase else Polling)
  }

  function Apply(c: Config, s: State, step: Step): State
    requires c.Valid() && Enabled(c, s, step)
  {
    match step
    case Clock => s.(limiter := Tick(c.period, s.limiter))
    case Main => MainStep(c, s)
    case Receive(t) =>
      s.(adders := InPhase(s.adders, t, Holding), limiter := s.limiter.(slot := 0, received := s.limiter.received + 1))
    case Call(t) =>
      var a := At(s.adders, t);
      var nonce := CallNonce(c, s, a);
      s.(adders := InPhase(s.adders, t, Calling(nonce)),
         tried := s.tried + {Point(a, s.adders[t].batch)},
         chain := s.chain.(sent := s.chain.sent + {Tx(a, nonce)}))
    case Accept(tx) =>
      s.(chain := s.chain.(
           next := s.chain.next[tx.acct := tx.nonce + 1],
           accepted := s.chain.accepted + {tx},
           pending := s.chain.pending + {tx}))
    case Return(t, ok) =>
      var a := At(s.adders, t);
      if ok then
        s.(adders := InPhase(s.adders, t, Returned),
           tally := s.tally.(oks := s.tally.oks + 1),
           client := s.client.(wins := s.client.wins[a := s.client.wins[a] + 1]),
           chain := s.chain.(reported := s.chain.reported + {Tx(a, s.adders[t].phase.nonce)}))
      else
        s.(adders := s.adders[t := NextPoint(c.accounts, s.adders[t])],
           tally := s.tally.(failed := s.tally.failed + 1))
    case Count(t) =>
      s.(adders := InPhase(s.adders, t, Counted), tally := s.tally.(issued := s.tally.issued + 1))
    case Bump(t) =>
      var a := At(s.adders, t);
      s.(adders := s.adders[t := NextPoint(c.accounts, s.adders[t])],
         client := if c.manageNonce then s.client.(nonce := s.client.nonce[a := s.client.nonce[a] + 1]) else s.client)
    case Done(t) => s.(adders := InPhase(s.adders, t, Finished), wg := s.wg - 1)
    case Mine(txs, header) =>
      s.(chain := s.chain.(pending := s.chain.pending - txs, blocks := s.chain.blocks + [ChainBlock(txs, header)]))
    case Begin(reply) =>
      var scan := InitialScan(c.startBlock, reply, 0, c.rows0);
      Watched(s, Watch(Polling, scan, scan))
    case Poll(poll) =>
      if poll.Err? then Watched(s, s.watch.(scan := s.watch.scan.(status := Failed)))
      else if poll.value <= s.watch.scan.last then s
      else s.(watch := s.watch.(phase := Scanning(poll.value)))
    case ScanBlock(ok) =>
      if ok then Watched(s, ScanStep(c, s))
      else Watched(s, s.watch.(scan := s.watch.scan.(status := Failed), phase := Polling))
  }

  ghost predicate Init(c: Config, s: State) {
    && c.Valid()
    && s.limiter == Limiter(0, 0, 0, 0)
    && s.adders == seq(c.threads, t => Adder(0, 0, Idle))
    && s.tried == {} && s.tally == Tally(0, 0, 0)
    && s.chain.sent == s.chain.reported == s.chain.accepted == s.chain.pending == {}
    && (forall a :: IsAcct(c, a) ==> a in s.client.nonce && a in s.client.wins && a in s.chain.next)
    && (forall a :: IsAcct(c, a) ==> s.client.nonce[a] == s.chain.next[a] == c.nonce0(a) && s.client.wins[a] == 0)
    && |s.chain.blocks| > 0 && (forall n :: 0 <= n < |s.chain.blocks| ==> s.chain.blocks[n].ours == {})
    && s.watch.phase == NotStarted && s.watch.scan.status.Running?
    && s.main == (if c.collecting then AddCollector else AddAdder(0)) && s.wg == 0
  }

  /** The steps lead from s to s', each of them possible when it is taken. */
  ghost predicate Runs(c: Config, s: State, steps: seq<Step>, s': State)
    requires c.Valid()
    decreases |steps|
  {
    if steps == [] then s == s'
    else Enabled(c, s, steps[0]) && Runs(c, Apply(c, s, steps[0]), steps[1..], s')
  }

  ghost predicate Reachable(c: Config, s: State) {
    exists s0, steps :: Init(c, s0) && Runs(c, s0, steps, s)
  }

  lemma {:induction false} RunsAppend(c: Config, s: State, xs: seq<Step>, m: State, ys: seq<Step>, s': State)
    requires c.Valid() && Runs(c, s, xs, m) && Runs(c, m, ys, s')
    ensures Runs(c, s, xs + ys, s')
    decreases |xs|
  {
    if xs == [] {
      assert xs + ys == ys;
    } else {
      RunsAppend(c, Apply(c, s, xs[0]), xs[1..], m, ys, s');
      assert (xs + ys)[1..] == xs[1..] + ys;
    }
  }

  lemma ReachableExtends(c: Config, s: State, steps: seq<Step>, s': State)
    requires c.Valid() && Reachable(c, s) && Runs(c, s, steps, s')
    ensures Reachable(c, s')
  {
    var s0, xs :| Init(c, s0) && Runs(c, s0, xs, s);
    RunsAppend(c, s0, xs, s, steps, s');
  }

  lemma ReachableStep(c: Config, s: State, step: Step)
    requires c.Valid() && Reachable(c, s) && Enabled(c, s, step)
    ensures Reachable(c, Apply(c, s, step))
  {
    var s' := Apply(c, s, step);
    assert Runs(c, s', [], s');
    assert [step][1..] == [];
    ReachableExtends(c, s, [step], s');
  }

  /** A quantity added up over the adders. */
  function Sum(adders: seq<Adder>, f: Adder -> nat): nat {
    if adders == [] then 0 else Sum(adders[..|adders| - 1], f) + f(adders[|adders| - 1])
  }

  const Holders := (a: Adder) => if a.phase.Holding? then 1 as nat else 0
  const Callers := (a: Adder) => if a.phase.Calling? then 1 as nat else 0
  const Uncounted := (a: Adder) => if a.phase.Returned? then 1 as nat else 0
  const Live := (a: Adder) => if a.phase.Idle? || a.phase.Finished? then 0 as nat else 1

  lemma {:induction false} SumUpdate(adders: seq<Adder>, t: nat, a: Adder, f: Adder -> nat)
    requires t < |adders|
    ensures Sum(adders[t := a], f) + f(adders[t]) == Sum(adders, f) + f(a)
  {
    var k := |adders| - 1;
    if t == k {
      assert adders[t := a][..k] == adders[..k];
    } else {
      SumUpdate(adders[..k], t, a, f);
      assert adders[t := a][..k] == adders[..k][t := a];
    }
  }

  lemma {:induction false} SumZero(adders: seq<Adder>, f: Adder -> nat)
    ensures Sum(adders, f) == 0 <==> forall t :: 0 <= t < |adders| ==> f(adders[t]) == 0
  {
    if adders != [] {
      SumZero(adders[..|adders| - 1], f);
    }
  }

  lemma {:induction false} SumBounded(adders: seq<Adder>, f: Adder -> nat)
    requires forall a :: f(a) <= 1
    ensures Sum(adders, f) <= |adders|
  {
    if adders != [] {
      SumBounded(adders[..|adders| - 1], f);
    }
  }
}
