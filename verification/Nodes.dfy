/**
Assigning client connections to nodes (go/bbeth/load/load.go). Only the connections are spread: the contract
that every adder sends through is bound to the first of them.
*/
module Nodes {
  import ConfigTx

  datatype Assigned = Assigned(node: seq<nat>) | TooFewNodes | IndexPanic

  /** Which of n nodes connection i goes to. */
  function Turn(singleNode: bool, n: int, i: nat): nat {
    if !singleNode && n > 1 then i % n else 0
  }

  /** In the options' own terms: an unset node count means one node for every thread. */
  lemma TurnIs(singleNode: bool, nodes: int, threads: nat, i: nat)
    requires i < threads
    ensures Turn(singleNode, if nodes == 0 then threads else nodes, i)
      == if singleNode || nodes == 1 || nodes < 0 then 0 else if nodes == 0 then i else i % nodes
  {
    if nodes == 0 {
      ConfigTx.QuotientIsUnique(threads, 0, i, i);
    }
  }

  /** The port of each connection: the base port, or with more than one node the next in turn. */
  method ClientsFromEthEndpoint(threads: nat, nodes: int, singleNode: bool, basePort: int) returns (ports: array<int>)
    ensures ports.Length == threads
    ensures forall i :: 0 <= i < threads ==>
      ports[i] == basePort + if singleNode || nodes == 1 || nodes < 0 then 0 else if nodes == 0 then i else i % nodes
    ensures !singleNode && nodes > 1 ==> Balanced(ports[..], basePort, nodes)
    ensures !singleNode && nodes == 0 && threads > 1 ==> Balanced(ports[..], basePort, threads)
  {
    var n := nodes;
    if n == 0 {
      n := threads;
    }
    ports := new int[threads];
    for i := 0 to threads
      invariant forall k :: 0 <= k < i ==> ports[k] == basePort + Turn(singleNode, n, k)
    {
      ports[i] := basePort;
      if !singleNode && n > 1 {
        ports[i] := basePort + i % n;
      }
    }
    if !singleNode && n > 1 {
      RoundRobinBalances(ports[..], basePort, n);
    }
    forall i | 0 <= i < threads
      ensures ports[i] == basePort + if singleNode || nodes == 1 || nodes < 0 then 0
                                     else if nodes == 0 then i else i % nodes
    {
      TurnIs(singleNode, nodes, threads, i);
    }
  }

  /** The entry of the node list each connection takes. */
  method ClientsFromStaticNodes(threads: nat, nodes: int, singleNode: bool, listed: nat) returns (r: Assigned)
    ensures r.TooFewNodes? <==> nodes > listed || (nodes == 0 && threads > listed)
    ensures r.IndexPanic? <==> nodes < 0 && listed == 0 && threads > 0
    ensures r.Assigned? ==> |r.node| == threads && forall i :: 0 <= i < threads ==>
      && r.node[i] < listed
      && r.node[i] == if singleNode || nodes == 1 || nodes < 0 then 0 else if nodes == 0 then i else i % nodes
    ensures r.Assigned? && !singleNode && nodes > 1 ==> Balanced(r.node, 0, nodes)
    ensures r.Assigned? && !singleNode && nodes == 0 && threads > 1 ==> Balanced(r.node, 0, threads)
  {
    var n := nodes;
    if n == 0 {
      n := threads;
    }
    if n > listed {
      return TooFewNodes;
    }
    var node: seq<nat> := [];
    for i := 0 to threads
      invariant |node| == i && (i > 0 ==> listed > 0)
      invariant forall k :: 0 <= k < i ==> node[k] < listed && node[k] == Turn(singleNode, n, k)
    {
      if listed == 0 {
        return IndexPanic;
      }
      var j: nat := 0;
      if !singleNode && n > 1 {
        j := i % n;
        InRange(i, n);
      }
      node := node + [j];
    }
    if !singleNode && n > 1 {
      RoundRobinBalances(node, 0, n);
    }
    forall i | 0 <= i < threads
      ensures node[i] == if singleNode || nodes == 1 || nodes < 0 then 0 else if nodes == 0 then i else i % nodes
    {
      TurnIs(singleNode, nodes, threads, i);
    }
    return Assigned(node);
  }

  lemma InRange(i: nat, n: int)
    requires n > 0
    ensures 0 <= i % n < n
  {
  }

  /** Of the connections, node j has its even share, and one of the rest if there are enough. */
  predicate Balanced(chosen: seq<int>, base: int, n: nat)
    requires n > 0
  {
    forall v :: base <= v < base + n ==> multiset(chosen)[v] == |chosen| / n + if v - base < |chosen| % n then 1 else 0
  }

  lemma RoundRobinBalances(chosen: seq<int>, base: int, n: nat)
    requires n > 0 && forall i :: 0 <= i < |chosen| ==> chosen[i] == base + i % n
    ensures Balanced(chosen, base, n)
  {
    forall v | base <= v < base + n
      ensures multiset(chosen)[v] == |chosen| / n + if v - base < |chosen| % n then 1 else 0
    {
      LoadCounts(chosen, base, n, v - base);
      BalancedLoad(|chosen|, n, v - base);
    }
  }

  lemma {:induction false} LoadCounts(chosen: seq<int>, base: int, n: nat, j: nat)
    requires n > 0 && forall i :: 0 <= i < |chosen| ==> chosen[i] == base + i % n
    ensures multiset(chosen)[base + j] == Load(|chosen|, n, j)
    decreases |chosen|
  {
    if chosen != [] {
      var k := |chosen| - 1;
      LoadCounts(chosen[..k], base, n, j);
      assert chosen == chosen[..k] + [chosen[k]];
    }
  }

  /** How many of the first threads connections go to node j. */
  function Load(threads: nat, n: nat, j: nat): nat
    requires n > 0
  {
    if threads == 0 then 0 else Load(threads - 1, n, j) + if (threads - 1) % n == j then 1 else 0
  }

  /** Connections are balanced: the first threads mod n nodes get one more than the others. */
  lemma BalancedLoad(threads: nat, n: nat, j: nat)
    requires n > 0 && j < n
    ensures Load(threads, n, j) == threads / n + if j < threads % n then 1 else 0
  {
    LoadIs(threads, n, j, threads / n, threads % n);
  }

  lemma {:induction false} LoadIs(threads: nat, n: nat, j: nat, q: nat, r: nat)
    requires threads == n * q + r && j < n && r < n
    ensures Load(threads, n, j) == q + if j < r then 1 else 0
    decreases threads
  {
    if r > 0 {
      ConfigTx.QuotientIsUnique(n, q, threads - 1, r - 1);
      LoadIs(threads - 1, n, j, q, r - 1);
    } else if q > 0 {
      assert threads - 1 == n * (q - 1) + (n - 1);
      ConfigTx.QuotientIsUnique(n, q - 1, threads - 1, n - 1);
      LoadIs(threads - 1, n, j, q - 1, n - 1);
    }
  }

  /** With n clients for each of the nodes, as the nodes option advises, every node gets exactly that many. */
  lemma EvenLoad(n: nat, clients: nat, j: nat)
    requires n > 0 && j < n
    ensures Load(n * clients, n, j) == clients
  {
    assert n * clients >= 0;
    ConfigTx.MultipleHasNoRemainder(n, clients);
    BalancedLoad(n * clients, n, j);
  }
}
