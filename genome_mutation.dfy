// The three mutation operators of `Genome`. The source mutates `self` in place;
// here each operator takes the genome and returns the mutated one.
module GenomeMutation {
  import opened NodeGenes
  import opened ConnectionGenes
  import opened GenomeBase
  import opened GenomeGraph
  import opened GenomeInvariants
  import opened Sorting
  import opened Innovation

  // ----- weight mutation -----

  /** `g'` differs from `g` in connection weights at most. */
  predicate WeightsOnly(g: Genome, g': Genome)
  {
    && g'.nodes == g.nodes
    && g'.connections.Keys == g.connections.Keys
    && forall k :: k in g.connections ==>
         SameEdge(g'.connections[k], g.connections[k]) &&
         g'.connections[k].expressed == g.connections[k].expressed
  }

  /**
   * `mutation`: every connection draws a number in [0, 1); below
   * `probabilityPerturbing` its weight is scaled by a normal sample, otherwise it
   * is replaced by a uniform sample in [-2, 2). The samples are arbitrary choices here.
   */
  method Mutation(g: Genome, probabilityPerturbing: real) returns (g': Genome)
    ensures WeightsOnly(g, g')
    ensures probabilityPerturbing <= 0.0 ==>
      forall k :: k in g'.connections ==> -2.0 <= g'.connections[k].weight < 2.0
    ensures probabilityPerturbing >= 1.0 ==>
      forall k :: k in g.connections && g.connections[k].weight == 0.0 ==> g'.connections[k].weight == 0.0
  {
    var keys := KeysToVec(g.connections.Keys);
    g' := g;
    var i := 0;
    while i < |keys|
      invariant 0 <= i <= |keys|
      invariant MutatedSoFar(g, g', keys[..i], probabilityPerturbing)
    {
      assert keys[i] !in keys[..i];
      assert keys[..i + 1] == keys[..i] + [keys[i]];
      g' := MutateKey(g, g', keys[..i], keys[i], probabilityPerturbing);
      i := i + 1;
    }
    assert keys[..|keys|] == keys;
  }

  /**
   * The loop state of `mutation`: only weights have changed, the keys `done` have
   * been redrawn and every other connection is untouched.
   */
  ghost predicate MutatedSoFar(g: Genome, g': Genome, done: seq<int>, probabilityPerturbing: real)
  {
    && WeightsOnly(g, g')
    && (forall k :: k in done ==> k in g.connections)
    && (forall k :: k in g.connections && k !in done ==> g'.connections[k] == g.connections[k])
    && (probabilityPerturbing <= 0.0 ==>
          forall k :: k in done ==> -2.0 <= g'.connections[k].weight < 2.0)
    && (probabilityPerturbing >= 1.0 ==>
          forall k :: k in done && g.connections[k].weight == 0.0 ==> g'.connections[k].weight == 0.0)
  }

  /** One pass of the `mutation` loop: redraws the weight of connection `key`. */
  method MutateKey(g: Genome, g': Genome, done: seq<int>, key: int, probabilityPerturbing: real)
    returns (g'': Genome)
    requires MutatedSoFar(g, g', done, probabilityPerturbing)
    requires key in g.connections && key !in done
    ensures MutatedSoFar(g, g'', done + [key], probabilityPerturbing)
  {
    var con := g'.connections[key];
    var draw: real :| 0.0 <= draw < 1.0;
    var weight: real;
    if draw < probabilityPerturbing {
      var v: real :| true;
      weight := con.GetWeight() * v;
    } else {
      var u: real :| -2.0 <= u < 2.0;
      weight := u;
    }
    ReweighKeepsShape(g, g', key, weight);
    g'' := g'.(connections := g'.connections[key := con.SetWeight(weight)]);
  }

  lemma {:induction false} ReweighKeepsShape(g: Genome, g': Genome, key: int, w: real)
    requires WeightsOnly(g, g') && key in g'.connections
    ensures WeightsOnly(g, g'.(connections := g'.connections[key := g'.connections[key].SetWeight(w)]))
  {
  }

  /** A weight-only change keeps the edges, hence every structural invariant and every consistency. */
  lemma {:induction false} WeightsOnlyKeepsStructure(g: Genome, g': Genome, h: Genome)
    requires WeightsOnly(g, g')
    ensures forall a, b :: Edge(g'.connections, a, b) <==> Edge(g.connections, a, b)
    ensures GenomeOk(g) ==> GenomeOk(g')
    ensures Consistent(g, h) ==> Consistent(g', h) && Consistent(h, g')
  {
    forall a, b ensures Edge(g'.connections, a, b) <==> Edge(g.connections, a, b) {
      if Edge(g.connections, a, b) {
        var k :| k in g.connections && g.connections[k].inNode == a && g.connections[k].outNode == b;
        assert k in g'.connections && g'.connections[k].inNode == a && g'.connections[k].outNode == b;
      }
    }
    if GenomeOk(g) {
      var rank :| RankedBy(g.connections, rank);
      assert RankedBy(g'.connections, rank);
      assert |g'.nodes| > 0;
    }
  }

  // ----- add-connection mutation -----

  /**
   * The reversal rule: a pair drawn as (Hidden, Input), (Output, Hidden) or
   * (Output, Input) is swapped. Afterwards an Output source only pairs with
   * an Output target, and an Input target only with an Input source.
   */
  function Orient(n1: NodeGene, n2: NodeGene): (r: (NodeGene, NodeGene))
    ensures r == (n1, n2) || r == (n2, n1)
    ensures r.0.nodeType == Output ==> r.1.nodeType == Output
    ensures r.1.nodeType == Input ==> r.0.nodeType == Input
  {
    var reversed :=
      || (n1.nodeType == Hidden && n2.nodeType == Input)
      || (n1.nodeType == Output && n2.nodeType == Hidden)
      || (n1.nodeType == Output && n2.nodeType == Input);
    if reversed then (n2, n1) else (n1, n2)
  }

  /** Input to Input, Output to Output and a node to itself are refused outright. */
  predicate Impossible(src: NodeGene, dst: NodeGene)
  {
    (src.nodeType == Input && dst.nodeType == Input) ||
    (src.nodeType == Output && dst.nodeType == Output) ||
    src == dst
  }

  /**
   * One successful attempt: the nodes under `k1` and `k2` were drawn, oriented,
   * passed every test, and the new expressed connection with weight `w` was
   * inserted under `key`.
   */
  ghost predicate IsAcceptedInsert(g: Genome, g': Genome, key: int, k1: int, k2: int, w: real)
  {
    && k1 in g.nodes && k2 in g.nodes
    && var (src, dst) := Orient(g.nodes[k1], g.nodes[k2]);
    && !Impossible(src, dst)
    && !Reaches(g.connections, dst.id, src.id)
    && !EdgeEither(g.connections, src.id, dst.id)
    && -1.0 <= w < 1.0
    && g' == Genome(g.connections[key := ConnectionGene(src.id, dst.id, w, true, key)], g.nodes)
  }

  /** The loop `for i in node_ids { if i == node1.id { ... } }`. */
  method ListContains(ids: seq<int>, x: int) returns (found: bool)
    ensures found <==> x in ids
  {
    found := false;
    var i := 0;
    while i < |ids|
      invariant 0 <= i <= |ids|
      invariant found <==> x in ids[..i]
    {
      if ids[i] == x {
        found := true;
      }
      assert ids[..i + 1] == ids[..i] + [ids[i]];
      i := i + 1;
    }
    assert ids[..|ids|] == ids;
  }

  /**
   * `add_connection_mutation`: up to `maxAttempts` attempts, each drawing two node keys
   * and a weight in [-1, 1). The worklist it runs terminates only on an acyclic graph,
   * which is why acyclicity is required. On failure nothing changes, the counter included;
   * on success the counter advanced once and its value keys the new connection.
   */
  method AddConnectionMutation(g: Genome, innovation: Counter, maxAttempts: int) returns (g': Genome, success: bool)
    requires maxAttempts > 0 ==> |g.nodes| > 0
    requires Acyclic(g.connections)
    modifies innovation
    ensures !success ==> g' == g && innovation.current == old(innovation.current)
    ensures success ==> maxAttempts > 0 && innovation.current == old(innovation.current) + 1
    ensures success ==> exists k1, k2, w :: IsAcceptedInsert(g, g', innovation.current, k1, k2, w)
  {
    ghost var rank :| RankedBy(g.connections, rank);
    g' := g;
    success := false;
    var tries := 0;
    while tries < maxAttempts && !success
      invariant !success ==> g' == g && innovation.current == old(innovation.current)
      invariant success ==> maxAttempts > 0 && innovation.current == old(innovation.current) + 1
      invariant success ==> exists k1, k2, w :: IsAcceptedInsert(g, g', innovation.current, k1, k2, w)
      decreases maxAttempts - tries
    {
      tries := tries + 1;
      var nodeKeys := KeysToVec(g.nodes.Keys);
      var i1 :| 0 <= i1 < |nodeKeys|;
      var i2 :| 0 <= i2 < |nodeKeys|;
      var k1, k2 := nodeKeys[i1], nodeKeys[i2];
      var w: real :| -1.0 <= w < 1.0;
      var (src, dst) := Orient(g.nodes[k1], g.nodes[k2]);
      var impossible := Impossible(src, dst);
      var connKeys := KeysToVec(g.connections.Keys);
      var dependents := DependentNodes(g.connections, connKeys, dst.id, rank);
      var cyclic := ListContains(dependents, src.id);
      if cyclic {
        impossible := true;
      }
      var connectionExists := ConnectionExists(g.connections, connKeys, src.id, dst.id);
      if connectionExists || impossible {
        continue;
      }
      var key := innovation.GetInnovation();
      g' := AddConnectionGene(g, NewConnectionGene(src.id, dst.id, w, true, key));
      success := true;
      assert IsAcceptedInsert(g, g', key, k1, k2, w);
    }
  }

  /**
   * What a successful insert looks like: one expressed connection under `key`, from a
   * non-Output node to a non-Input node of the genome, between two nodes no connection
   * joined before; the node map and every other connection are untouched.
   */
  lemma {:induction false} AcceptedInsertShape(g: Genome, g': Genome, key: int, k1: int, k2: int, w: real)
    requires IsAcceptedInsert(g, g', key, k1, k2, w)
    ensures g'.nodes == g.nodes
    ensures g'.connections.Keys == g.connections.Keys + {key}
    ensures forall k :: k in g.connections && k != key ==> g'.connections[k] == g.connections[k]
    ensures var c := g'.connections[key];
      && c.expressed && c.innovation == key && -1.0 <= c.weight < 1.0
      && (exists a, b :: a in g.nodes && b in g.nodes && {a, b} == {k1, k2} &&
            c.inNode == g.nodes[a].id && c.outNode == g.nodes[b].id &&
            g.nodes[a].nodeType != Output && g.nodes[b].nodeType != Input)
      && !EdgeEither(g.connections, c.inNode, c.outNode)
      && !Reaches(g.connections, c.outNode, c.inNode)
    ensures key !in g.connections ==> |g'.connections| == |g.connections| + 1
  {
    var n1, n2 := g.nodes[k1], g.nodes[k2];
    var (src, dst) := Orient(n1, n2);
    if Orient(n1, n2) == (n1, n2) {
      assert src == g.nodes[k1] && dst == g.nodes[k2];
    } else {
      assert src == g.nodes[k2] && dst == g.nodes[k1];
    }
  }

  /** In a well-formed genome the accepted connection is no self-edge and the genome stays well formed. */
  lemma {:induction false} AcceptedInsertKeepsGenomeOk(g: Genome, g': Genome, key: int, k1: int, k2: int, w: real)
    requires IsAcceptedInsert(g, g', key, k1, k2, w)
    requires GenomeOk(g)
    ensures g'.connections[key].inNode != g'.connections[key].outNode
    ensures GenomeOk(g')
  {
    var (src, dst) := Orient(g.nodes[k1], g.nodes[k2]);
    assert src.id in g.nodes && g.nodes[src.id] == src;
    assert dst.id in g.nodes && g.nodes[dst.id] == dst;
    var c := g'.connections[key];
    AddEdgeKeepsAcyclic(g.connections, key, c);
  }

  /** A fresh key keeps the new genome consistent with every genome that lacks that key. */
  lemma {:induction false} AcceptedInsertKeepsConsistent(g: Genome, g': Genome, h: Genome, key: int, k1: int, k2: int, w: real)
    requires IsAcceptedInsert(g, g', key, k1, k2, w)
    requires Consistent(g, h) && key !in h.connections
    ensures Consistent(g', h) && Consistent(h, g')
  {
  }

  // ----- add-node mutation -----

  /**
   * The split performed by `add_node_mutation` on connection `k`: disable it, add the
   * Hidden node `n`, then `in -> n` with weight 1.0 under `c1` and `n -> out` with the
   * old weight under `c2`.
   */
  function Split(g: Genome, k: int, n: int, c1: int, c2: int, layer: int): Genome
    requires k in g.connections
  {
    var con := g.connections[k];
    Genome(
      g.connections[k := con.Disable()]
                   [c1 := ConnectionGene(con.inNode, n, 1.0, true, c1)]
                   [c2 := ConnectionGene(n, con.outNode, con.weight, true, c2)],
      g.nodes[n := NodeGene(Hidden, n, layer)])
  }

  /** Some expressed connection carries innovation number `x`. */
  ghost predicate ExpressedInnovation(g: Genome, x: int)
  {
    exists k :: k in g.connections && g.connections[k].expressed && g.connections[k].innovation == x
  }

  /** The loop collecting the innovation numbers of every expressed connection. */
  method SuitableConnections(g: Genome) returns (suitable: seq<int>)
    ensures forall i :: 0 <= i < |suitable| ==> ExpressedInnovation(g, suitable[i])
    ensures forall k :: k in g.connections && g.connections[k].expressed ==> g.connections[k].innovation in suitable
  {
    var keys := KeysToVec(g.connections.Keys);
    forall j | 0 <= j < |keys| ensures keys[j] in g.connections {
      assert keys[j] in keys;
    }
    suitable := [];
    var i := 0;
    while i < |keys|
      invariant 0 <= i <= |keys|
      invariant forall j :: 0 <= j < |keys| ==> keys[j] in g.connections
      invariant forall j :: 0 <= j < |suitable| ==> ExpressedInnovation(g, suitable[j])
      invariant forall j :: 0 <= j < i && g.connections[keys[j]].expressed ==> g.connections[keys[j]].innovation in suitable
    {
      var key := keys[i];
      var con := g.connections[key];
      if con.expressed {
        assert key in g.connections && g.connections[key].expressed && g.connections[key].innovation == con.innovation;
        suitable := suitable + [con.innovation];
      }
      i := i + 1;
    }
    forall k | k in g.connections && g.connections[k].expressed ensures g.connections[k].innovation in suitable {
      var j :| 0 <= j < |keys| && keys[j] == k;
    }
  }

  /**
   * `add_node_mutation`: with no expressed connection it does nothing and draws no
   * counter value. Otherwise it splits one expressed connection, taking the node
   * counter's next value as the new node id and the connection counter's next two
   * values, `in -> new` first, as the new innovation numbers. The new node's layer is
   * left unconstrained. The source looks up the chosen connection by its innovation
   * number and its endpoints in the node map, and panics unless both are present.
   */
  method AddNodeMutation(g: Genome, connectionInnovation: Counter, nodeInnovation: Counter) returns (g': Genome)
    requires connectionInnovation != nodeInnovation
    requires WellKeyed(g) && EndpointsPresent(g)
    modifies connectionInnovation, nodeInnovation
    ensures (forall k :: k in g.connections ==> !g.connections[k].expressed) ==>
      g' == g && unchanged(connectionInnovation, nodeInnovation)
    ensures (exists k :: k in g.connections && g.connections[k].expressed) ==>
      && nodeInnovation.current == old(nodeInnovation.current) + 1
      && connectionInnovation.current == old(connectionInnovation.current) + 2
      && var n, c := nodeInnovation.current, connectionInnovation.current;
         n in g'.nodes &&
         exists k :: k in g.connections && g.connections[k].expressed &&
           g' == Split(g, k, n, c - 1, c, g'.nodes[n].layer)
  {
    var suitable := SuitableConnections(g);
    if suitable == [] {
      g' := g;
      return;
    }
    var index :| 0 <= index < |suitable|;
    var k := suitable[index];
    var con := g.connections[k];
    var inNode := g.nodes[con.inNode];
    var outNode := g.nodes[con.outNode];
    var disabled := con.Disable();
    var layer: int :| true;
    var n := nodeInnovation.GetInnovation();
    var newNode := NewNodeGene(Hidden, n, layer);
    var c1 := connectionInnovation.GetInnovation();
    var inToNew := NewConnectionGene(inNode.GetId(), newNode.GetId(), 1.0, true, c1);
    var c2 := connectionInnovation.GetInnovation();
    var newToOut := NewConnectionGene(newNode.GetId(), outNode.GetId(), disabled.GetWeight(), true, c2);
    g' := g.(connections := g.connections[k := disabled]);
    g' := AddNodeGene(g', newNode);
    g' := AddConnectionGene(g', inToNew);
    g' := AddConnectionGene(g', newToOut);
    assert g' == Split(g, k, n, c1, c2, layer);
  }

  /**
   * The split keeps the chosen connection, disabled, adds the Hidden node, and adds
   * the two expressed connections: `in -> n` weighted 1.0 and `n -> out` with the old weight.
   */
  lemma {:induction false} SplitShape(g: Genome, k: int, n: int, c1: int, c2: int, layer: int)
    requires k in g.connections && c1 != c2 && k != c1 && k != c2
    ensures var r := Split(g, k, n, c1, c2, layer); var con := g.connections[k];
      && r.nodes.Keys == g.nodes.Keys + {n} && r.nodes[n].nodeType == Hidden && r.nodes[n].id == n
      && (forall j :: j in g.nodes && j != n ==> r.nodes[j] == g.nodes[j])
      && r.connections.Keys == g.connections.Keys + {c1, c2}
      && r.connections[k] == con.(expressed := false)
      && r.connections[c1] == ConnectionGene(con.inNode, n, 1.0, true, c1)
      && r.connections[c2] == ConnectionGene(n, con.outNode, con.weight, true, c2)
      && (forall j :: j in g.connections && j !in {k, c1, c2} ==> r.connections[j] == g.connections[j])
  {
  }

  /** With fresh ids the split adds exactly one node and two connections. */
  lemma {:induction false} SplitGrows(g: Genome, k: int, n: int, c1: int, c2: int, layer: int)
    requires k in g.connections && n !in g.nodes
    requires c1 != c2 && c1 !in g.connections && c2 !in g.connections
    ensures |Split(g, k, n, c1, c2, layer).nodes| == |g.nodes| + 1
    ensures |Split(g, k, n, c1, c2, layer).connections| == |g.connections| + 2
  {
    var r := Split(g, k, n, c1, c2, layer);
    assert r.connections.Keys == g.connections.Keys + {c1} + {c2};
    assert |g.connections.Keys + {c1}| == |g.connections| + 1;
  }

  /** A split with a fresh node id keeps the genome well formed. */
  lemma {:induction false} SplitKeepsGenomeOk(g: Genome, k: int, n: int, c1: int, c2: int, layer: int)
    requires GenomeOk(g) && k in g.connections && n !in g.nodes
    ensures GenomeOk(Split(g, k, n, c1, c2, layer))
  {
    var con := g.connections[k];
    SplitKeepsAcyclic(g.connections, k, n, c1, c2,
      ConnectionGene(con.inNode, n, 1.0, true, c1), ConnectionGene(n, con.outNode, con.weight, true, c2));
    var r := Split(g, k, n, c1, c2, layer);
    assert n in r.nodes;
  }

  /** Fresh innovation numbers keep the split genome consistent with every genome lacking them. */
  lemma {:induction false} SplitKeepsConsistent(g: Genome, h: Genome, k: int, n: int, c1: int, c2: int, layer: int)
    requires k in g.connections && Consistent(g, h)
    requires c1 !in h.connections && c2 !in h.connections
    ensures Consistent(Split(g, k, n, c1, c2, layer), h) && Consistent(h, Split(g, k, n, c1, c2, layer))
  {
  }
}
