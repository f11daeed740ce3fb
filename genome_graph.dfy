// The connection genes seen as a directed graph on node ids: edges, reachability,
// acyclicity, and the worklist that add-connection mutation uses to detect cycles.
module GenomeGraph {
  import opened ConnectionGenes

  type Connections = map<int, ConnectionGene>

  /** Some connection, enabled or disabled, leads from `a` to `b`. */
  ghost predicate Edge(conns: Connections, a: int, b: int)
  {
    exists k :: k in conns && conns[k].inNode == a && conns[k].outNode == b
  }

  ghost predicate IsPath(conns: Connections, p: seq<int>)
  {
    forall i :: 0 <= i < |p| - 1 ==> Edge(conns, p[i], p[i + 1])
  }

  /** `b` is reachable from `a` through at least one connection. */
  ghost predicate Reaches(conns: Connections, a: int, b: int)
  {
    exists p :: |p| >= 2 && p[0] == a && p[|p| - 1] == b && IsPath(conns, p)
  }

  /** A rank that strictly drops along every connection: a topological order. */
  ghost predicate RankedBy(conns: Connections, rank: int -> nat)
  {
    forall k :: k in conns ==> rank(conns[k].inNode) > rank(conns[k].outNode)
  }

  ghost predicate Acyclic(conns: Connections)
  {
    exists rank: int -> nat :: RankedBy(conns, rank)
  }

  lemma {:induction false} EdgeReaches(conns: Connections, a: int, b: int)
    requires Edge(conns, a, b)
    ensures Reaches(conns, a, b)
  {
    var p := [a, b];
    assert IsPath(conns, p);
  }

  lemma {:induction false} ReachesThenEdge(conns: Connections, a: int, b: int, c: int)
    requires Reaches(conns, a, b) && Edge(conns, b, c)
    ensures Reaches(conns, a, c)
  {
    var p :| |p| >= 2 && p[0] == a && p[|p| - 1] == b && IsPath(conns, p);
    var q := p + [c];
    forall i | 0 <= i < |q| - 1 ensures Edge(conns, q[i], q[i + 1]) {
      if i + 1 < |p| {
        assert q[i] == p[i] && q[i + 1] == p[i + 1];
      } else {
        assert q[i] == b && q[i + 1] == c;
      }
    }
    assert IsPath(conns, q) && q[0] == a && q[|q| - 1] == c;
  }

  lemma {:induction false} EdgeThenReaches(conns: Connections, a: int, b: int, c: int)
    requires Edge(conns, a, b) && Reaches(conns, b, c)
    ensures Reaches(conns, a, c)
  {
    var p :| |p| >= 2 && p[0] == b && p[|p| - 1] == c && IsPath(conns, p);
    var q := [a] + p;
    assert forall i :: 1 <= i < |q| ==> q[i] == p[i - 1];
    assert IsPath(conns, q);
  }

  lemma {:induction false} PathRankDrops(conns: Connections, rank: int -> nat, p: seq<int>)
    requires RankedBy(conns, rank) && IsPath(conns, p) && |p| >= 2
    ensures rank(p[0]) > rank(p[|p| - 1])
  {
    assert Edge(conns, p[0], p[1]);
    var k :| k in conns && conns[k].inNode == p[0] && conns[k].outNode == p[1];
    if |p| > 2 {
      var q := p[1..];
      assert IsPath(conns, q) by {
        forall i | 0 <= i < |q| - 1 ensures Edge(conns, q[i], q[i + 1]) {
          assert q[i] == p[i + 1] && q[i + 1] == p[i + 2];
        }
      }
      PathRankDrops(conns, rank, q);
    }
  }

  /** Along any path the rank drops, so in an acyclic graph no node reaches itself. */
  lemma {:induction false} RankedReachDrops(conns: Connections, rank: int -> nat, a: int, b: int)
    requires RankedBy(conns, rank) && Reaches(conns, a, b)
    ensures rank(a) > rank(b)
  {
    var p :| |p| >= 2 && p[0] == a && p[|p| - 1] == b && IsPath(conns, p);
    PathRankDrops(conns, rank, p);
  }

  lemma {:induction false} AcyclicHasNoCycle(conns: Connections, x: int)
    requires Acyclic(conns)
    ensures !Reaches(conns, x, x)
  {
    var rank :| RankedBy(conns, rank);
    if Reaches(conns, x, x) {
      RankedReachDrops(conns, rank, x, x);
    }
  }

  /** A set holding `start`'s successors and closed under successors holds everything reachable from `start`. */
  lemma {:induction false} ClosedHoldsReachable(conns: Connections, start: int, s: set<int>, b: int)
    requires forall y :: Edge(conns, start, y) ==> y in s
    requires forall x, y :: x in s && Edge(conns, x, y) ==> y in s
    requires Reaches(conns, start, b)
    ensures b in s
  {
    var p :| |p| >= 2 && p[0] == start && p[|p| - 1] == b && IsPath(conns, p);
    var i := 1;
    assert Edge(conns, p[0], p[1]);
    while i < |p| - 1
      invariant 1 <= i <= |p| - 1
      invariant p[i] in s
    {
      assert Edge(conns, p[i], p[i + 1]);
      i := i + 1;
    }
  }

  // ----- the successor lists that the worklist pushes -----

  predicate KeysIn(conns: Connections, keys: seq<int>)
  {
    forall i :: 0 <= i < |keys| ==> keys[i] in conns
  }

  predicate KeysCover(conns: Connections, keys: seq<int>)
  {
    KeysIn(conns, keys) && forall k :: k in conns ==> k in keys
  }

  /** The out-nodes of the connections leaving `x`, in the order `keys` lists them. */
  function Successors(conns: Connections, keys: seq<int>, x: int): seq<int>
    requires KeysIn(conns, keys)
    decreases |keys|
  {
    if keys == [] then []
    else
      var last := conns[keys[|keys| - 1]];
      Successors(conns, keys[..|keys| - 1], x) + (if last.inNode == x then [last.outNode] else [])
  }

  lemma {:induction false} SuccessorsAreEdges(conns: Connections, keys: seq<int>, x: int)
    requires KeysIn(conns, keys)
    ensures forall y :: y in Successors(conns, keys, x) ==> Edge(conns, x, y)
  {
    if keys != [] {
      SuccessorsAreEdges(conns, keys[..|keys| - 1], x);
      var k := keys[|keys| - 1];
      if conns[k].inNode == x {
        assert Edge(conns, x, conns[k].outNode);
      }
    }
  }

  lemma {:induction false} SuccessorsHold(conns: Connections, keys: seq<int>, x: int, m: int)
    requires KeysIn(conns, keys) && 0 <= m < |keys| && conns[keys[m]].inNode == x
    ensures conns[keys[m]].outNode in Successors(conns, keys, x)
  {
    if m < |keys| - 1 {
      assert keys[..|keys| - 1][m] == keys[m];
      SuccessorsHold(conns, keys[..|keys| - 1], x, m);
    }
  }

  /** With every key listed, the successor list holds exactly the edges leaving `x`. */
  lemma {:induction false} SuccessorsExact(conns: Connections, keys: seq<int>, x: int)
    requires KeysCover(conns, keys)
    ensures forall y :: y in Successors(conns, keys, x) <==> Edge(conns, x, y)
  {
    SuccessorsAreEdges(conns, keys, x);
    forall y | Edge(conns, x, y) ensures y in Successors(conns, keys, x) {
      var k :| k in conns && conns[k].inNode == x && conns[k].outNode == y;
      var m :| 0 <= m < |keys| && keys[m] == k;
      SuccessorsHold(conns, keys, x, m);
    }
  }

  lemma {:induction false} SuccessorsRankBelow(conns: Connections, keys: seq<int>, rank: int -> nat, x: int)
    requires KeysIn(conns, keys) && RankedBy(conns, rank)
    ensures forall i :: 0 <= i < |Successors(conns, keys, x)| ==> rank(Successors(conns, keys, x)[i]) < rank(x)
  {
    var s := Successors(conns, keys, x);
    SuccessorsAreEdges(conns, keys, x);
    forall i | 0 <= i < |s| ensures rank(s[i]) < rank(x) {
      assert Edge(conns, x, s[i]);
    }
  }

  // ----- the termination measure of the worklist -----

  /** One plus the weight of the successors: the number of visits a worklist entry for `x` causes. */
  ghost function PathWeight(conns: Connections, keys: seq<int>, rank: int -> nat, x: int): nat
    requires KeysIn(conns, keys) && RankedBy(conns, rank)
    decreases rank(x), 1, 0
  {
    SuccessorsRankBelow(conns, keys, rank, x);
    1 + WeightBelow(conns, keys, rank, Successors(conns, keys, x), rank(x))
  }

  ghost function WeightBelow(conns: Connections, keys: seq<int>, rank: int -> nat, s: seq<int>, bound: nat): nat
    requires KeysIn(conns, keys) && RankedBy(conns, rank)
    requires forall i :: 0 <= i < |s| ==> rank(s[i]) < bound
    decreases bound, 0, |s|
  {
    if s == [] then 0
    else PathWeight(conns, keys, rank, s[0]) + WeightBelow(conns, keys, rank, s[1..], bound)
  }

  ghost function Weight(conns: Connections, keys: seq<int>, rank: int -> nat, s: seq<int>): nat
    requires KeysIn(conns, keys) && RankedBy(conns, rank)
    decreases |s|
  {
    if s == [] then 0 else PathWeight(conns, keys, rank, s[0]) + Weight(conns, keys, rank, s[1..])
  }

  lemma {:induction false} WeightBelowIsWeight(conns: Connections, keys: seq<int>, rank: int -> nat, s: seq<int>, bound: nat)
    requires KeysIn(conns, keys) && RankedBy(conns, rank)
    requires forall i :: 0 <= i < |s| ==> rank(s[i]) < bound
    ensures WeightBelow(conns, keys, rank, s, bound) == Weight(conns, keys, rank, s)
    decreases |s|
  {
    if s != [] {
      WeightBelowIsWeight(conns, keys, rank, s[1..], bound);
    }
  }

  lemma {:induction false} WeightAppend(conns: Connections, keys: seq<int>, rank: int -> nat, a: seq<int>, b: seq<int>)
    requires KeysIn(conns, keys) && RankedBy(conns, rank)
    ensures Weight(conns, keys, rank, a + b) == Weight(conns, keys, rank, a) + Weight(conns, keys, rank, b)
    decreases |a|
  {
    if a != [] {
      assert (a + b)[1..] == a[1..] + b;
      WeightAppend(conns, keys, rank, a[1..], b);
    } else {
      assert a + b == b;
    }
  }

  /** Replacing the head of a worklist by its successors lowers the measure by exactly one. */
  lemma {:induction false} WeightStep(conns: Connections, keys: seq<int>, rank: int -> nat, s: seq<int>)
    requires KeysIn(conns, keys) && RankedBy(conns, rank) && s != []
    ensures Weight(conns, keys, rank, s[1..] + Successors(conns, keys, s[0]))
         == Weight(conns, keys, rank, s) - 1
  {
    var succ := Successors(conns, keys, s[0]);
    WeightAppend(conns, keys, rank, s[1..], succ);
    SuccessorsRankBelow(conns, keys, rank, s[0]);
    WeightBelowIsWeight(conns, keys, rank, succ, rank(s[0]));
  }

  // ----- the worklist itself -----

  /** One pass over the connection keys, pushing the out-node of every connection leaving `x` onto both lists. */
  method PushSuccessors(conns: Connections, keys: seq<int>, x: int, nodeIds: seq<int>, needsChecking: seq<int>)
    returns (nodeIds': seq<int>, needsChecking': seq<int>)
    requires KeysIn(conns, keys)
    ensures nodeIds' == nodeIds + Successors(conns, keys, x)
    ensures needsChecking' == needsChecking + Successors(conns, keys, x)
  {
    nodeIds', needsChecking' := nodeIds, needsChecking;
    var j := 0;
    while j < |keys|
      invariant 0 <= j <= |keys|
      invariant nodeIds' == nodeIds + Successors(conns, keys[..j], x)
      invariant needsChecking' == needsChecking + Successors(conns, keys[..j], x)
    {
      var gene := conns[keys[j]];
      if gene.inNode == x {
        nodeIds' := nodeIds' + [gene.outNode];
        needsChecking' := needsChecking' + [gene.outNode];
      }
      j := j + 1;
      assert keys[..j][..j - 1] == keys[..j - 1];
    }
    assert keys[..|keys|] == keys;
  }

  ghost predicate AllReached(conns: Connections, start: int, ids: seq<int>)
  {
    forall i :: 0 <= i < |ids| ==> Reaches(conns, start, ids[i])
  }

  ghost predicate HoldsSuccessorsOf(conns: Connections, x: int, ids: seq<int>)
  {
    forall y :: Edge(conns, x, y) ==> y in ids
  }

  /** The first `n` entries have had their successors pushed. */
  ghost predicate ClosedUpTo(conns: Connections, ids: seq<int>, n: int)
  {
    forall i :: 0 <= i < n && i < |ids| ==> HoldsSuccessorsOf(conns, ids[i], ids)
  }

  lemma {:induction false} WorklistStep(conns: Connections, keys: seq<int>, start: int, ids: seq<int>, popped: nat)
    requires KeysCover(conns, keys) && popped < |ids|
    requires AllReached(conns, start, ids) && ClosedUpTo(conns, ids, popped) && HoldsSuccessorsOf(conns, start, ids)
    ensures var ids' := ids + Successors(conns, keys, ids[popped]);
      AllReached(conns, start, ids') && ClosedUpTo(conns, ids', popped + 1) && HoldsSuccessorsOf(conns, start, ids')
  {
    var x := ids[popped];
    var ids' := ids + Successors(conns, keys, x);
    SuccessorsExact(conns, keys, x);
    forall i | |ids| <= i < |ids'| ensures Reaches(conns, start, ids'[i]) {
      assert ids'[i] in Successors(conns, keys, x);
      ReachesThenEdge(conns, start, x, ids'[i]);
    }
    assert forall i :: 0 <= i < |ids| ==> ids'[i] == ids[i];
    forall i | 0 <= i < popped + 1 && i < |ids'| ensures HoldsSuccessorsOf(conns, ids'[i], ids') {
      assert HoldsSuccessorsOf(conns, ids[i], ids) || i == popped;
    }
  }

  lemma {:induction false} WorklistStart(conns: Connections, keys: seq<int>, start: int)
    requires KeysCover(conns, keys)
    ensures AllReached(conns, start, Successors(conns, keys, start))
    ensures HoldsSuccessorsOf(conns, start, Successors(conns, keys, start))
  {
    var ids := Successors(conns, keys, start);
    SuccessorsExact(conns, keys, start);
    forall i | 0 <= i < |ids| ensures Reaches(conns, start, ids[i]) {
      EdgeReaches(conns, start, ids[i]);
    }
  }

  lemma {:induction false} WorklistDone(conns: Connections, start: int, ids: seq<int>)
    requires AllReached(conns, start, ids) && ClosedUpTo(conns, ids, |ids|) && HoldsSuccessorsOf(conns, start, ids)
    ensures forall y :: y in ids <==> Reaches(conns, start, y)
  {
    var s := set z | z in ids;
    forall x, y | x in s && Edge(conns, x, y) ensures y in s {
      var i :| 0 <= i < |ids| && ids[i] == x;
      assert HoldsSuccessorsOf(conns, ids[i], ids);
    }
    forall y ensures y in ids <==> Reaches(conns, start, y) {
      if Reaches(conns, start, y) {
        ClosedHoldsReachable(conns, start, s, y);
      }
    }
  }

  /** The worklist state: `needsChecking` is the unpopped tail of `nodeIds`, which holds only reachable nodes. */
  ghost predicate Worklist(conns: Connections, start: int, nodeIds: seq<int>, needsChecking: seq<int>, popped: nat)
  {
    && popped <= |nodeIds|
    && needsChecking == nodeIds[popped..]
    && AllReached(conns, start, nodeIds) && ClosedUpTo(conns, nodeIds, popped)
    && HoldsSuccessorsOf(conns, start, nodeIds)
  }

  lemma {:induction false} TailOfAppend(ids: seq<int>, succ: seq<int>, popped: nat)
    requires popped < |ids|
    ensures (ids[popped..] + succ)[1..] == (ids + succ)[popped + 1..]
  {
  }

  /** One pass of the worklist loop: pop the head and push its successors. */
  method CheckNext(conns: Connections, keys: seq<int>, start: int, ghost rank: int -> nat,
                   nodeIds: seq<int>, needsChecking: seq<int>, ghost popped: nat)
    returns (nodeIds': seq<int>, needsChecking': seq<int>)
    requires KeysCover(conns, keys) && RankedBy(conns, rank)
    requires Worklist(conns, start, nodeIds, needsChecking, popped) && needsChecking != []
    ensures Worklist(conns, start, nodeIds', needsChecking', popped + 1)
    ensures Weight(conns, keys, rank, needsChecking') < Weight(conns, keys, rank, needsChecking)
  {
    var nodeId := needsChecking[0];
    ghost var succ := Successors(conns, keys, nodeId);
    WorklistStep(conns, keys, start, nodeIds, popped);
    var pushed;
    nodeIds', pushed := PushSuccessors(conns, keys, nodeId, nodeIds, needsChecking);
    needsChecking' := pushed[1..];
    TailOfAppend(nodeIds, succ, popped);
    assert needsChecking' == needsChecking[1..] + succ;
    WeightStep(conns, keys, rank, needsChecking);
  }

  /**
   * The nodes whose computation depends on `start`: the source's `node_ids`, built by a
   * worklist without a visited set. It terminates because the graph is acyclic (each step
   * lowers `Weight` by one), and a node is listed exactly when it is reachable from `start`.
   */
  method DependentNodes(conns: Connections, keys: seq<int>, start: int, ghost rank: int -> nat)
    returns (nodeIds: seq<int>)
    requires KeysCover(conns, keys)
    requires RankedBy(conns, rank)
    ensures forall y :: y in nodeIds <==> Reaches(conns, start, y)
  {
    var needsChecking;
    nodeIds, needsChecking := PushSuccessors(conns, keys, start, [], []);
    WorklistStart(conns, keys, start);
    ghost var popped: nat := 0;
    while needsChecking != []
      invariant Worklist(conns, start, nodeIds, needsChecking, popped)
      decreases Weight(conns, keys, rank, needsChecking)
    {
      nodeIds, needsChecking := CheckNext(conns, keys, start, rank, nodeIds, needsChecking, popped);
      popped := popped + 1;
    }
    WorklistDone(conns, start, nodeIds);
  }

  /** A connection joins `a` and `b` in one direction or the other. */
  ghost predicate EdgeEither(conns: Connections, a: int, b: int)
  {
    Edge(conns, a, b) || Edge(conns, b, a)
  }

  /** The duplicate-edge scan of add-connection mutation: stops at the first connection joining the pair either way. */
  method ConnectionExists(conns: Connections, keys: seq<int>, a: int, b: int) returns (found: bool)
    requires KeysCover(conns, keys)
    ensures found <==> EdgeEither(conns, a, b)
  {
    found := false;
    var i := 0;
    while i < |keys|
      invariant 0 <= i <= |keys|
      invariant found ==> EdgeEither(conns, a, b)
      invariant !found ==> forall j :: 0 <= j < i ==>
        !(conns[keys[j]].inNode == a && conns[keys[j]].outNode == b) &&
        !(conns[keys[j]].inNode == b && conns[keys[j]].outNode == a)
    {
      var key := keys[i];
      var con := conns[key];
      if con.inNode == a && con.outNode == b {
        assert key in conns && conns[key].inNode == a && conns[key].outNode == b;
        found := true;
        break;
      } else if con.inNode == b && con.outNode == a {
        assert key in conns && conns[key].inNode == b && conns[key].outNode == a;
        found := true;
        break;
      }
      i := i + 1;
    }
    if !found {
      forall k | k in conns ensures !(conns[k].inNode == a && conns[k].outNode == b) && !(conns[k].inNode == b && conns[k].outNode == a) {
        var j :| 0 <= j < |keys| && keys[j] == k;
      }
      assert !Edge(conns, a, b) && !Edge(conns, b, a);
    }
  }

  // ----- acyclicity is preserved by the two structural mutations -----

  ghost predicate ReachesOrIs(conns: Connections, x: int, a: int)
  {
    x == a || Reaches(conns, x, a)
  }

  /**
   * Inserting `a -> b` (possibly over an existing key) keeps the graph acyclic
   * when `b` does not reach `a`: the rank rises by `rank(b) + 1` on everything that reaches `a`.
   */
  lemma {:induction false} AddEdgeKeepsAcyclic(conns: Connections, key: int, c: ConnectionGene)
    requires Acyclic(conns)
    requires c.inNode != c.outNode && !Reaches(conns, c.outNode, c.inNode)
    ensures Acyclic(conns[key := c])
  {
    var rank :| RankedBy(conns, rank);
    var a, b := c.inNode, c.outNode;
    var rank': int -> nat := x => if ReachesOrIs(conns, x, a) then rank(x) + rank(b) + 1 else rank(x);
    var conns' := conns[key := c];
    forall k | k in conns' ensures rank'(conns'[k].inNode) > rank'(conns'[k].outNode) {
      if k != key {
        var u, v := conns[k].inNode, conns[k].outNode;
        assert Edge(conns, u, v);
        if ReachesOrIs(conns, v, a) {
          if v == a {
            EdgeReaches(conns, u, v);
          } else {
            EdgeThenReaches(conns, u, v, a);
          }
        }
      }
    }
    assert RankedBy(conns', rank');
  }

  /**
   * Splitting connection `k` through a node id `n` that no connection touches keeps the graph
   * acyclic, even if the two new keys overwrite existing connections.
   */
  lemma {:induction false} SplitKeepsAcyclic(conns: Connections, k: int, n: int, inKey: int, outKey: int,
                          toNew: ConnectionGene, fromNew: ConnectionGene)
    requires Acyclic(conns) && k in conns
    requires forall j :: j in conns ==> conns[j].inNode != n && conns[j].outNode != n
    requires toNew.inNode == conns[k].inNode && toNew.outNode == n
    requires fromNew.inNode == n && fromNew.outNode == conns[k].outNode
    ensures Acyclic(conns[k := conns[k].Disable()][inKey := toNew][outKey := fromNew])
  {
    var rank :| RankedBy(conns, rank);
    var out := conns[k].outNode;
    var rank': int -> nat := x => if x == n then 2 * rank(out) + 1 else 2 * rank(x);
    var conns' := conns[k := conns[k].Disable()][inKey := toNew][outKey := fromNew];
    forall j | j in conns' ensures rank'(conns'[j].inNode) > rank'(conns'[j].outNode) {
      if j != outKey && j != inKey && j != k {
        assert conns'[j] == conns[j];
      }
    }
    assert RankedBy(conns', rank');
  }
}
