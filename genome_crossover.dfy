// Crossover: the child takes every node and every innovation number of the
// fitter parent; a gene both parents carry is taken from either one.
module GenomeCrossover {
  import opened ConnectionGenes
  import opened GenomeBase
  import opened GenomeGraph
  import opened GenomeInvariants
  import opened Sorting

  /**
   * How the child's gene `c` under key `k` may have come about: copied from the
   * fitter parent when the other lacks `k`; otherwise either parent's copy, which
   * may be force-disabled only if one of the copies is disabled and the inheriting
   * chance is positive, and is always disabled then when the chance is at least 1.
   */
  predicate InheritedGene(p1: Genome, p2: Genome, chance: real, k: int, c: ConnectionGene)
    requires k in p1.connections
  {
    if k in p2.connections then
      var a, b := p1.connections[k], p2.connections[k];
      var disabled := !a.expressed || !b.expressed;
      && (c == a || c == b || (disabled && chance > 0.0 && (c == a.Disable() || c == b.Disable())))
      && (disabled && chance >= 1.0 ==> !c.expressed)
    else
      c == p1.connections[k]
  }

  /** The shape of every possible crossover outcome. */
  predicate IsCrossover(p1: Genome, p2: Genome, chance: real, child: Genome)
  {
    && child.nodes == p1.nodes
    && child.connections.Keys == p1.connections.Keys
    && forall k :: k in p1.connections ==> InheritedGene(p1, p2, chance, k, child.connections[k])
  }

  /** The first loop of `crossover`: every node of the fitter parent, added under its id. */
  method CopyNodes(p1: Genome) returns (child: Genome)
    requires WellKeyed(p1)
    ensures child == Genome(map[], p1.nodes)
  {
    child := EmptyGenome();
    var nodeKeys := KeysToVec(p1.nodes.Keys);
    var i := 0;
    while i < |nodeKeys|
      invariant 0 <= i <= |nodeKeys|
      invariant child.connections == map[]
      invariant forall k :: k in child.nodes <==> k in nodeKeys[..i]
      invariant forall k :: k in child.nodes ==> k in p1.nodes && child.nodes[k] == p1.nodes[k]
    {
      var key := nodeKeys[i];
      assert key in nodeKeys;
      var node := p1.nodes[key];
      assert node.id == key;
      child := AddNodeGene(child, node);
      assert nodeKeys[..i + 1] == nodeKeys[..i] + [key];
      i := i + 1;
    }
    assert nodeKeys[..|nodeKeys|] == nodeKeys;
    forall x ensures x in child.nodes.Keys <==> x in p1.nodes.Keys {
      assert x in nodeKeys <==> x in p1.nodes.Keys;
    }
    assert child.nodes.Keys == p1.nodes.Keys;
    assert forall k :: k in p1.nodes ==> k in child.nodes && child.nodes[k] == p1.nodes[k];
  }

  /**
   * One round of the second loop: the gene the child receives for the fitter parent's
   * gene under `key`. The coin flip and the disabling draw in [0, 1) are arbitrary choices.
   */
  method InheritGene(p1: Genome, p2: Genome, chance: real, key: int) returns (childCon: ConnectionGene)
    requires WellKeyed(p1) && WellKeyed(p2) && key in p1.connections
    ensures InheritedGene(p1, p2, chance, key, childCon)
    ensures childCon.innovation == key
  {
    var parent1Con := p1.connections[key];
    if parent1Con.GetInnovation() in p2.connections {
      var parent2Con := p2.connections[parent1Con.GetInnovation()];
      var disabled := !parent1Con.IsExpressed() || !parent2Con.IsExpressed();
      var coin: bool :| true;
      childCon := if coin then parent1Con else parent2Con;
      var draw: real :| 0.0 <= draw < 1.0;
      if disabled && draw < chance {
        childCon := childCon.Disable();
      }
    } else {
      childCon := parent1Con;
    }
  }

  /**
   * `crossover(parent_1, parent_2, chance)`, `parent_1` being the fitter parent.
   * The child's genes are inserted under their own innovation numbers, which are
   * their keys in both parents.
   */
  method Crossover(p1: Genome, p2: Genome, chance: real) returns (child: Genome)
    requires WellKeyed(p1) && WellKeyed(p2)
    ensures IsCrossover(p1, p2, chance, child)
  {
    child := CopyNodes(p1);
    var conKeys := KeysToVec(p1.connections.Keys);
    var j := 0;
    while j < |conKeys|
      invariant 0 <= j <= |conKeys|
      invariant child.nodes == p1.nodes
      invariant forall k :: k in child.connections <==> k in conKeys[..j]
      invariant forall k :: k in child.connections ==> k in p1.connections && InheritedGene(p1, p2, chance, k, child.connections[k])
    {
      var key := conKeys[j];
      assert key in conKeys;
      var childCon := InheritGene(p1, p2, chance, key);
      child := AddConnectionGene(child, childCon);
      assert conKeys[..j + 1] == conKeys[..j] + [key];
      j := j + 1;
    }
    assert conKeys[..|conKeys|] == conKeys;
    forall x ensures x in child.connections.Keys <==> x in p1.connections.Keys {
      assert x in conKeys <==> x in p1.connections.Keys;
    }
  }

  /** Crossing a genome with itself gives the genome back, whatever the draws. */
  lemma {:induction false} CrossoverSelf(a: Genome, chance: real, child: Genome)
    requires IsCrossover(a, a, chance, child)
    ensures child == a
  {
    forall k | k in a.connections ensures child.connections[k] == a.connections[k] {
      assert InheritedGene(a, a, chance, k, child.connections[k]);
    }
    assert child.connections == a.connections;
  }

  /** Under consistent parents the child has exactly the fitter parent's edges. */
  lemma {:induction false} CrossoverEdges(p1: Genome, p2: Genome, chance: real, child: Genome)
    requires IsCrossover(p1, p2, chance, child) && Consistent(p1, p2)
    ensures forall k :: k in child.connections ==>
      child.connections[k].inNode == p1.connections[k].inNode &&
      child.connections[k].outNode == p1.connections[k].outNode
  {
    forall k | k in child.connections
      ensures child.connections[k].inNode == p1.connections[k].inNode
      ensures child.connections[k].outNode == p1.connections[k].outNode
    {
      assert InheritedGene(p1, p2, chance, k, child.connections[k]);
    }
  }

  /**
   * A child of a well-formed fitter parent and a well-keyed consistent partner is well
   * formed, and consistent with every genome the fitter parent is consistent with.
   */
  lemma {:induction false} CrossoverKeepsInvariants(p1: Genome, p2: Genome, chance: real, child: Genome, h: Genome)
    requires IsCrossover(p1, p2, chance, child)
    requires GenomeOk(p1) && WellKeyed(p2) && Consistent(p1, p2)
    ensures GenomeOk(child)
    ensures Consistent(p1, h) ==> Consistent(child, h) && Consistent(h, child)
  {
    CrossoverEdges(p1, p2, chance, child);
    forall k | k in child.connections ensures child.connections[k].innovation == k {
      assert InheritedGene(p1, p2, chance, k, child.connections[k]);
    }
    var rank :| RankedBy(p1.connections, rank);
    assert RankedBy(child.connections, rank);
  }
}
