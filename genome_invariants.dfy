// The structural facts every genome of a population keeps, and that the
// operators below either preserve or need.
module GenomeInvariants {
  import opened GenomeBase
  import opened GenomeGraph

  /**
   * A genome is well formed when its genes sit under their own ids, every
   * connection joins two of its nodes, its connection graph has no cycle
   * and it has at least one node.
   */
  ghost predicate GenomeOk(g: Genome)
  {
    WellKeyed(g) && EndpointsPresent(g) && Acyclic(g.connections) && |g.nodes| > 0
  }

  /** An innovation number present in both genomes names the same edge in both. */
  predicate Consistent(g1: Genome, g2: Genome)
  {
    forall k :: k in g1.connections && k in g2.connections ==>
      g1.connections[k].inNode == g2.connections[k].inNode &&
      g1.connections[k].outNode == g2.connections[k].outNode
  }

  ghost predicate PopulationOk(pool: seq<Genome>)
  {
    && (forall i :: 0 <= i < |pool| ==> GenomeOk(pool[i]))
    && (forall i, j :: 0 <= i < |pool| && 0 <= j < |pool| ==> Consistent(pool[i], pool[j]))
  }

  /** No connection key in the population exceeds `bound` (the connection counter's value). */
  predicate ConnectionKeysAtMost(pool: seq<Genome>, bound: int)
  {
    forall i :: 0 <= i < |pool| ==> KeysAtMost(pool[i].connections.Keys, bound)
  }

  /** No node key in the population exceeds `bound` (the node counter's value). */
  predicate NodeKeysAtMost(pool: seq<Genome>, bound: int)
  {
    forall i :: 0 <= i < |pool| ==> KeysAtMost(pool[i].nodes.Keys, bound)
  }
}
