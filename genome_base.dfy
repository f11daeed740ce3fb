// The genome record: node genes keyed by id, connection genes keyed by innovation number.
module GenomeBase {
  import opened NodeGenes
  import opened ConnectionGenes

  datatype Genome = Genome(connections: map<int, ConnectionGene>, nodes: map<int, NodeGene>)

  /** `Genome::new`: no nodes and no connections. */
  function EmptyGenome(): (g: Genome)
    ensures g.connections == map[] && g.nodes == map[]
  {
    Genome(map[], map[])
  }

  /** The getters hand out copies of the two maps. */
  function GetConnectionGenes(g: Genome): (m: map<int, ConnectionGene>)
    ensures m == g.connections
  {
    g.connections
  }

  function GetNodeGenes(g: Genome): (m: map<int, NodeGene>)
    ensures m == g.nodes
  {
    g.nodes
  }

  /** `add_node_gene` inserts under the gene's own id, replacing any node already there. */
  function AddNodeGene(g: Genome, gene: NodeGene): (r: Genome)
    ensures r.connections == g.connections
    ensures r.nodes.Keys == g.nodes.Keys + {gene.id} && r.nodes[gene.id] == gene
    ensures forall k :: k in g.nodes && k != gene.id ==> r.nodes[k] == g.nodes[k]
  {
    g.(nodes := g.nodes[gene.id := gene])
  }

  /** `add_connection_gene` inserts under the gene's innovation number, replacing any gene already there. */
  function AddConnectionGene(g: Genome, gene: ConnectionGene): (r: Genome)
    ensures r.nodes == g.nodes
    ensures r.connections.Keys == g.connections.Keys + {gene.innovation}
    ensures r.connections[gene.innovation] == gene
    ensures forall k :: k in g.connections && k != gene.innovation ==> r.connections[k] == g.connections[k]
  {
    g.(connections := g.connections[gene.innovation := gene])
  }

  /** Every gene sits under its own id or innovation number (what the two builders maintain). */
  predicate WellKeyed(g: Genome)
  {
    && (forall k :: k in g.nodes ==> g.nodes[k].id == k)
    && (forall k :: k in g.connections ==> g.connections[k].innovation == k)
  }

  /** Every connection joins two nodes of the same genome. */
  predicate EndpointsPresent(g: Genome)
  {
    forall k :: k in g.connections ==> g.connections[k].inNode in g.nodes && g.connections[k].outNode in g.nodes
  }

  /** Every key is at most the counter's current value, so the counter's next value is fresh. */
  predicate KeysAtMost(keys: set<int>, bound: int)
  {
    forall k :: k in keys ==> k <= bound
  }

  /**
   * Building a genome with the two builders keeps it well keyed, and a builder
   * called with a fresh key adds exactly one gene.
   */
  lemma {:induction false} BuildersKeepKeying(g: Genome, n: NodeGene, c: ConnectionGene)
    requires WellKeyed(g)
    ensures WellKeyed(AddNodeGene(g, n)) && WellKeyed(AddConnectionGene(g, c))
    ensures n.id !in g.nodes ==> |AddNodeGene(g, n).nodes| == |g.nodes| + 1
    ensures c.innovation !in g.connections ==> |AddConnectionGene(g, c).connections| == |g.connections| + 1
    ensures c.innovation in g.connections ==> |AddConnectionGene(g, c).connections| == |g.connections|
  {
  }
}
