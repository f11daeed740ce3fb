// Connection genes: weighted edges between two node ids, tagged with an innovation number.
module ConnectionGenes {

  datatype ConnectionGene = ConnectionGene(
    inNode: int,
    outNode: int,
    weight: real,
    expressed: bool,
    innovation: int)
  {
    function GetInNode(): (n: int)
      ensures n == inNode
    {
      inNode
    }

    function GetOutNode(): (n: int)
      ensures n == outNode
    {
      outNode
    }

    function GetWeight(): (w: real)
      ensures w == weight
    {
      weight
    }

    function IsExpressed(): (e: bool)
      ensures e == expressed
    {
      expressed
    }

    function GetInnovation(): (i: int)
      ensures i == innovation
    {
      innovation
    }

    /** `get_released` rebuilds the gene from its own fields: an equal gene. */
    function GetReleased(): (c: ConnectionGene)
      ensures c == this
    {
      ConnectionGene(inNode, outNode, weight, expressed, innovation)
    }

    /** `disable` turns the gene off and changes nothing else. */
    function Disable(): (c: ConnectionGene)
      ensures !c.expressed
      ensures SameEdge(c, this) && c.weight == weight
    {
      this.(expressed := false)
    }

    /** `set_weight` changes only the weight. */
    function SetWeight(w: real): (c: ConnectionGene)
      ensures c.weight == w
      ensures SameEdge(c, this) && c.expressed == expressed
    {
      this.(weight := w)
    }
  }

  /** Two genes describe the same edge with the same innovation number. */
  predicate SameEdge(a: ConnectionGene, b: ConnectionGene)
  {
    a.inNode == b.inNode && a.outNode == b.outNode && a.innovation == b.innovation
  }

  /** `ConnectionGene::new` stores all five fields, and the getters return them. */
  function NewConnectionGene(inNode: int, outNode: int, weight: real, expressed: bool, innovation: int): (c: ConnectionGene)
    ensures c.GetInNode() == inNode && c.GetOutNode() == outNode && c.GetWeight() == weight
    ensures c.IsExpressed() == expressed && c.GetInnovation() == innovation
  {
    ConnectionGene(inNode, outNode, weight, expressed, innovation)
  }

  /** Disabling is idempotent, and disabling or re-weighting never changes the edge or its innovation. */
  lemma {:induction false} DisableIdempotent(c: ConnectionGene, w: real)
    ensures c.Disable().Disable() == c.Disable()
    ensures !c.expressed ==> c.Disable() == c
    ensures c.SetWeight(w).Disable() == c.Disable().SetWeight(w)
  {
  }
}
