// Node genes: the neurons of a genome, keyed by an id issued by the node counter.
module NodeGenes {

  datatype NodeGeneType = Input | Hidden | Output

  /** A node gene. `layer` is carried but constrains nothing in the core. */
  datatype NodeGene = NodeGene(nodeType: NodeGeneType, id: int, layer: int)
  {
    /** The getters return the stored values. */
    function GetType(): (t: NodeGeneType)
      ensures t == nodeType
    {
      nodeType
    }

    function GetId(): (i: int)
      ensures i == id
    {
      id
    }

    function GetLayer(): (l: int)
      ensures l == layer
    {
      layer
    }

    /** `set_layer`: only the layer changes; type and id stay fixed. */
    function SetLayer(newLayer: int): (n: NodeGene)
      ensures n.layer == newLayer
      ensures n.nodeType == nodeType && n.id == id
    {
      this.(layer := newLayer)
    }
  }

  /** `NodeGene::new` stores its three arguments. */
  function NewNodeGene(nodeType: NodeGeneType, id: int, layer: int): (n: NodeGene)
    ensures n.GetType() == nodeType && n.GetId() == id && n.GetLayer() == layer
  {
    NodeGene(nodeType, id, layer)
  }

  /** No operation on a node gene changes its type or id: a node keeps its identity. */
  lemma {:induction false} SetLayerKeepsIdentity(n: NodeGene, l1: int, l2: int)
    ensures n.SetLayer(l1).SetLayer(l2) == n.SetLayer(l2)
    ensures n.SetLayer(n.layer) == n
  {
  }
}
