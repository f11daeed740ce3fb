// The mutation gates applied to a freshly crossed child: weight mutation, then
// (for a species) the add-node mutation, then the add-connection mutation.
module Breeding {
  import opened Innovation
  import opened Configuration
  import opened GenomeBase
  import opened GenomeGraph
  import opened GenomeInvariants
  import opened GenomeMutation
  import opened GenomeCrossover
  import opened FitnessGenomes

  /** Which of the three gates opened: each opens when its draw is below its rate. */
  datatype Gates = Gates(mutate: bool, split: bool, connect: bool)

  /** Some connection of `g` is expressed, so the add-node mutation has one to split. */
  predicate HasExpressed(g: Genome)
  {
    exists k :: k in g.connections && g.connections[k].expressed
  }

  /** `y` is `x` after the weight-mutation loop at perturbing rate `perturbingRate`. */
  ghost predicate Reweighed(x: Genome, y: Genome, perturbingRate: real)
  {
    && WeightsOnly(x, y)
    && (perturbingRate <= 0.0 ==> forall k :: k in y.connections ==> -2.0 <= y.connections[k].weight < 2.0)
    && (perturbingRate >= 1.0 ==>
          forall k :: k in x.connections && x.connections[k].weight == 0.0 ==> y.connections[k].weight == 0.0)
  }

  /**
   * `z` is `y` after the add-node mutation: one expressed connection split by a
   * fresh node and two fresh innovation numbers, or `y` itself when none is expressed.
   */
  ghost predicate SplitOrSame(y: Genome, z: Genome)
  {
    if HasExpressed(y) then
      exists k, n, c1, c2, layer :: k in y.connections && y.connections[k].expressed &&
        n !in y.nodes && c1 !in y.connections && c2 !in y.connections && c1 != c2 &&
        z == Split(y, k, n, c1, c2, layer)
    else
      z == y
  }

  /** `child` is `z`, or `z` with one accepted new connection (all 100 attempts may fail). */
  ghost predicate MaybeConnected(z: Genome, child: Genome)
  {
    || child == z
    || exists key, k1, k2, w :: key !in z.connections && IsAcceptedInsert(z, child, key, k1, k2, w)
  }

  /**
   * The three gates in order, through `y` and `z`: reweigh, split, connect. A
   * closed gate leaves its stage's genome as it was; an open one applies its mutation.
   */
  ghost predicate Stages(x: Genome, y: Genome, z: Genome, child: Genome, perturbingRate: real, gates: Gates)
  {
    && (if gates.mutate then Reweighed(x, y, perturbingRate) else y == x)
    && (if gates.split then SplitOrSame(y, z) else z == y)
    && (if gates.connect then MaybeConnected(z, child) else child == z)
  }

  ghost predicate GrownFrom(x: Genome, child: Genome, perturbingRate: real, gates: Gates)
  {
    exists y, z :: Stages(x, y, z, child, perturbingRate, gates)
  }

  /**
   * The counters while `x` grows under `gates`: a split takes one node value and
   * two connection values, a successful connection one more connection value.
   */
  ghost predicate CountersAdvanced(x: Genome, gates: Gates, nodes: int, nodes': int, connections: int, connections': int)
  {
    var split := gates.split && HasExpressed(x);
    var c := connections + (if split then 2 else 0);
    && nodes' == nodes + (if split then 1 else 0)
    && (connections' == c || (gates.connect && connections' == c + 1))
  }

  /** A weight-only change keeps which connections are expressed. */
  lemma {:induction false} WeightsOnlyKeepsExpressed(x: Genome, y: Genome)
    requires WeightsOnly(x, y)
    ensures HasExpressed(y) == HasExpressed(x)
  {
    if HasExpressed(x) {
      var k :| k in x.connections && x.connections[k].expressed;
      assert k in y.connections && y.connections[k].expressed;
    }
    if HasExpressed(y) {
      var k :| k in y.connections && y.connections[k].expressed;
      assert k in x.connections && x.connections[k].expressed;
    }
  }

  /** The structural facts an offspring inherits from the genome it grew from. */
  lemma {:induction false} GrowingKeepsStructure(x: Genome, child: Genome, perturbingRate: real, gates: Gates)
    requires GrownFrom(x, child, perturbingRate, gates)
    ensures x.connections.Keys <= child.connections.Keys
    ensures x.nodes.Keys <= child.nodes.Keys
    ensures !gates.split ==> child.nodes == x.nodes
    ensures gates == Gates(false, false, false) ==> child == x
  {
    var y, z :| Stages(x, y, z, child, perturbingRate, gates);
    assert y.connections.Keys == x.connections.Keys && y.nodes == x.nodes;
    if gates.split {
      SplitOrSameGrows(y, z);
    }
    if child != z {
      var key, k1, k2, w :| key !in z.connections && IsAcceptedInsert(z, child, key, k1, k2, w);
      AcceptedInsertShape(z, child, key, k1, k2, w);
    }
  }

  lemma {:induction false} SplitOrSameGrows(y: Genome, z: Genome)
    requires SplitOrSame(y, z)
    ensures y.connections.Keys <= z.connections.Keys && y.nodes.Keys <= z.nodes.Keys
  {
    if HasExpressed(y) {
      var k, n, c1, c2, layer :| k in y.connections && y.connections[k].expressed &&
        n !in y.nodes && c1 !in y.connections && c2 !in y.connections && c1 != c2 &&
        z == Split(y, k, n, c1, c2, layer);
    }
  }

  /**
   * Each gate fires exactly when its draw in [0, 1) is below its rate. With
   * `addNodes` false the add-node gate stays closed, as in `evaluate_generation`,
   * where its call is switched off.
   */
  method MutateChild(x: Genome, config: Config, dMutate: real, dNode: real, dConnect: real, addNodes: bool,
                     connectionInnovation: Counter, nodeInnovation: Counter) returns (child: Genome)
    requires connectionInnovation != nodeInnovation
    requires GenomeOk(x)
    requires KeysAtMost(x.connections.Keys, connectionInnovation.current)
    requires KeysAtMost(x.nodes.Keys, nodeInnovation.current)
    modifies connectionInnovation, nodeInnovation
    ensures GrownFrom(x, child, config.perturbingRate,
                      Gates(dMutate < config.mutationRate, addNodes && dNode < config.addNodeRate,
                            dConnect < config.addConnectionRate))
    ensures CountersAdvanced(x, Gates(dMutate < config.mutationRate, addNodes && dNode < config.addNodeRate,
                                      dConnect < config.addConnectionRate),
                             old(nodeInnovation.current), nodeInnovation.current,
                             old(connectionInnovation.current), connectionInnovation.current)
    ensures GenomeOk(child)
    ensures KeysAtMost(child.connections.Keys, connectionInnovation.current)
    ensures KeysAtMost(child.nodes.Keys, nodeInnovation.current)
    ensures forall h :: Consistent(x, h) && KeysAtMost(h.connections.Keys, old(connectionInnovation.current)) ==>
      Consistent(child, h) && Consistent(h, child)
  {
    var gates := Gates(dMutate < config.mutationRate, addNodes && dNode < config.addNodeRate,
                       dConnect < config.addConnectionRate);
    var y := x;
    if gates.mutate {
      y := Mutation(x, config.perturbingRate);
    }
    assert WeightsOnly(x, y);
    WeightsOnlyKeepsExpressed(x, y);
    WeightsOnlyKeepsStructure(x, y, x);
    forall h | Consistent(x, h) ensures Consistent(y, h) && Consistent(h, y) {
      WeightsOnlyKeepsStructure(x, y, h);
    }
    var z := AddNodeGate(y, config, dNode, addNodes, connectionInnovation, nodeInnovation);
    child := z;
    if gates.connect {
      var success;
      child, success := AddConnectionMutation(z, connectionInnovation, 100);
      if success {
        Connected(z, child, connectionInnovation.current);
      }
    }
    assert Stages(x, y, z, child, config.perturbingRate, gates);
  }

  /** The add-node gate. */
  method AddNodeGate(y: Genome, config: Config, dNode: real, addNodes: bool,
                     connectionInnovation: Counter, nodeInnovation: Counter) returns (z: Genome)
    requires connectionInnovation != nodeInnovation
    requires GenomeOk(y)
    requires KeysAtMost(y.connections.Keys, connectionInnovation.current)
    requires KeysAtMost(y.nodes.Keys, nodeInnovation.current)
    modifies connectionInnovation, nodeInnovation
    ensures if addNodes && dNode < config.addNodeRate then SplitOrSame(y, z) else z == y
    ensures var split := addNodes && dNode < config.addNodeRate && HasExpressed(y);
      && nodeInnovation.current == old(nodeInnovation.current) + (if split then 1 else 0)
      && connectionInnovation.current == old(connectionInnovation.current) + (if split then 2 else 0)
    ensures addNodes && dNode < config.addNodeRate && HasExpressed(y) ==>
      var n, c := nodeInnovation.current, connectionInnovation.current;
      && n in z.nodes
      && exists k :: k in y.connections && y.connections[k].expressed && z == Split(y, k, n, c - 1, c, z.nodes[n].layer)
    ensures GenomeOk(z)
    ensures KeysAtMost(z.connections.Keys, connectionInnovation.current)
    ensures KeysAtMost(z.nodes.Keys, nodeInnovation.current)
    ensures forall h :: Consistent(y, h) && KeysAtMost(h.connections.Keys, old(connectionInnovation.current)) ==>
      Consistent(z, h) && Consistent(h, z)
  {
    z := y;
    if addNodes && dNode < config.addNodeRate {
      z := AddNodeMutation(y, connectionInnovation, nodeInnovation);
      if HasExpressed(y) {
        var n, c := nodeInnovation.current, connectionInnovation.current;
        var layer := z.nodes[n].layer;
        var k :| k in y.connections && y.connections[k].expressed && z == Split(y, k, n, c - 1, c, layer);
        SplitStep(y, k, n, c, layer);
      }
    }
  }

  /** The add-node step's facts, once it split connection `k` with node `n` and innovations `c - 1`, `c`. */
  lemma {:induction false} SplitStep(y: Genome, k: int, n: int, c: int, layer: int)
    requires GenomeOk(y) && k in y.connections && y.connections[k].expressed
    requires KeysAtMost(y.connections.Keys, c - 2) && KeysAtMost(y.nodes.Keys, n - 1)
    ensures SplitOrSame(y, Split(y, k, n, c - 1, c, layer))
    ensures GenomeOk(Split(y, k, n, c - 1, c, layer))
    ensures KeysAtMost(Split(y, k, n, c - 1, c, layer).connections.Keys, c)
    ensures KeysAtMost(Split(y, k, n, c - 1, c, layer).nodes.Keys, n)
    ensures forall h :: Consistent(y, h) && KeysAtMost(h.connections.Keys, c - 2) ==>
      Consistent(Split(y, k, n, c - 1, c, layer), h) && Consistent(h, Split(y, k, n, c - 1, c, layer))
  {
    SplitKeepsGenomeOk(y, k, n, c - 1, c, layer);
    forall h | Consistent(y, h) && KeysAtMost(h.connections.Keys, c - 2)
      ensures Consistent(Split(y, k, n, c - 1, c, layer), h) && Consistent(h, Split(y, k, n, c - 1, c, layer))
    {
      SplitKeepsConsistent(y, h, k, n, c - 1, c, layer);
    }
  }

  /** The add-connection step's facts, once it succeeded with innovation `key`. */
  lemma {:induction false} Connected(z: Genome, child: Genome, key: int)
    requires GenomeOk(z) && KeysAtMost(z.connections.Keys, key - 1)
    requires exists k1, k2, w :: IsAcceptedInsert(z, child, key, k1, k2, w)
    ensures MaybeConnected(z, child)
    ensures GenomeOk(child)
    ensures KeysAtMost(child.connections.Keys, key)
    ensures forall h :: Consistent(z, h) && KeysAtMost(h.connections.Keys, key - 1) ==>
      Consistent(child, h) && Consistent(h, child)
  {
    var k1, k2, w :| IsAcceptedInsert(z, child, key, k1, k2, w);
    AcceptedInsertKeepsGenomeOk(z, child, key, k1, k2, w);
    forall h | Consistent(z, h) && KeysAtMost(h.connections.Keys, key - 1)
      ensures Consistent(child, h) && Consistent(h, child)
    {
      AcceptedInsertKeepsConsistent(z, child, h, key, k1, k2, w);
    }
  }

  /** `h` agrees on shared innovation numbers with every genome of the pool. */
  predicate AgreesWithPool(pool: seq<FitnessGenome>, h: Genome)
  {
    forall i :: 0 <= i < |pool| ==> Consistent(pool[i].genome, h)
  }

  /** Members of a well-formed pool are well formed and agree with each other and with the counters. */
  lemma {:induction false} PoolMember(s: seq<FitnessGenome>, a: FitnessGenome, b: FitnessGenome, connections: int, nodes: int)
    requires a in s && b in s && PopulationOk(GenomesOf(s))
    requires ConnectionKeysAtMost(GenomesOf(s), connections) && NodeKeysAtMost(GenomesOf(s), nodes)
    ensures GenomeOk(a.genome) && Consistent(a.genome, b.genome)
    ensures KeysAtMost(a.genome.connections.Keys, connections) && KeysAtMost(a.genome.nodes.Keys, nodes)
  {
    var i :| 0 <= i < |s| && s[i] == a;
    var j :| 0 <= j < |s| && s[j] == b;
    assert GenomesOf(s)[i] == a.genome && GenomesOf(s)[j] == b.genome;
  }

  /**
   * Crossover of two members of a well-formed pool, fitter genome first, followed
   * by the mutation gates. The child is well formed, its keys stay within the
   * counters, and it agrees with every genome that agrees with the pool.
   */
  method Breed(ghost pool: seq<FitnessGenome>, first: FitnessGenome, second: FitnessGenome, config: Config,
               dMutate: real, dNode: real, dConnect: real, addNodes: bool,
               connectionInnovation: Counter, nodeInnovation: Counter) returns (child: Genome)
    requires connectionInnovation != nodeInnovation
    requires first in pool && second in pool
    requires PopulationOk(GenomesOf(pool))
    requires ConnectionKeysAtMost(GenomesOf(pool), connectionInnovation.current)
    requires NodeKeysAtMost(GenomesOf(pool), nodeInnovation.current)
    modifies connectionInnovation, nodeInnovation
    ensures exists crossed ::
              var gates := Gates(dMutate < config.mutationRate, addNodes && dNode < config.addNodeRate,
                                 dConnect < config.addConnectionRate);
              && IsCrossover(first.genome, second.genome, config.disabledGeneInheritingChance, crossed)
              && GrownFrom(crossed, child, config.perturbingRate, gates)
              && CountersAdvanced(crossed, gates, old(nodeInnovation.current), nodeInnovation.current,
                                  old(connectionInnovation.current), connectionInnovation.current)
    ensures GenomeOk(child)
    ensures KeysAtMost(child.connections.Keys, connectionInnovation.current)
    ensures KeysAtMost(child.nodes.Keys, nodeInnovation.current)
    ensures old(connectionInnovation.current) <= connectionInnovation.current
    ensures old(nodeInnovation.current) <= nodeInnovation.current
    ensures !addNodes ==> nodeInnovation.current == old(nodeInnovation.current)
    ensures forall h :: AgreesWithPool(pool, h) &&
                        KeysAtMost(h.connections.Keys, old(connectionInnovation.current)) ==>
      Consistent(child, h) && Consistent(h, child)
  {
    ghost var c0 := connectionInnovation.current;
    PoolMember(pool, first, second, c0, nodeInnovation.current);
    PoolMember(pool, second, first, c0, nodeInnovation.current);
    var chance := config.disabledGeneInheritingChance;
    var crossed := Crossover(first.genome, second.genome, chance);
    CrossoverKeepsInvariants(first.genome, second.genome, chance, crossed, first.genome);
    forall h | Consistent(first.genome, h) ensures Consistent(crossed, h) && Consistent(h, crossed) {
      CrossoverKeepsInvariants(first.genome, second.genome, chance, crossed, h);
    }
    child := MutateChild(crossed, config, dMutate, dNode, dConnect, addNodes, connectionInnovation, nodeInnovation);
    forall h | AgreesWithPool(pool, h) && KeysAtMost(h.connections.Keys, c0)
      ensures Consistent(child, h) && Consistent(h, child)
    {
      var i :| 0 <= i < |pool| && pool[i] == first;
    }
  }
}
