// The generational loop: score, keep the best tenth, refill the population.
module Evaluation {
  import opened Innovation
  import opened NodeGenes
  import opened ConnectionGenes
  import opened GenomeGraph
  import opened Configuration
  import opened Sorting
  import opened GenomeBase
  import opened GenomeInvariants
  import opened GenomeMutation
  import opened GenomeCrossover
  import opened FitnessGenomes
  import opened Breeding

  /** `evaluate_generation` crosses the fitter parent first; on equal fitness the second drawn one. */
  function EvaluatorParents(p1: FitnessGenome, p2: FitnessGenome): (r: (FitnessGenome, FitnessGenome))
    ensures r == (p1, p2) || r == (p2, p1)
    ensures r.0.fitness >= r.1.fitness
    ensures p1.fitness == p2.fitness ==> r == (p2, p1)
  {
    if p1.fitness > p2.fitness then (p1, p2) else (p2, p1)
  }

  /** Every genome paired with the score the fitness provider gives it, in population order. */
  function Scored(genomes: seq<Genome>, fitness: Genome -> real): (r: seq<FitnessGenome>)
    ensures GenomesOf(r) == genomes
    ensures forall i :: 0 <= i < |r| ==> r[i].fitness == fitness(genomes[i])
  {
    seq(|genomes|, i requires 0 <= i < |genomes| => NewFitnessGenome(genomes[i], fitness(genomes[i])))
  }

  /**
   * A child of sexual reproduction: two survivors crossed, then grown through the
   * weight and add-connection gates, whichever opened; the add-node gate stays closed.
   */
  ghost predicate SexualChild(pool: seq<FitnessGenome>, config: Config, child: Genome)
  {
    exists i, j :: 0 <= i < |pool| && 0 <= j < |pool| &&
      exists crossed, gates: Gates ::
        && IsCrossover(EvaluatorParents(pool[i], pool[j]).0.genome, EvaluatorParents(pool[i], pool[j]).1.genome,
                       config.disabledGeneInheritingChance, crossed)
        && !gates.split
        && GrownFrom(crossed, child, config.perturbingRate, gates)
  }

  /** A child of asexual reproduction: a survivor's genome after the weight-mutation loop. */
  ghost predicate AsexualChild(pool: seq<FitnessGenome>, config: Config, child: Genome)
  {
    exists i :: 0 <= i < |pool| && Reweighed(pool[i].genome, child, config.perturbingRate)
  }

  lemma {:induction false} SexualChildIntro(pool: seq<FitnessGenome>, config: Config, i: int, j: int,
                                           crossed: Genome, gates: Gates, child: Genome)
    requires 0 <= i < |pool| && 0 <= j < |pool| && !gates.split
    requires IsCrossover(EvaluatorParents(pool[i], pool[j]).0.genome, EvaluatorParents(pool[i], pool[j]).1.genome,
                         config.disabledGeneInheritingChance, crossed)
    requires GrownFrom(crossed, child, config.perturbingRate, gates)
    ensures SexualChild(pool, config, child)
  {
  }

  ghost predicate ChildOf(pool: seq<FitnessGenome>, config: Config, child: Genome)
  {
    SexualChild(pool, config, child) || AsexualChild(pool, config, child)
  }

  /** A pool drawn from a well-formed population is well formed. */
  lemma {:induction false} SubPoolOk(genomes: seq<Genome>, pool: seq<FitnessGenome>, connections: int, nodes: int)
    requires forall p :: p in pool ==> p.genome in genomes
    requires PopulationOk(genomes) && ConnectionKeysAtMost(genomes, connections) && NodeKeysAtMost(genomes, nodes)
    ensures PopulationOk(GenomesOf(pool))
    ensures ConnectionKeysAtMost(GenomesOf(pool), connections) && NodeKeysAtMost(GenomesOf(pool), nodes)
  {
    var gs := GenomesOf(pool);
    forall i | 0 <= i < |gs| ensures exists k :: 0 <= k < |genomes| && genomes[k] == gs[i] {
      assert pool[i] in pool;
    }
  }

  /** The survivors are the fittest `len / 10 + 1` of the scored population, and come from it. */
  lemma {:induction false} SurvivorsFacts(genomes: seq<Genome>, fitness: Genome -> real)
    requires genomes != []
    ensures var ranked := SortDesc(Scored(genomes, fitness), FitnessOf);
      && |genomes| / 10 + 1 <= |ranked|
      && SortedDesc(ranked, FitnessOf)
      && forall p :: p in ranked[..|genomes| / 10 + 1] ==> p.genome in genomes
  {
    var scored := Scored(genomes, fitness);
    var ranked := SortDesc(scored, FitnessOf);
    SortDescSorted(scored, FitnessOf);
    forall p | p in ranked[..|genomes| / 10 + 1] ensures p.genome in genomes {
      assert p in multiset(scored);
      var i :| 0 <= i < |scored| && scored[i] == p;
      assert GenomesOf(scored)[i] == p.genome;
    }
  }

  /**
   * One pass of the refill loop: with a draw above `aSexualReproductionRate`, cross
   * two random survivors and run the weight and add-connection gates (the add-node
   * call is switched off); otherwise clone a random survivor and mutate its weights.
   */
  method Reproduce(pool: seq<FitnessGenome>, config: Config,
                   connectionInnovation: Counter, nodeInnovation: Counter) returns (child: Genome)
    requires connectionInnovation != nodeInnovation
    requires pool != []
    requires PopulationOk(GenomesOf(pool))
    requires ConnectionKeysAtMost(GenomesOf(pool), connectionInnovation.current)
    requires NodeKeysAtMost(GenomesOf(pool), nodeInnovation.current)
    modifies connectionInnovation, nodeInnovation
    ensures ChildOf(pool, config, child)
    ensures GenomeOk(child)
    ensures KeysAtMost(child.connections.Keys, connectionInnovation.current)
    ensures KeysAtMost(child.nodes.Keys, nodeInnovation.current)
    ensures old(connectionInnovation.current) <= connectionInnovation.current
    ensures nodeInnovation.current == old(nodeInnovation.current)
    ensures forall h :: AgreesWithPool(pool, h) &&
                        KeysAtMost(h.connections.Keys, old(connectionInnovation.current)) ==>
      Consistent(child, h) && Consistent(h, child)
  {
    var sexual: real :| 0.0 <= sexual < 1.0;
    if sexual > config.aSexualReproductionRate {
      var i: int :| 0 <= i < |pool|;
      var j: int :| 0 <= j < |pool|;
      var (first, second) := EvaluatorParents(pool[i], pool[j]);
      var dMutate: real :| 0.0 <= dMutate < 1.0;
      var dConnect: real :| 0.0 <= dConnect < 1.0;
      child := Breed(pool, first, second, config, dMutate, 1.0, dConnect, false, connectionInnovation, nodeInnovation);
      ghost var crossed :| IsCrossover(first.genome, second.genome, config.disabledGeneInheritingChance, crossed) &&
        GrownFrom(crossed, child, config.perturbingRate,
                  Gates(dMutate < config.mutationRate, false, dConnect < config.addConnectionRate));
      SexualChildIntro(pool, config, i, j, crossed,
                       Gates(dMutate < config.mutationRate, false, dConnect < config.addConnectionRate), child);
    } else {
      var i: int :| 0 <= i < |pool|;
      var parent := pool[i];
      PoolMember(pool, parent, parent, connectionInnovation.current, nodeInnovation.current);
      child := Mutation(parent.genome, config.perturbingRate);
      WeightsOnlyKeepsStructure(parent.genome, child, parent.genome);
      forall h | AgreesWithPool(pool, h)
        ensures Consistent(child, h) && Consistent(h, child)
      {
        assert Consistent(pool[i].genome, h);
        WeightsOnlyKeepsStructure(parent.genome, child, h);
      }
    }
  }

  /** Every genome after the first is a child of the pool. */
  ghost predicate AllChildren(pool: seq<FitnessGenome>, config: Config, next: seq<Genome>)
  {
    forall i :: 1 <= i < |next| ==> ChildOf(pool, config, next[i])
  }

  lemma {:induction false} AllChildrenAppend(pool: seq<FitnessGenome>, config: Config, next: seq<Genome>, child: Genome)
    requires AllChildren(pool, config, next) && ChildOf(pool, config, child)
    ensures AllChildren(pool, config, next + [child])
  {
    var next' := next + [child];
    forall i | 1 <= i < |next'| ensures ChildOf(pool, config, next'[i]) {
      if i < |next| {
        assert next'[i] == next[i];
      }
    }
  }

  /** The population size the refill loop reaches: it always holds the fittest genome. */
  function GenerationSize(config: Config): (n: nat)
    ensures n >= 1 && n >= config.populationSize
    ensures config.populationSize >= 1 ==> n == config.populationSize
  {
    if config.populationSize > 1 then config.populationSize else 1
  }

  /** Every genome of `next` is well formed, agrees with the others and with the pool, and is within the counters. */
  ghost predicate GenerationOk(pool: seq<FitnessGenome>, next: seq<Genome>, connections: int, nodes: int)
  {
    && PopulationOk(next)
    && (forall i, j :: 0 <= i < |next| && 0 <= j < |pool| ==>
          Consistent(next[i], pool[j].genome) && Consistent(pool[j].genome, next[i]))
    && ConnectionKeysAtMost(next, connections)
    && NodeKeysAtMost(next, nodes)
  }

  /** A well-formed genome that agrees with every member of a population can join it. */
  lemma {:induction false} PopulationAppend(next: seq<Genome>, child: Genome)
    requires PopulationOk(next) && GenomeOk(child)
    requires forall k :: 0 <= k < |next| ==> Consistent(child, next[k]) && Consistent(next[k], child)
    ensures PopulationOk(next + [child])
  {
    var next' := next + [child];
    forall i, j | 0 <= i < |next'| && 0 <= j < |next'| ensures Consistent(next'[i], next'[j]) {
      if i < |next| { assert next'[i] == next[i]; }
      if j < |next| { assert next'[j] == next[j]; }
    }
    forall i | 0 <= i < |next'| ensures GenomeOk(next'[i]) {
      if i < |next| { assert next'[i] == next[i]; }
    }
  }

  /** Appending a genome within `after` to genomes within `before <= after` keeps everything within `after`. */
  lemma {:induction false} KeysAppend(next: seq<Genome>, child: Genome, before: int, after: int, nodes: int)
    requires ConnectionKeysAtMost(next, before) && NodeKeysAtMost(next, nodes) && before <= after
    requires KeysAtMost(child.connections.Keys, after) && KeysAtMost(child.nodes.Keys, nodes)
    ensures ConnectionKeysAtMost(next + [child], after) && NodeKeysAtMost(next + [child], nodes)
  {
    var next' := next + [child];
    forall i | 0 <= i < |next'| ensures KeysAtMost(next'[i].connections.Keys, after) && KeysAtMost(next'[i].nodes.Keys, nodes) {
      if i < |next| { assert next'[i] == next[i]; }
    }
  }

  /** A child that agrees with everything agreeing with the pool agrees with pool member `j`. */
  lemma {:induction false} ChildAgreesWithMember(pool: seq<FitnessGenome>, child: Genome, before: int, j: int)
    requires 0 <= j < |pool|
    requires PopulationOk(GenomesOf(pool)) && ConnectionKeysAtMost(GenomesOf(pool), before)
    requires forall h :: AgreesWithPool(pool, h) &&
                         KeysAtMost(h.connections.Keys, before) ==>
      Consistent(child, h) && Consistent(h, child)
    ensures Consistent(child, pool[j].genome) && Consistent(pool[j].genome, child)
  {
    var gs := GenomesOf(pool);
    var h := pool[j].genome;
    assert h == gs[j];
    forall i | 0 <= i < |pool| ensures Consistent(pool[i].genome, h) {
      assert gs[i] == pool[i].genome;
    }
    assert AgreesWithPool(pool, h) && KeysAtMost(h.connections.Keys, before);
  }

  /** Appending a child that agrees with everything agreeing with the pool keeps the generation well formed. */
  lemma {:induction false} ExtendGeneration(pool: seq<FitnessGenome>, next: seq<Genome>, child: Genome, before: int, after: int, nodes: int)
    requires PopulationOk(GenomesOf(pool)) && ConnectionKeysAtMost(GenomesOf(pool), before)
    requires GenerationOk(pool, next, before, nodes)
    requires before <= after
    requires GenomeOk(child) && KeysAtMost(child.connections.Keys, after) && KeysAtMost(child.nodes.Keys, nodes)
    requires forall h :: AgreesWithPool(pool, h) &&
                         KeysAtMost(h.connections.Keys, before) ==>
      Consistent(child, h) && Consistent(h, child)
    ensures GenerationOk(pool, next + [child], after, nodes)
  {
    forall j | 0 <= j < |pool| ensures Consistent(child, pool[j].genome) && Consistent(pool[j].genome, child) {
      ChildAgreesWithMember(pool, child, before, j);
    }
    forall k | 0 <= k < |next| ensures Consistent(child, next[k]) && Consistent(next[k], child) {
      assert AgreesWithPool(pool, next[k]);
      assert KeysAtMost(next[k].connections.Keys, before);
    }
    PopulationAppend(next, child);
    KeysAppend(next, child, before, after, nodes);
    var next' := next + [child];
    forall i, j | 0 <= i < |next'| && 0 <= j < |pool|
      ensures Consistent(next'[i], pool[j].genome) && Consistent(pool[j].genome, next'[i])
    {
      if i < |next| { assert next'[i] == next[i]; }
    }
  }

  /** The `while` loop that refills the population around the fittest genome. */
  method FillGeneration(pool: seq<FitnessGenome>, config: Config,
                        connectionInnovation: Counter, nodeInnovation: Counter) returns (next: seq<Genome>)
    requires connectionInnovation != nodeInnovation
    requires pool != []
    requires PopulationOk(GenomesOf(pool))
    requires ConnectionKeysAtMost(GenomesOf(pool), connectionInnovation.current)
    requires NodeKeysAtMost(GenomesOf(pool), nodeInnovation.current)
    modifies connectionInnovation, nodeInnovation
    ensures |next| == GenerationSize(config)
    ensures next[0] == pool[0].genome
    ensures AllChildren(pool, config, next)
    ensures GenerationOk(pool, next, connectionInnovation.current, nodeInnovation.current)
    ensures old(connectionInnovation.current) <= connectionInnovation.current
    ensures nodeInnovation.current == old(nodeInnovation.current)
  {
    var gs := GenomesOf(pool);
    assert gs[0] == pool[0].genome;
    next := [pool[0].genome];
    ExtendGeneration(pool, [], pool[0].genome, connectionInnovation.current, connectionInnovation.current, nodeInnovation.current);
    assert [] + [pool[0].genome] == next;
    while |next| < config.populationSize
      invariant 1 <= |next| <= GenerationSize(config)
      invariant next[0] == pool[0].genome
      invariant AllChildren(pool, config, next)
      invariant GenerationOk(pool, next, connectionInnovation.current, nodeInnovation.current)
      invariant ConnectionKeysAtMost(GenomesOf(pool), connectionInnovation.current)
      invariant old(connectionInnovation.current) <= connectionInnovation.current
      invariant nodeInnovation.current == old(nodeInnovation.current)
      decreases config.populationSize - |next|
    {
      next := AddOffspring(pool, config, next, connectionInnovation, nodeInnovation);
    }
  }

  /** One pass of the refill loop: append one reproduced child. */
  method AddOffspring(pool: seq<FitnessGenome>, config: Config, next: seq<Genome>,
                      connectionInnovation: Counter, nodeInnovation: Counter) returns (next': seq<Genome>)
    requires connectionInnovation != nodeInnovation
    requires pool != []
    requires PopulationOk(GenomesOf(pool))
    requires ConnectionKeysAtMost(GenomesOf(pool), connectionInnovation.current)
    requires NodeKeysAtMost(GenomesOf(pool), nodeInnovation.current)
    requires GenerationOk(pool, next, connectionInnovation.current, nodeInnovation.current)
    requires AllChildren(pool, config, next)
    modifies connectionInnovation, nodeInnovation
    ensures |next'| == |next| + 1 && next'[..|next|] == next
    ensures ChildOf(pool, config, next'[|next|])
    ensures AllChildren(pool, config, next')
    ensures GenerationOk(pool, next', connectionInnovation.current, nodeInnovation.current)
    ensures old(connectionInnovation.current) <= connectionInnovation.current
    ensures nodeInnovation.current == old(nodeInnovation.current)
  {
    ghost var before := connectionInnovation.current;
    var child := Reproduce(pool, config, connectionInnovation, nodeInnovation);
    ExtendGeneration(pool, next, child, before, connectionInnovation.current, nodeInnovation.current);
    AllChildrenAppend(pool, config, next, child);
    next' := next + [child];
    assert next'[..|next|] == next;
  }

  /** The scoring loop of `evaluate_generation`. */
  method Score(genomes: seq<Genome>, fitness: Genome -> real) returns (scored: seq<FitnessGenome>)
    ensures scored == Scored(genomes, fitness)
  {
    scored := [];
    var i := 0;
    while i < |genomes|
      invariant 0 <= i <= |genomes|
      invariant scored == Scored(genomes[..i], fitness)
    {
      scored := scored + [NewFitnessGenome(genomes[i], fitness(genomes[i]))];
      i := i + 1;
    }
    assert genomes[..i] == genomes;
  }

  /**
   * The scoring, ranking and truncation of `evaluate_generation`: the scored
   * population in non-increasing fitness order, and its first `len / 10 + 1` entries.
   */
  method Rank(genomes: seq<Genome>, fitness: Genome -> real, ghost connections: int, ghost nodes: int)
    returns (ranked: seq<FitnessGenome>, survivors: seq<FitnessGenome>)
    requires genomes != []
    requires PopulationOk(genomes) && ConnectionKeysAtMost(genomes, connections) && NodeKeysAtMost(genomes, nodes)
    ensures ranked == SortDesc(Scored(genomes, fitness), FitnessOf)
    ensures survivors == ranked[..|genomes| / 10 + 1]
    ensures survivors != [] && SortedDesc(ranked, FitnessOf)
    ensures PopulationOk(GenomesOf(survivors))
    ensures ConnectionKeysAtMost(GenomesOf(survivors), connections) && NodeKeysAtMost(GenomesOf(survivors), nodes)
  {
    var scored := Score(genomes, fitness);
    ranked := SortDesc(scored, FitnessOf);
    survivors := KeepFirst(ranked, |ranked| / 10);
    SurvivorsFacts(genomes, fitness);
    SubPoolOk(genomes, survivors, connections, nodes);
  }

  /**
   * The body of `evaluate_generation` on values: the ranking, the survivors and the
   * refilled population headed by the fittest survivor.
   */
  method Evolve(genomes: seq<Genome>, fitness: Genome -> real, config: Config,
                connectionInnovation: Counter, nodeInnovation: Counter)
    returns (ranked: seq<FitnessGenome>, survivors: seq<FitnessGenome>, next: seq<Genome>)
    requires connectionInnovation != nodeInnovation
    requires genomes != []
    requires PopulationOk(genomes)
    requires ConnectionKeysAtMost(genomes, connectionInnovation.current)
    requires NodeKeysAtMost(genomes, nodeInnovation.current)
    modifies connectionInnovation, nodeInnovation
    ensures ranked == SortDesc(Scored(genomes, fitness), FitnessOf)
    ensures survivors == ranked[..|genomes| / 10 + 1] && survivors != []
    ensures |next| == GenerationSize(config) && next[0] == survivors[0].genome
    ensures AllChildren(survivors, config, next)
    ensures PopulationOk(next)
    ensures ConnectionKeysAtMost(next, connectionInnovation.current)
    ensures NodeKeysAtMost(next, nodeInnovation.current)
    ensures old(connectionInnovation.current) <= connectionInnovation.current
    ensures nodeInnovation.current == old(nodeInnovation.current)
  {
    ranked, survivors := Rank(genomes, fitness, connectionInnovation.current, nodeInnovation.current);
    next := FillGeneration(survivors, config, connectionInnovation, nodeInnovation);
  }

  /** The loop of `init`: one genesis genome per population slot. */
  method Populate(config: Config, defaultGenome: Genome, genesis: Genome -> Genome) returns (population: seq<Genome>)
    ensures |population| == config.populationSize
    ensures forall i :: 0 <= i < |population| ==> population[i] == genesis(defaultGenome)
  {
    population := [];
    var i := 0;
    while i < config.populationSize
      invariant 0 <= i <= config.populationSize
      invariant |population| == i
      invariant forall k :: 0 <= k < i ==> population[k] == genesis(defaultGenome)
    {
      population := population + [genesis(defaultGenome)];
      i := i + 1;
    }
  }

  /**
   * Restarting the connection counter at 0 makes its first value, 1, collide
   * with the default genome of the demo (inputs 1 and 2, output 3, connection 1
   * from 2 to 3): the first accepted add-connection, from 1 to 3, is stored
   * under key 1 and replaces the existing gene instead of adding one.
   */
  lemma {:induction false} InitCounterCollision()
    ensures var nodes := map[1 := NodeGene(Input, 1, 0), 2 := NodeGene(Input, 2, 0), 3 := NodeGene(Output, 3, 0)];
      var g := Genome(map[1 := ConnectionGene(2, 3, 0.5, true, 1)], nodes);
      var g' := Genome(map[1 := ConnectionGene(1, 3, 0.5, true, 1)], nodes);
      && GenomeOk(g)
      && !KeysAtMost(g.connections.Keys, 0)
      && IsAcceptedInsert(g, g', 0 + 1, 1, 3, 0.5)
      && g'.connections.Keys == g.connections.Keys
      && Edge(g.connections, 2, 3) && !Edge(g'.connections, 2, 3)
  {
    var nodes := map[1 := NodeGene(Input, 1, 0), 2 := NodeGene(Input, 2, 0), 3 := NodeGene(Output, 3, 0)];
    var g := Genome(map[1 := ConnectionGene(2, 3, 0.5, true, 1)], nodes);
    var g' := Genome(map[1 := ConnectionGene(1, 3, 0.5, true, 1)], nodes);
    var rank := (x: int) => if x == 2 then 1 else 0;
    assert RankedBy(g.connections, rank);
    assert GenomeOk(g);
    assert !Reaches(g.connections, 3, 1) by {
      if Reaches(g.connections, 3, 1) {
        RankedReachDrops(g.connections, rank, 3, 1);
      }
    }
    assert g.connections[1].inNode == 2 && g.connections.Keys == {1};
    assert !EdgeEither(g.connections, 1, 3);
    assert Orient(nodes[1], nodes[3]) == (nodes[1], nodes[3]);
    assert IsAcceptedInsert(g, g', 0 + 1, 1, 3, 0.5);
    assert Edge(g.connections, 2, 3);
    assert g'.connections[1].inNode == 1 && g'.connections.Keys == {1};
  }


  /** The copying loop that turns the next generation into the current one. */
  method CopyGenomes(next: seq<Genome>) returns (genomes: seq<Genome>)
    ensures genomes == next
  {
    genomes := [];
    var i := 0;
    while i < |next|
      invariant 0 <= i <= |next|
      invariant genomes == next[..i]
    {
      genomes := genomes + [next[i]];
      i := i + 1;
    }
  }

  class Evaluator {
    var config: Config
    var nextGeneration: seq<Genome>
    var genomes: seq<Genome>
    var evaluatedGenomes: seq<FitnessGenome>
    var fittestGenome: FitnessGenome
    var lastGenerationResults: seq<FitnessGenome>
    var nodeInnovation: Counter
    var connectionInnovation: Counter

    /** `Evaluator::new`: default configuration, empty lists, fresh counters. */
    constructor ()
      ensures config == NewConfig(0, 0, 0)
      ensures nextGeneration == [] && genomes == [] && evaluatedGenomes == [] && lastGenerationResults == []
      ensures fittestGenome == NewFitnessGenome(EmptyGenome(), 0.0)
      ensures fresh(nodeInnovation) && fresh(connectionInnovation) && nodeInnovation != connectionInnovation
      ensures nodeInnovation.current == 0 && connectionInnovation.current == 0
    {
      config := NewConfig(0, 0, 0);
      nextGeneration := [];
      genomes := [];
      evaluatedGenomes := [];
      fittestGenome := NewFitnessGenome(EmptyGenome(), 0.0);
      lastGenerationResults := [];
      nodeInnovation := new Counter();
      connectionInnovation := new Counter();
    }

    /**
     * `init`: adopt the configuration, fill the population with one genesis genome
     * per slot, clear the lists and start both counters afresh.
     */
    method Init(config: Config, defaultGenome: Genome, genesis: Genome -> Genome)
      modifies this
      ensures this.config == config
      ensures |genomes| == config.populationSize
      ensures forall i :: 0 <= i < |genomes| ==> genomes[i] == genesis(defaultGenome)
      ensures evaluatedGenomes == [] && nextGeneration == [] && lastGenerationResults == []
      ensures fittestGenome == old(fittestGenome)
      ensures fresh(nodeInnovation) && fresh(connectionInnovation) && nodeInnovation != connectionInnovation
      ensures nodeInnovation.current == 0 && connectionInnovation.current == 0
    {
      this.config := config;
      genomes := Populate(config, defaultGenome, genesis);
      evaluatedGenomes := [];
      nextGeneration := [];
      lastGenerationResults := [];
      nodeInnovation := new Counter();
      connectionInnovation := new Counter();
    }

    /**
     * `init` as evidently intended: the counters that built the default genome are
     * kept instead of restarted, so every key of the new population is at most the
     * counters and `EvaluateGeneration` may be called.
     */
    method InitContinuing(config: Config, defaultGenome: Genome, genesis: Genome -> Genome,
                          connectionInnovation: Counter, nodeInnovation: Counter)
      requires connectionInnovation != nodeInnovation
      requires GenomeOk(genesis(defaultGenome))
      requires KeysAtMost(genesis(defaultGenome).connections.Keys, connectionInnovation.current)
      requires KeysAtMost(genesis(defaultGenome).nodes.Keys, nodeInnovation.current)
      modifies this
      ensures this.config == config
      ensures |genomes| == config.populationSize
      ensures forall i :: 0 <= i < |genomes| ==> genomes[i] == genesis(defaultGenome)
      ensures evaluatedGenomes == [] && nextGeneration == [] && lastGenerationResults == []
      ensures fittestGenome == old(fittestGenome)
      ensures this.connectionInnovation == connectionInnovation && this.nodeInnovation == nodeInnovation
      ensures PopulationOk(genomes)
      ensures ConnectionKeysAtMost(genomes, connectionInnovation.current)
      ensures NodeKeysAtMost(genomes, nodeInnovation.current)
    {
      this.config := config;
      genomes := Populate(config, defaultGenome, genesis);
      evaluatedGenomes := [];
      nextGeneration := [];
      lastGenerationResults := [];
      this.nodeInnovation := nodeInnovation;
      this.connectionInnovation := connectionInnovation;
    }

    /**
     * `evaluate_generation`: score and rank the population, record the ranking,
     * keep the best `len / 10 + 1`, and refill the population from the survivors
     * with the fittest genome in front.
     */
    method EvaluateGeneration(fitness: Genome -> real)
      requires connectionInnovation != nodeInnovation
      requires genomes != []
      requires PopulationOk(genomes)
      requires ConnectionKeysAtMost(genomes, connectionInnovation.current)
      requires NodeKeysAtMost(genomes, nodeInnovation.current)
      modifies this, connectionInnovation, nodeInnovation
      ensures config == old(config)
      ensures connectionInnovation == old(connectionInnovation) && nodeInnovation == old(nodeInnovation)
      ensures lastGenerationResults == SortDesc(Scored(old(genomes), fitness), FitnessOf)
      ensures evaluatedGenomes == lastGenerationResults[..|old(genomes)| / 10 + 1]
      ensures fittestGenome == evaluatedGenomes[0]
      ensures genomes == nextGeneration && |genomes| == GenerationSize(config)
      ensures genomes[0] == fittestGenome.genome
      ensures AllChildren(evaluatedGenomes, config, genomes)
      ensures PopulationOk(genomes)
      ensures ConnectionKeysAtMost(genomes, connectionInnovation.current)
      ensures NodeKeysAtMost(genomes, nodeInnovation.current)
      ensures old(connectionInnovation.current) <= connectionInnovation.current
      ensures nodeInnovation.current == old(nodeInnovation.current)
    {
      var ranked, survivors, next := Evolve(genomes, fitness, config, connectionInnovation, nodeInnovation);
      var current := CopyGenomes(next);
      Record(ranked, survivors, next, current);
    }

    /** Stores the outcome of one generation in the evaluator's fields. */
    method Record(ranked: seq<FitnessGenome>, survivors: seq<FitnessGenome>, next: seq<Genome>, current: seq<Genome>)
      requires survivors != []
      modifies this
      ensures lastGenerationResults == ranked && evaluatedGenomes == survivors && fittestGenome == survivors[0]
      ensures nextGeneration == next && genomes == current
      ensures config == old(config)
      ensures connectionInnovation == old(connectionInnovation) && nodeInnovation == old(nodeInnovation)
    {
      lastGenerationResults := ranked;
      evaluatedGenomes := survivors;
      fittestGenome := survivors[0];
      nextGeneration := next;
      genomes := current;
    }

    function GetFittestGenome(): (f: FitnessGenome)
      reads this
      ensures f == fittestGenome
    {
      fittestGenome
    }

    function GetGenomeAmount(): (n: nat)
      reads this
      ensures n == |genomes|
    {
      |genomes|
    }

    function GetGenomes(): (gs: seq<Genome>)
      reads this
      ensures gs == genomes
    {
      genomes
    }

    function GetLastGenerationResults(): (rs: seq<FitnessGenome>)
      reads this
      ensures rs == lastGenerationResults
    {
      lastGenerationResults
    }
  }
}
