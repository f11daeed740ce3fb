// A species: a roster of players that share a representative genome.
module Speciation {
  import opened Innovation
  import opened Configuration
  import opened Sorting
  import opened FloatValues
  import opened GenomeBase
  import opened GenomeInvariants
  import opened GenomeCrossover
  import opened GenomeDistance
  import opened FitnessGenomes
  import opened Breeding
  import opened Rosters

  /** `generate_offspring` crosses the fitter parent first; on equal fitness the first drawn one. */
  function SpeciesParents(p1: FitnessGenome, p2: FitnessGenome): (r: (FitnessGenome, FitnessGenome))
    ensures r == (p1, p2) || r == (p2, p1)
    ensures r.0.fitness >= r.1.fitness
    ensures p1.fitness == p2.fitness ==> r == (p1, p2)
  {
    if p1.fitness < p2.fitness then (p2, p1) else (p1, p2)
  }

  class Species {
    var players: seq<FitnessGenome>
    var bestFitness: real
    var averageFitness: real
    var staleness: int
    var rep: Genome

    function State(): Roster
      reads this
    {
      Roster(players, bestFitness, averageFitness, staleness, rep)
    }

    /** `Species::new(rep)`: the representative as the only player, with fitness 0. */
    constructor (rep: Genome)
      ensures State() == Roster([NewEmpty(rep)], 0.0, 0.0, 0, rep)
    {
      players := [NewEmpty(rep)];
      bestFitness := 0.0;
      averageFitness := 0.0;
      staleness := 0;
      this.rep := rep;
    }

    method SortPlayers()
      modifies this
      ensures State() == SortedRoster(old(State()))
    {
      players := SortDesc(players, FitnessOf);
      if players != [] {
        var best := players[0];
        if best.fitness > bestFitness {
          staleness := 0;
          bestFitness := best.fitness;
          rep := best.genome;
        } else {
          staleness := staleness + 1;
        }
      }
    }

    method Kill() returns (alive: bool)
      modifies this
      ensures (alive, State()) == KilledRoster(old(State()))
    {
      SortPlayers();
      if |players| < 2 {
        return false;
      }
      var cutoff := |players| / 2;
      players := KeepFirst(players, cutoff);
      alive := true;
    }

    /**
     * `same_species`: the genome belongs here when its distance to the
     * representative is below the threshold (a NaN distance never is).
     */
    method SameSpecies(g: Genome, config: Config) returns (same: bool)
      requires Countable(rep, g)
      ensures same == Greater(config.compatibilityThreshold, Distance(rep, g, config.c1, config.c2, config.c3))
    {
      var distance := CompatibilityDistance(rep, g, config.c1, config.c2, config.c3);
      same := distance.Num? && config.compatibilityThreshold > distance.v;
    }

    method AddPlayer(player: FitnessGenome)
      modifies this
      ensures State() == old(State()).(players := old(players) + [player])
    {
      players := players + [player];
    }

    /** Stores the total fitness in `averageFitness` and returns the mean (NaN for no players). */
    method GetAverageFitness() returns (average: F64)
      modifies this
      ensures State() == old(State()).(averageFitness := SumFitness(old(players)))
      ensures average == Div(SumFitness(players), |players| as real)
    {
      var ps := players;
      var sum := 0.0;
      var i := 0;
      while i < |ps|
        invariant 0 <= i <= |ps|
        invariant sum == SumFitness(ps[..i])
        invariant unchanged(this)
      {
        SumFitnessPrefixStep(ps, i);
        sum := sum + ps[i].fitness;
        i := i + 1;
      }
      assert ps[..i] == ps;
      averageFitness := sum;
      average := Div(sum, |ps| as real);
    }

    method RefreshBestFitness() returns (best: real)
      requires players != []
      modifies this
      ensures State() == RefreshedRoster(old(State()))
      ensures best == bestFitness
    {
      SortPlayers();
      var leader := GetBestPlayer();
      bestFitness := leader.fitness;
      best := bestFitness;
    }

    function GetBestFitness(): (best: real)
      reads this
      ensures best == bestFitness
    {
      bestFitness
    }

    /** `get_best_player` sorts (updating staleness and the record) and returns the leader. */
    method GetBestPlayer() returns (leader: FitnessGenome)
      requires players != []
      modifies this
      ensures State() == SortedRoster(old(State()))
      ensures leader == players[0]
    {
      SortPlayers();
      leader := players[0];
    }

    method FitnessSharing()
      modifies this
      ensures State() == old(State()).(players := SharedFitness(old(players)))
    {
      var ps := players;
      var len := |ps| as real;
      var i := 0;
      while i < |ps|
        invariant 0 <= i <= |ps| == |players|
        invariant forall j :: 0 <= j < i ==> ps[j] == players[j].(fitness := players[j].fitness / len)
        invariant forall j :: i <= j < |ps| ==> ps[j] == players[j]
        invariant unchanged(this)
      {
        ps := ps[i := ps[i].(fitness := ps[i].fitness / len)];
        i := i + 1;
      }
      assert ps == SharedFitness(players);
      players := ps;
    }

    /** `select_parent` with the roulette draw `x`, taken in `[0, 1 + total fitness)`. */
    method SelectParent(x: real) returns (parent: FitnessGenome)
      requires players != [] && 0.0 <= x < 1.0 + SumFitness(players)
      modifies this
      ensures (parent, State()) == SelectedRoster(old(State()), x)
    {
      var ps := players;
      var runningSum := 0.0;
      var i := 0;
      while i < |ps|
        invariant 0 <= i <= |ps|
        invariant runningSum == SumFitness(ps[..i])
        invariant PickFrom(ps, x, 0) == PickFrom(ps, x, i)
        invariant unchanged(this)
      {
        SumFitnessPrefixStep(ps, i);
        runningSum := runningSum + ps[i].fitness;
        if runningSum > x {
          return ps[i];
        }
        i := i + 1;
      }
      parent := GetBestPlayer();
    }

    /** The two `select_parent` calls of `generate_offspring`. */
    method SelectParents(x1: real, x2: real) returns (parent1: FitnessGenome, parent2: FitnessGenome)
      requires players != []
      requires 0.0 <= x1 < 1.0 + SumFitness(players) && 0.0 <= x2 < 1.0 + SumFitness(players)
      modifies this
      ensures (parent1, parent2, State()) == SelectedTwice(old(State()), x1, x2)
    {
      ghost var start := State();
      parent1 := SelectParent(x1);
      SelectFacts(start, x1);
      parent2 := SelectParent(x2);
    }

    /**
     * `generate_offspring` with the two roulette draws and the three gate draws:
     * cross the fitter parent with the other, then grow the child through the gates.
     */
    method GenerateOffspring(connectionInnovation: Counter, nodeInnovation: Counter, config: Config,
                             x1: real, x2: real, dMutate: real, dNode: real, dConnect: real)
      returns (child: FitnessGenome)
      requires connectionInnovation != nodeInnovation
      requires players != []
      requires 0.0 <= x1 < 1.0 + SumFitness(players) && 0.0 <= x2 < 1.0 + SumFitness(players)
      requires PopulationOk(GenomesOf(players))
      requires ConnectionKeysAtMost(GenomesOf(players), connectionInnovation.current)
      requires NodeKeysAtMost(GenomesOf(players), nodeInnovation.current)
      modifies this, connectionInnovation, nodeInnovation
      ensures var (p1, p2, after) := SelectedTwice(old(State()), x1, x2);
              && State() == after
              && child.fitness == 0.0
              && exists crossed :: IsCrossover(SpeciesParents(p1, p2).0.genome, SpeciesParents(p1, p2).1.genome,
                                               config.disabledGeneInheritingChance, crossed) &&
                                   var gates := Gates(dMutate < config.mutationRate, dNode < config.addNodeRate,
                                                      dConnect < config.addConnectionRate);
                                   && GrownFrom(crossed, child.genome, config.perturbingRate, gates)
                                   && CountersAdvanced(crossed, gates, old(nodeInnovation.current),
                                                       nodeInnovation.current, old(connectionInnovation.current),
                                                       connectionInnovation.current)
      ensures GenomeOk(child.genome)
      ensures KeysAtMost(child.genome.connections.Keys, connectionInnovation.current)
      ensures KeysAtMost(child.genome.nodes.Keys, nodeInnovation.current)
      ensures old(connectionInnovation.current) <= connectionInnovation.current
      ensures old(nodeInnovation.current) <= nodeInnovation.current
      ensures forall h :: AgreesWithPool(old(players), h) &&
                          KeysAtMost(h.connections.Keys, old(connectionInnovation.current)) ==>
        Consistent(child.genome, h) && Consistent(h, child.genome)
    {
      ghost var start := State();
      var parent1, parent2 := SelectParents(x1, x2);
      var (first, second) := SpeciesParents(parent1, parent2);
      var grown := Breed(start.players, first, second, config, dMutate, dNode, dConnect, true,
                         connectionInnovation, nodeInnovation);
      child := NewEmpty(grown);
    }

    /**
     * `sort_species`: refresh every species' best fitness, then order the species
     * by it, lowest first (a stable sort).
     */
    static method SortSpecies(species: seq<Species>) returns (sorted: seq<Species>)
      requires forall i, j :: 0 <= i < |species| && 0 <= j < |species| && i != j ==> species[i] != species[j]
      requires forall i :: 0 <= i < |species| ==> species[i].players != []
      modifies set s | s in species
      ensures forall i :: 0 <= i < |species| ==> species[i].State() == RefreshedRoster(old(species[i].State()))
      ensures multiset(sorted) == multiset(species)
      ensures forall i, j :: 0 <= i < j < |sorted| ==> sorted[i].bestFitness <= sorted[j].bestFitness
    {
      RefreshAll(species);
      sorted := OrderByBest(species);
    }

    static method RefreshAll(species: seq<Species>)
      requires forall i, j :: 0 <= i < |species| && 0 <= j < |species| && i != j ==> species[i] != species[j]
      requires forall i :: 0 <= i < |species| ==> species[i].players != []
      modifies set s | s in species
      ensures forall i :: 0 <= i < |species| ==> species[i].State() == RefreshedRoster(old(species[i].State()))
    {
      var i := 0;
      while i < |species|
        invariant 0 <= i <= |species|
        invariant forall j :: 0 <= j < i ==> species[j].State() == RefreshedRoster(old(species[j].State()))
        invariant forall j :: i <= j < |species| ==> species[j].State() == old(species[j].State())
      {
        RefreshAt(species, i);
        i := i + 1;
      }
    }

    /** One pass of the refresh loop; every other species is left as it was. */
    static method RefreshAt(species: seq<Species>, i: nat)
      requires i < |species|
      requires forall j :: 0 <= j < |species| && j != i ==> species[j] != species[i]
      requires species[i].players != []
      modifies species[i]
      ensures species[i].State() == RefreshedRoster(old(species[i].State()))
      ensures forall j :: 0 <= j < |species| && j != i ==> species[j].State() == old(species[j].State())
    {
      var _ := species[i].RefreshBestFitness();
    }

    static method OrderByBest(species: seq<Species>) returns (sorted: seq<Species>)
      ensures multiset(sorted) == multiset(species)
      ensures forall i, j :: 0 <= i < j < |sorted| ==> sorted[i].bestFitness <= sorted[j].bestFitness
    {
      var best := map s | s in species :: s.bestFitness;
      var key := (s: Species) => if s in best then -best[s] else 0.0;
      sorted := SortDesc(species, key);
      SortDescSorted(species, key);
      forall i, j | 0 <= i < j < |sorted| ensures sorted[i].bestFitness <= sorted[j].bestFitness {
        assert sorted[i] in multiset(species) && sorted[j] in multiset(species);
        assert key(sorted[i]) >= key(sorted[j]);
      }
    }
  }
}
