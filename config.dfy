// The flat, immutable run configuration.
module Configuration {

  datatype Config = Config(
    c1: real,                        // weight of excess genes in the distance
    c2: real,                        // weight of disjoint genes in the distance
    c3: real,                        // weight of the average weight difference
    dt: real,
    aSexualReproductionRate: real,
    mutationRate: real,
    perturbingRate: real,
    disabledGeneInheritingChance: real,
    addConnectionRate: real,
    addNodeRate: real,
    addLayerRate: real,
    offspringFromCrossover: real,
    compatibilityThreshold: real,
    maxSpeciesStalenessBeforeKill: int,
    populationSize: nat,
    generationCount: nat,
    maxSpecies: nat)
  {
    function GetPopulationSize(): (n: nat)
      ensures n == populationSize
    {
      populationSize
    }

    function GetGenerationCount(): (n: nat)
      ensures n == generationCount
    {
      generationCount
    }
  }

  predicate Probability(p: real)
  {
    0.0 <= p <= 1.0
  }

  /** `Config::new`: the three sizes as given, every other parameter at its default. */
  function NewConfig(populationSize: nat, generationCount: nat, maxSpecies: nat): (c: Config)
    ensures c.GetPopulationSize() == populationSize && c.GetGenerationCount() == generationCount
    ensures c.maxSpecies == maxSpecies
    ensures c.compatibilityThreshold == 1.0 && c.maxSpeciesStalenessBeforeKill == 15 && c.dt == 3.0
    ensures c.c1 == 1.5 && c.c2 == 0.8 && c.c3 == 1.0
  {
    Config(
      c1 := 1.5, c2 := 0.8, c3 := 1.0, dt := 3.0,
      aSexualReproductionRate := 0.25,
      mutationRate := 0.9,
      perturbingRate := 0.9,
      disabledGeneInheritingChance := 0.15,
      addConnectionRate := 0.25,
      addNodeRate := 0.23,
      addLayerRate := 0.08,
      offspringFromCrossover := 0.9,
      compatibilityThreshold := 1.0,
      maxSpeciesStalenessBeforeKill := 15,
      populationSize := populationSize,
      generationCount := generationCount,
      maxSpecies := maxSpecies)
  }

  /** Every default rate and probability lies in [0, 1]. */
  lemma {:induction false} DefaultRatesAreProbabilities(populationSize: nat, generationCount: nat, maxSpecies: nat)
    ensures var c := NewConfig(populationSize, generationCount, maxSpecies);
      && Probability(c.aSexualReproductionRate) && Probability(c.mutationRate)
      && Probability(c.perturbingRate) && Probability(c.disabledGeneInheritingChance)
      && Probability(c.addConnectionRate) && Probability(c.addNodeRate)
      && Probability(c.addLayerRate) && Probability(c.offspringFromCrossover)
  {
  }
}
