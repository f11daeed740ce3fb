// A genome paired with the fitness it scored.
module FitnessGenomes {
  import opened GenomeBase
  import opened Sorting

  /** Equality is field-wise, as the derived `PartialEq` is. */
  datatype FitnessGenome = FitnessGenome(genome: Genome, fitness: real)
  {
    function GetFitness(): (f: real)
      ensures f == fitness
    {
      fitness
    }

    /** `get_genome` hands out a copy equal to the stored genome. */
    function GetGenome(): (g: Genome)
      ensures g == genome
    {
      genome
    }
  }

  /** `FitnessGenome::new(g, f).get_fitness() == f`. */
  function NewFitnessGenome(genome: Genome, fitness: real): (f: FitnessGenome)
    ensures f.GetFitness() == fitness && f.GetGenome() == genome
  {
    FitnessGenome(genome, fitness)
  }

  /** `new_empty(g)`: the genome with fitness 0. */
  function NewEmpty(genome: Genome): (f: FitnessGenome)
    ensures f.GetFitness() == 0.0 && f.GetGenome() == genome
  {
    FitnessGenome(genome, 0.0)
  }

  /** The sort key: rosters are ordered by fitness. */
  function FitnessOf(f: FitnessGenome): real
  {
    f.fitness
  }

  function GenomesOf(s: seq<FitnessGenome>): (r: seq<Genome>)
    ensures |r| == |s| && forall i :: 0 <= i < |s| ==> r[i] == s[i].genome
  {
    if s == [] then [] else [s[0].genome] + GenomesOf(s[1..])
  }

  function SumFitness(s: seq<FitnessGenome>): real
  {
    if s == [] then 0.0 else s[0].fitness + SumFitness(s[1..])
  }

  lemma {:induction false} SumFitnessAppend(a: seq<FitnessGenome>, b: seq<FitnessGenome>)
    ensures SumFitness(a + b) == SumFitness(a) + SumFitness(b)
  {
    if a != [] {
      assert (a + b)[1..] == a[1..] + b;
      SumFitnessAppend(a[1..], b);
    } else {
      assert a + b == b;
    }
  }

  lemma {:induction false} SumFitnessInsert(x: FitnessGenome, s: seq<FitnessGenome>)
    ensures SumFitness(Insert(x, s, FitnessOf)) == x.fitness + SumFitness(s)
  {
    if s != [] && FitnessOf(x) < FitnessOf(s[0]) {
      SumFitnessInsert(x, s[1..]);
    }
  }

  /** Sorting a roster does not change its total fitness. */
  lemma {:induction false} SumFitnessSorted(s: seq<FitnessGenome>)
    ensures SumFitness(SortDesc(s, FitnessOf)) == SumFitness(s)
  {
    if s != [] {
      SumFitnessSorted(s[1..]);
      SumFitnessInsert(s[0], SortDesc(s[1..], FitnessOf));
    }
  }
}
