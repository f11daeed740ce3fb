// The state of a species as a value, and the transitions its methods perform on it.
module Rosters {
  import opened Sorting
  import opened GenomeBase
  import opened FitnessGenomes

  datatype Roster = Roster(
    players: seq<FitnessGenome>,
    bestFitness: real,
    averageFitness: real,
    staleness: int,
    rep: Genome)

  /** Some player beats the recorded best fitness. */
  ghost predicate Improves(r: Roster)
  {
    exists p :: p in r.players && p.fitness > r.bestFitness
  }

  /**
   * `sort_players`: order the players by fitness, best first, then reset the
   * staleness and take the leader as best and as representative if it beats the
   * record, and count one more stale generation otherwise.
   */
  function SortedRoster(r: Roster): (r': Roster)
    ensures multiset(r'.players) == multiset(r.players)
    ensures SortedDesc(r'.players, FitnessOf)
    ensures r'.averageFitness == r.averageFitness
  {
    SortDescSorted(r.players, FitnessOf);
    var s := SortDesc(r.players, FitnessOf);
    if s == [] then r.(players := s)
    else if s[0].fitness > r.bestFitness then r.(players := s, bestFitness := s[0].fitness, staleness := 0, rep := s[0].genome)
    else r.(players := s, staleness := r.staleness + 1)
  }

  /** The record only grows, bounds every player afterwards, and staleness counts the generations without improvement. */
  lemma {:induction false} SortedRosterProgress(r: Roster)
    ensures r.players == [] ==> SortedRoster(r) == r
    ensures SortedRoster(r).bestFitness >= r.bestFitness
    ensures forall p :: p in r.players ==> p.fitness <= SortedRoster(r).bestFitness
    ensures r.players != [] && Improves(r) ==>
      && SortedRoster(r).staleness == 0
      && SortedRoster(r).players[0].fitness == SortedRoster(r).bestFitness
      && SortedRoster(r).rep == SortedRoster(r).players[0].genome
    ensures r.players != [] && !Improves(r) ==>
      && SortedRoster(r).staleness == r.staleness + 1
      && SortedRoster(r).bestFitness == r.bestFitness
      && SortedRoster(r).rep == r.rep
  {
    var r' := SortedRoster(r);
    if r.players != [] {
      SortDescHeadIsMax(r.players, FitnessOf);
      forall p | p in r.players ensures p.fitness <= r'.players[0].fitness {
        assert p in multiset(r.players);
      }
      assert r'.players[0] in r.players by {
        assert r'.players[0] in multiset(r.players);
      }
    } else {
      assert r.players == SortDesc(r.players, FitnessOf);
    }
  }

  /**
   * `kill`: sort, then report failure if fewer than two players remain, and
   * otherwise keep the best `len / 2 + 1` of them.
   */
  function KilledRoster(r: Roster): (bool, Roster)
  {
    var s := SortedRoster(r);
    if |s.players| < 2 then (false, s)
    else (true, s.(players := s.players[..|s.players| / 2 + 1]))
  }

  /** Killing reports whether at least two players were left, and keeps the fittest `len / 2 + 1` of the sorted roster. */
  lemma {:induction false} KillSurvivors(r: Roster)
    ensures KilledRoster(r).0 <==> |r.players| >= 2
    ensures !KilledRoster(r).0 ==> KilledRoster(r).1 == SortedRoster(r)
    ensures KilledRoster(r).0 ==>
      && KilledRoster(r).1 == SortedRoster(r).(players := SortedRoster(r).players[..|r.players| / 2 + 1])
      && |KilledRoster(r).1.players| == |r.players| / 2 + 1
    ensures forall i, j :: 0 <= i < |KilledRoster(r).1.players| <= j < |r.players| ==>
      KilledRoster(r).1.players[i].fitness >= SortedRoster(r).players[j].fitness
  {
    var s := SortedRoster(r);
    var k := KilledRoster(r).1;
    assert |s.players| == |r.players|;
    forall i, j | 0 <= i < |k.players| <= j < |r.players|
      ensures k.players[i].fitness >= s.players[j].fitness
    {
      assert k.players[i] == s.players[i];
    }
  }

  /**
   * `refresh_best_fitness`: `sort_players`, then `get_best_player` (which sorts
   * again), then the leader's fitness becomes the best fitness.
   */
  function RefreshedRoster(r: Roster): (r': Roster)
    requires r.players != []
  {
    var s := SortedRoster(SortedRoster(r));
    s.(bestFitness := s.players[0].fitness)
  }

  /**
   * After a refresh the best fitness is exactly the largest fitness on the roster
   * (it may drop below the old record); the second sort always counts as stale.
   */
  lemma {:induction false} RefreshFacts(r: Roster)
    requires r.players != []
    ensures RefreshedRoster(r).players == SortDesc(r.players, FitnessOf)
    ensures RefreshedRoster(r).bestFitness in (set p | p in r.players :: p.fitness)
    ensures forall p :: p in r.players ==> p.fitness <= RefreshedRoster(r).bestFitness
    ensures RefreshedRoster(r).staleness == if Improves(r) then 1 else r.staleness + 2
    ensures RefreshedRoster(r).averageFitness == r.averageFitness
  {
    var s1 := SortedRoster(r);
    SortedRosterProgress(r);
    SortDescOfSorted(s1.players, FitnessOf);
    assert SortedRoster(s1).players == s1.players;
    assert !Improves(s1) by {
      forall p | p in s1.players ensures p.fitness <= s1.bestFitness {
        assert p in multiset(s1.players);
        assert p in r.players by { assert p in multiset(r.players); }
      }
    }
    SortedRosterProgress(s1);
    var top := s1.players[0];
    assert top in r.players by { assert top in multiset(s1.players); }
    SortDescHeadIsMax(r.players, FitnessOf);
    forall p | p in r.players ensures p.fitness <= top.fitness {
      assert p in multiset(r.players);
    }
  }

  /** The prefix sums of the roster, as `select_parent` accumulates them. */
  lemma {:induction false} SumFitnessPrefixStep(s: seq<FitnessGenome>, i: nat)
    requires i < |s|
    ensures RunningSum(s, i) == SumFitness(s[..i]) + s[i].fitness
  {
    assert s[..i + 1] == s[..i] + [s[i]];
    SumFitnessAppend(s[..i], [s[i]]);
    assert [s[i]][1..] == [];
  }

  /** The running sum `select_parent` has reached after player `j`. */
  function RunningSum(s: seq<FitnessGenome>, j: int): real
    requires 0 <= j < |s|
  {
    SumFitness(s[..j + 1])
  }

  /** The first index from `k` on whose running sum exceeds `x`, or -1. */
  function PickFrom(s: seq<FitnessGenome>, x: real, k: nat): (i: int)
    requires k <= |s|
    ensures i == -1 || k <= i < |s|
    decreases |s| - k
  {
    if k == |s| then -1
    else if RunningSum(s, k) > x then k
    else PickFrom(s, x, k + 1)
  }

  function Pick(s: seq<FitnessGenome>, x: real): (i: int)
    ensures -1 <= i < |s|
  {
    PickFrom(s, x, 0)
  }

  lemma {:induction false} PickFromIsFirst(s: seq<FitnessGenome>, x: real, k: nat)
    requires k <= |s|
    ensures PickFrom(s, x, k) >= 0 ==> RunningSum(s, PickFrom(s, x, k)) > x
    ensures forall j :: k <= j < |s| && (PickFrom(s, x, k) < 0 || j < PickFrom(s, x, k)) ==> RunningSum(s, j) <= x
    decreases |s| - k
  {
    if k < |s| && RunningSum(s, k) <= x {
      PickFromIsFirst(s, x, k + 1);
    }
  }

  /** The roulette stops at the first player whose running sum exceeds the draw. */
  lemma {:induction false} PickIsFirst(s: seq<FitnessGenome>, x: real)
    ensures Pick(s, x) >= 0 ==> RunningSum(s, Pick(s, x)) > x
    ensures forall j :: 0 <= j < |s| && (Pick(s, x) < 0 || j < Pick(s, x)) ==> RunningSum(s, j) <= x
  {
    PickFromIsFirst(s, x, 0);
  }

  /** A draw below the total fitness always lands on a player; only the extra 1 of the range falls through. */
  lemma {:induction false} PickHits(s: seq<FitnessGenome>, x: real)
    requires s != [] && x < SumFitness(s)
    ensures Pick(s, x) >= 0
  {
    PickIsFirst(s, x);
    assert s[..|s| - 1 + 1] == s;
    assert RunningSum(s, |s| - 1) > x;
  }

  /**
   * `select_parent` with the draw `x` in `[0, 1 + total fitness)`: the picked
   * player, or, when the running sum never exceeds `x`, the best player after a sort.
   */
  function SelectedRoster(r: Roster, x: real): (result: (FitnessGenome, Roster))
    requires r.players != []
  {
    var i := Pick(r.players, x);
    if i >= 0 then (r.players[i], r)
    else
      var s := SortedRoster(r);
      (s.players[0], s)
  }

  lemma {:induction false} SelectFacts(r: Roster, x: real)
    requires r.players != []
    ensures SelectedRoster(r, x).0 in r.players
    ensures multiset(SelectedRoster(r, x).1.players) == multiset(r.players)
    ensures SumFitness(SelectedRoster(r, x).1.players) == SumFitness(r.players)
    ensures x < SumFitness(r.players) ==> SelectedRoster(r, x).1 == r
  {
    var s := SortedRoster(r);
    if Pick(r.players, x) < 0 {
      assert s.players[0] in multiset(r.players);
      SumFitnessSorted(r.players);
    }
    if x < SumFitness(r.players) {
      PickHits(r.players, x);
    }
  }

  /** The two successive `select_parent` calls of `generate_offspring`: both parents and the roster after them. */
  function SelectedTwice(r: Roster, x1: real, x2: real): (result: (FitnessGenome, FitnessGenome, Roster))
    requires r.players != []
    ensures result.0 in r.players && result.1 in r.players
    ensures multiset(result.2.players) == multiset(r.players)
    ensures SumFitness(result.2.players) == SumFitness(r.players)
  {
    SelectFacts(r, x1);
    var (p1, s1) := SelectedRoster(r, x1);
    SelectFacts(s1, x2);
    assert SelectedRoster(s1, x2).0 in multiset(r.players);
    var (p2, s2) := SelectedRoster(s1, x2);
    (p1, p2, s2)
  }

  function Scale(s: seq<FitnessGenome>, n: real): (r: seq<FitnessGenome>)
    requires n != 0.0
    ensures |r| == |s|
    ensures forall i :: 0 <= i < |s| ==> r[i].genome == s[i].genome && r[i].fitness == s[i].fitness / n
  {
    if s == [] then [] else [s[0].(fitness := s[0].fitness / n)] + Scale(s[1..], n)
  }

  /** `fitness_sharing`: every fitness divided by the number of players. */
  function SharedFitness(s: seq<FitnessGenome>): (r: seq<FitnessGenome>)
  {
    if s == [] then [] else Scale(s, |s| as real)
  }

  lemma {:induction false} ScaleSum(s: seq<FitnessGenome>, n: real)
    requires n != 0.0
    ensures SumFitness(Scale(s, n)) == SumFitness(s) / n
  {
    if s != [] {
      ScaleSum(s[1..], n);
    }
  }

  /** After sharing, the players keep their genomes and their fitnesses add up to the old average. */
  lemma {:induction false} SharingFacts(s: seq<FitnessGenome>)
    requires s != []
    ensures |SharedFitness(s)| == |s|
    ensures forall i :: 0 <= i < |s| ==> SharedFitness(s)[i].genome == s[i].genome
    ensures SumFitness(SharedFitness(s)) == SumFitness(s) / |s| as real
  {
    ScaleSum(s, |s| as real);
  }
}
