// Gene counts and the compatibility distance between two genomes. Each count scans
// the keys 0 .. max(h1, h2) - 1, h1 and h2 being the two genomes' highest keys,
// once over node ids and once over innovation numbers.
module GenomeDistance {
  import opened NodeGenes
  import opened ConnectionGenes
  import opened GenomeBase
  import opened Sorting
  import opened FloatValues

  /** The largest element of a non-empty set. */
  ghost function MaxKey(s: set<int>): (m: int)
    requires s != {}
    ensures m in s && forall k :: k in s ==> k <= m
    decreases s
  {
    NonEmptyHasElement(s);
    var x :| x in s;
    if s == {x} then x
    else
      var rest := s - {x};
      assert forall k :: k in s ==> k == x || k in rest;
      var m := MaxKey(rest);
      if x > m then x else m
  }

  function Max(a: int, b: int): int
  {
    if a > b then a else b
  }

  /** The three tests a scan applies to a key `i`. */
  datatype Test = Matching | Excess | Disjoint

  /**
   * Matching: both genomes have `i`. Excess: one lacks it and its highest key is
   * below `i`. Disjoint: one lacks it and its highest key is above `i`.
   */
  predicate Classified(t: Test, k1: set<int>, k2: set<int>, h1: int, h2: int, i: int)
  {
    match t
    case Matching => i in k1 && i in k2
    case Excess => (i !in k1 && h1 < i && i in k2) || (i !in k2 && h2 < i && i in k1)
    case Disjoint => (i !in k1 && h1 > i && i in k2) || (i !in k2 && h2 > i && i in k1)
  }

  /** How many of the keys 0 .. n - 1 pass test `t`. */
  function Count(t: Test, k1: set<int>, k2: set<int>, h1: int, h2: int, n: int): (c: nat)
    ensures c <= Max(n, 0)
    decreases n
  {
    if n <= 0 then 0
    else Count(t, k1, k2, h1, h2, n - 1) + (if Classified(t, k1, k2, h1, h2, n - 1) then 1 else 0)
  }

  /** The count over the scan range of two key sets. */
  ghost function GeneCount(t: Test, k1: set<int>, k2: set<int>): nat
    requires k1 != {} && k2 != {}
  {
    Count(t, k1, k2, MaxKey(k1), MaxKey(k2), Max(MaxKey(k1), MaxKey(k2)))
  }

  predicate Countable(g1: Genome, g2: Genome)
  {
    g1.nodes != map[] && g2.nodes != map[] && g1.connections != map[] && g2.connections != map[]
  }

  ghost function MatchingGenes(g1: Genome, g2: Genome): nat
    requires Countable(g1, g2)
  {
    GeneCount(Matching, g1.nodes.Keys, g2.nodes.Keys) + GeneCount(Matching, g1.connections.Keys, g2.connections.Keys)
  }

  ghost function ExcessGenes(g1: Genome, g2: Genome): nat
    requires Countable(g1, g2)
  {
    GeneCount(Excess, g1.nodes.Keys, g2.nodes.Keys) + GeneCount(Excess, g1.connections.Keys, g2.connections.Keys)
  }

  /** The node scan of `count_disjoint_genes` applies the excess test. */
  ghost function DisjointGenes(g1: Genome, g2: Genome): nat
    requires Countable(g1, g2)
  {
    GeneCount(Excess, g1.nodes.Keys, g2.nodes.Keys) + GeneCount(Disjoint, g1.connections.Keys, g2.connections.Keys)
  }

  // ----- the scans -----

  /** `as_sorted_vec(keys_to_vec(..))` followed by taking the last element. */
  method HighestKey(keys: set<int>) returns (h: int)
    requires keys != {}
    ensures h == MaxKey(keys)
  {
    var v := KeysToVec(keys);
    var sorted := AsSortedVec(v);
    assert |sorted| == |v| == |keys| > 0 by {
      assert |multiset(sorted)| == |multiset(v)|;
    }
    h := sorted[|sorted| - 1];
    assert h in multiset(v);
    assert h in keys;
    forall k | k in keys ensures k <= h {
      assert k in v;
      assert k in multiset(sorted);
      var j :| 0 <= j < |sorted| && sorted[j] == k;
    }
    assert MaxKey(keys) in keys;
  }

  /** One `for i in 0..indices` loop, adding one for every key passing test `t`. */
  method Scan(t: Test, k1: set<int>, k2: set<int>, h1: int, h2: int, indices: int) returns (c: int)
    ensures c == Count(t, k1, k2, h1, h2, indices)
  {
    c := 0;
    var i := 0;
    while i < indices
      invariant 0 <= i && (i <= indices || i == 0)
      invariant c == Count(t, k1, k2, h1, h2, i)
    {
      if Classified(t, k1, k2, h1, h2, i) {
        c := c + 1;
      }
      i := i + 1;
    }
  }

  /** Both scans of one count: over node ids with `nodeTest`, over innovation numbers with `connTest`. */
  method ScanBoth(g1: Genome, g2: Genome, nodeTest: Test, connTest: Test) returns (n: int)
    requires Countable(g1, g2)
    ensures n == GeneCount(nodeTest, g1.nodes.Keys, g2.nodes.Keys)
               + GeneCount(connTest, g1.connections.Keys, g2.connections.Keys)
  {
    var h1 := HighestKey(g1.nodes.Keys);
    var h2 := HighestKey(g2.nodes.Keys);
    var a := Scan(nodeTest, g1.nodes.Keys, g2.nodes.Keys, h1, h2, Max(h1, h2));
    h1 := HighestKey(g1.connections.Keys);
    h2 := HighestKey(g2.connections.Keys);
    var b := Scan(connTest, g1.connections.Keys, g2.connections.Keys, h1, h2, Max(h1, h2));
    n := a + b;
  }

  /** `count_matching_genes`; it panics on a genome without nodes or connections. */
  method CountMatchingGenes(g1: Genome, g2: Genome) returns (n: int)
    requires Countable(g1, g2)
    ensures n == MatchingGenes(g1, g2)
  {
    n := ScanBoth(g1, g2, Matching, Matching);
  }

  /** `count_disjoint_genes`, whose node scan repeats the excess test. */
  method CountDisjointGenes(g1: Genome, g2: Genome) returns (n: int)
    requires Countable(g1, g2)
    ensures n == DisjointGenes(g1, g2)
  {
    n := ScanBoth(g1, g2, Excess, Disjoint);
  }

  method CountExcessGenes(g1: Genome, g2: Genome) returns (n: int)
    requires Countable(g1, g2)
    ensures n == ExcessGenes(g1, g2)
  {
    n := ScanBoth(g1, g2, Excess, Excess);
  }

  // ----- properties of the counts -----

  lemma {:induction false} CountSymmetric(t: Test, k1: set<int>, k2: set<int>, h1: int, h2: int, n: int)
    ensures Count(t, k1, k2, h1, h2, n) == Count(t, k2, k1, h2, h1, n)
    decreases n
  {
    if n > 0 {
      CountSymmetric(t, k1, k2, h1, h2, n - 1);
    }
  }

  /** A count is zero exactly when no key of the range passes the test. */
  lemma {:induction false} CountZeroIff(t: Test, k1: set<int>, k2: set<int>, h1: int, h2: int, n: int)
    ensures Count(t, k1, k2, h1, h2, n) == 0 <==> forall i :: 0 <= i < n ==> !Classified(t, k1, k2, h1, h2, i)
    decreases n
  {
    if n > 0 {
      CountZeroIff(t, k1, k2, h1, h2, n - 1);
    }
  }

  /** All three counts are symmetric in the two genomes. */
  lemma {:induction false} CountsSymmetric(g1: Genome, g2: Genome)
    requires Countable(g1, g2)
    ensures MatchingGenes(g1, g2) == MatchingGenes(g2, g1)
    ensures ExcessGenes(g1, g2) == ExcessGenes(g2, g1)
    ensures DisjointGenes(g1, g2) == DisjointGenes(g2, g1)
  {
    var n1, n2 := g1.nodes.Keys, g2.nodes.Keys;
    var c1, c2 := g1.connections.Keys, g2.connections.Keys;
    assert Max(MaxKey(n1), MaxKey(n2)) == Max(MaxKey(n2), MaxKey(n1));
    assert Max(MaxKey(c1), MaxKey(c2)) == Max(MaxKey(c2), MaxKey(c1));
    var rn, rc := Max(MaxKey(n1), MaxKey(n2)), Max(MaxKey(c1), MaxKey(c2));
    CountSymmetric(Matching, n1, n2, MaxKey(n1), MaxKey(n2), rn);
    CountSymmetric(Excess, n1, n2, MaxKey(n1), MaxKey(n2), rn);
    CountSymmetric(Matching, c1, c2, MaxKey(c1), MaxKey(c2), rc);
    CountSymmetric(Excess, c1, c2, MaxKey(c1), MaxKey(c2), rc);
    CountSymmetric(Disjoint, c1, c2, MaxKey(c1), MaxKey(c2), rc);
  }

  /** A genome has neither excess nor disjoint genes against itself. */
  lemma {:induction false} SelfHasNoExcessOrDisjoint(g: Genome)
    requires Countable(g, g)
    ensures ExcessGenes(g, g) == 0 && DisjointGenes(g, g) == 0
  {
    var n, c := g.nodes.Keys, g.connections.Keys;
    CountZeroIff(Excess, n, n, MaxKey(n), MaxKey(n), MaxKey(n));
    CountZeroIff(Excess, c, c, MaxKey(c), MaxKey(c), MaxKey(c));
    CountZeroIff(Disjoint, c, c, MaxKey(c), MaxKey(c), MaxKey(c));
  }

  /**
   * The scan stops below the highest key, so that key is never classified: a key set
   * extended by one key above all of its keys has no excess and no disjoint key
   * against the original, although the new key is present in one set only.
   */
  lemma {:induction false} TopKeyNeverCounted(k: set<int>, top: int)
    requires k != {} && top > MaxKey(k)
    ensures top in k + {top} && top !in k
    ensures GeneCount(Excess, k + {top}, k) == 0
    ensures GeneCount(Disjoint, k + {top}, k) == 0
  {
    var k1 := k + {top};
    assert MaxKey(k1) == top;
    var h := MaxKey(k);
    assert Max(top, h) == top;
    CountZeroIff(Excess, k1, k, top, h, top);
    CountZeroIff(Disjoint, k1, k, top, h, top);
  }

  // ----- average weight difference and distance -----

  function Abs(x: real): real
  {
    if x < 0.0 then -x else x
  }

  /** Sum of |w1 - w2| over the innovation numbers 0 .. n - 1 both genomes carry. */
  function WeightDiffSum(c1: map<int, ConnectionGene>, c2: map<int, ConnectionGene>, n: int): (s: real)
    ensures s >= 0.0
    ensures Count(Matching, c1.Keys, c2.Keys, 0, 0, n) == 0 ==> s == 0.0
    decreases n
  {
    if n <= 0 then 0.0
    else
      WeightDiffSum(c1, c2, n - 1) +
        (if n - 1 in c1 && n - 1 in c2 then Abs(c1[n - 1].weight - c2[n - 1].weight) else 0.0)
  }

  /** The matching count does not depend on the two highest keys. */
  lemma {:induction false} MatchingIgnoresBounds(k1: set<int>, k2: set<int>, h1: int, h2: int, n: int)
    ensures Count(Matching, k1, k2, h1, h2, n) == Count(Matching, k1, k2, 0, 0, n)
    decreases n
  {
    if n > 0 {
      MatchingIgnoresBounds(k1, k2, h1, h2, n - 1);
    }
  }

  /** `average_weight_diff`: NaN when no innovation number below the highest matches (0 / 0). */
  ghost function WeightDifference(g1: Genome, g2: Genome): F64
    requires g1.connections != map[] && g2.connections != map[]
  {
    var c1, c2 := g1.connections.Keys, g2.connections.Keys;
    var range := Max(MaxKey(c1), MaxKey(c2));
    MatchingIgnoresBounds(c1, c2, MaxKey(c1), MaxKey(c2), range);
    Div(WeightDiffSum(g1.connections, g2.connections, range), GeneCount(Matching, c1, c2) as real)
  }

  /** `average_weight_diff` with its scan loop. */
  method AverageWeightDiff(g1: Genome, g2: Genome) returns (r: F64)
    requires g1.connections != map[] && g2.connections != map[]
    ensures r == WeightDifference(g1, g2)
  {
    var h1 := HighestKey(g1.connections.Keys);
    var h2 := HighestKey(g2.connections.Keys);
    var indices := Max(h1, h2);
    var matchingGenes := 0;
    var weightDifference := 0.0;
    var i := 0;
    while i < indices
      invariant 0 <= i && (i <= indices || i == 0)
      invariant matchingGenes == Count(Matching, g1.connections.Keys, g2.connections.Keys, h1, h2, i)
      invariant weightDifference == WeightDiffSum(g1.connections, g2.connections, i)
    {
      if i in g1.connections && i in g2.connections {
        matchingGenes := matchingGenes + 1;
        weightDifference := weightDifference + Abs(g1.connections[i].weight - g2.connections[i].weight);
      }
      i := i + 1;
    }
    MatchingIgnoresBounds(g1.connections.Keys, g2.connections.Keys, h1, h2, indices);
    r := Div(weightDifference, matchingGenes as real);
  }

  function Combine(c1: real, c2: real, c3: real, excess: real, disjoint: real, w: F64): F64
  {
    AddScaled(c1 * excess + c2 * disjoint, c3, w)
  }

  /** `c1 * E / n + c2 * D / n + c3 * W` with the normaliser `n` fixed at 1. */
  ghost function Distance(g1: Genome, g2: Genome, c1: real, c2: real, c3: real): F64
    requires Countable(g1, g2)
  {
    Combine(c1, c2, c3, ExcessGenes(g1, g2) as real, DisjointGenes(g1, g2) as real, WeightDifference(g1, g2))
  }

  method CompatibilityDistance(g1: Genome, g2: Genome, c1: real, c2: real, c3: real) returns (d: F64)
    requires Countable(g1, g2)
    ensures d == Distance(g1, g2, c1, c2, c3)
  {
    var excessGenes := CountExcessGenes(g1, g2);
    var disjointGenes := CountDisjointGenes(g1, g2);
    var avgWeightDiff := AverageWeightDiff(g1, g2);
    var n := 1.0;
    d := Combine(c1, c2, c3, excessGenes as real / n, disjointGenes as real / n, avgWeightDiff);
  }

  lemma {:induction false} WeightDiffSumSymmetric(c1: map<int, ConnectionGene>, c2: map<int, ConnectionGene>, n: int)
    ensures WeightDiffSum(c1, c2, n) == WeightDiffSum(c2, c1, n)
    decreases n
  {
    if n > 0 {
      WeightDiffSumSymmetric(c1, c2, n - 1);
    }
  }

  lemma {:induction false} WeightDiffSumSelf(c: map<int, ConnectionGene>, n: int)
    ensures WeightDiffSum(c, c, n) == 0.0
    decreases n
  {
    if n > 0 {
      WeightDiffSumSelf(c, n - 1);
    }
  }

  lemma {:induction false} WeightDifferenceSymmetric(g1: Genome, g2: Genome)
    requires g1.connections != map[] && g2.connections != map[]
    ensures WeightDifference(g1, g2) == WeightDifference(g2, g1)
  {
    var k1, k2 := g1.connections.Keys, g2.connections.Keys;
    assert Max(MaxKey(k1), MaxKey(k2)) == Max(MaxKey(k2), MaxKey(k1));
    var range := Max(MaxKey(k1), MaxKey(k2));
    WeightDiffSumSymmetric(g1.connections, g2.connections, range);
    CountSymmetric(Matching, k1, k2, MaxKey(k1), MaxKey(k2), range);
  }

  /** The distance is symmetric in the two genomes. */
  lemma {:induction false} DistanceSymmetric(g1: Genome, g2: Genome, c1: real, c2: real, c3: real)
    requires Countable(g1, g2)
    ensures Distance(g1, g2, c1, c2, c3) == Distance(g2, g1, c1, c2, c3)
  {
    CountsSymmetric(g1, g2);
    WeightDifferenceSymmetric(g1, g2);
  }

  /**
   * A genome is at distance 0 from itself, unless none of its innovation numbers lies in
   * 0 .. highest - 1, in which case the average weight difference is 0 / 0 and the distance is NaN.
   */
  lemma {:induction false} DistanceSelf(g: Genome, c1: real, c2: real, c3: real)
    requires Countable(g, g)
    ensures Distance(g, g, c1, c2, c3) == NaN <==>
      forall k :: k in g.connections ==> k < 0 || k == MaxKey(g.connections.Keys)
    ensures Distance(g, g, c1, c2, c3) != NaN ==> Distance(g, g, c1, c2, c3) == Num(0.0)
  {
    SelfHasNoExcessOrDisjoint(g);
    var k := g.connections.Keys;
    var h := MaxKey(k);
    assert Max(h, h) == h;
    WeightDiffSumSelf(g.connections, h);
    CountZeroIff(Matching, k, k, h, h, h);
    var w := WeightDifference(g, g);
    assert w == Div(0.0, GeneCount(Matching, k, k) as real);
    assert w == NaN <==> GeneCount(Matching, k, k) == 0;
    assert GeneCount(Matching, k, k) == Count(Matching, k, k, h, h, h);
    assert forall i :: Classified(Matching, k, k, h, h, i) <==> i in k;
    assert Distance(g, g, c1, c2, c3) == AddScaled(c1 * 0.0 + c2 * 0.0, c3, w);
  }

  /**
   * The demo genome (inputs 1 and 2, output 3, one connection with innovation 1)
   * is at NaN distance from itself: its only innovation number is the highest, which
   * the scan skips. So no threshold makes it a member of its own species.
   */
  lemma {:induction false} DemoSelfDistanceNaN(c1: real, c2: real, c3: real)
    ensures var g := Genome(map[1 := ConnectionGene(2, 3, 0.5, true, 1)],
                            map[1 := NodeGene(Input, 1, 0), 2 := NodeGene(Input, 2, 0), 3 := NodeGene(Output, 3, 0)]);
      && Countable(g, g)
      && Distance(g, g, c1, c2, c3) == NaN
      && forall t :: !Greater(t, Distance(g, g, c1, c2, c3))
  {
    var g := Genome(map[1 := ConnectionGene(2, 3, 0.5, true, 1)],
                    map[1 := NodeGene(Input, 1, 0), 2 := NodeGene(Input, 2, 0), 3 := NodeGene(Output, 3, 0)]);
    assert g.connections.Keys == {1};
    assert MaxKey(g.connections.Keys) == 1;
    DistanceSelf(g, c1, c2, c3);
  }

  // ----- the scan range with the highest key included -----

  /** The count over `0 ..= max(h1, h2)`, the range the scans evidently intend. */
  ghost function GeneCountInclusive(t: Test, k1: set<int>, k2: set<int>): nat
    requires k1 != {} && k2 != {}
  {
    Count(t, k1, k2, MaxKey(k1), MaxKey(k2), Max(MaxKey(k1), MaxKey(k2)) + 1)
  }

  ghost function WeightDifferenceInclusive(g1: Genome, g2: Genome): F64
    requires g1.connections != map[] && g2.connections != map[]
  {
    var c1, c2 := g1.connections.Keys, g2.connections.Keys;
    var range := Max(MaxKey(c1), MaxKey(c2)) + 1;
    MatchingIgnoresBounds(c1, c2, MaxKey(c1), MaxKey(c2), range);
    Div(WeightDiffSum(g1.connections, g2.connections, range), GeneCountInclusive(Matching, c1, c2) as real)
  }

  /** The distance with every scan over `0 ..= max(h1, h2)`; the node scan of the disjoint count keeps its excess test. */
  ghost function DistanceInclusive(g1: Genome, g2: Genome, c1: real, c2: real, c3: real): F64
    requires Countable(g1, g2)
  {
    var n1, n2, k1, k2 := g1.nodes.Keys, g2.nodes.Keys, g1.connections.Keys, g2.connections.Keys;
    var excess := GeneCountInclusive(Excess, n1, n2) + GeneCountInclusive(Excess, k1, k2);
    var disjoint := GeneCountInclusive(Excess, n1, n2) + GeneCountInclusive(Disjoint, k1, k2);
    Combine(c1, c2, c3, excess as real, disjoint as real, WeightDifferenceInclusive(g1, g2))
  }

  /** With the highest key scanned, the extra key of `TopKeyNeverCounted` is an excess gene. */
  lemma {:induction false} TopKeyCountedInclusive(k: set<int>, top: int)
    requires k != {} && top > MaxKey(k) && top >= 0
    ensures GeneCountInclusive(Excess, k + {top}, k) > 0
  {
    var k1 := k + {top};
    assert MaxKey(k1) == top;
    var h := MaxKey(k);
    assert Max(top, h) == top;
    assert Classified(Excess, k1, k, top, h, top);
    CountZeroIff(Excess, k1, k, top, h, top + 1);
  }

  /**
   * With the highest key scanned, a genome whose innovation numbers are not all
   * negative is at distance 0 from itself, so every positive threshold admits it.
   */
  lemma {:induction false} DistanceSelfInclusive(g: Genome, c1: real, c2: real, c3: real)
    requires Countable(g, g) && MaxKey(g.connections.Keys) >= 0
    ensures DistanceInclusive(g, g, c1, c2, c3) == Num(0.0)
    ensures forall t :: Greater(t, DistanceInclusive(g, g, c1, c2, c3)) <==> t > 0.0
  {
    var n, k := g.nodes.Keys, g.connections.Keys;
    var hn, hk := MaxKey(n), MaxKey(k);
    assert Max(hn, hn) == hn && Max(hk, hk) == hk;
    CountZeroIff(Excess, n, n, hn, hn, hn + 1);
    CountZeroIff(Excess, k, k, hk, hk, hk + 1);
    CountZeroIff(Disjoint, k, k, hk, hk, hk + 1);
    assert Classified(Matching, k, k, hk, hk, hk);
    CountZeroIff(Matching, k, k, hk, hk, hk + 1);
    WeightDiffSumSelf(g.connections, hk + 1);
    var w := WeightDifferenceInclusive(g, g);
    assert w == Num(0.0);
    assert DistanceInclusive(g, g, c1, c2, c3) == AddScaled(c1 * 0.0 + c2 * 0.0, c3, w);
  }
}
