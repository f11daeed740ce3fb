// A stable insertion sort by a real-valued key, standing in for the library `sort_by`.
module Sorting {

  /** `s` is in non-increasing key order. */
  predicate SortedDesc<T>(s: seq<T>, key: T -> real)
  {
    forall i, j :: 0 <= i < j < |s| ==> key(s[i]) >= key(s[j])
  }

  /** Inserts `x` before the first element whose key is not greater than its own. */
  function Insert<T>(x: T, s: seq<T>, key: T -> real): (r: seq<T>)
    ensures multiset(r) == multiset(s) + multiset{x}
    ensures |r| == |s| + 1
  {
    if s == [] then [x]
    else if key(x) >= key(s[0]) then [x] + s
    else
      assert s == [s[0]] + s[1..];
      [s[0]] + Insert(x, s[1..], key)
  }

  /** Sorts by non-increasing key; equal keys keep their original order. */
  function SortDesc<T>(s: seq<T>, key: T -> real): (r: seq<T>)
    ensures multiset(r) == multiset(s)
    ensures |r| == |s|
  {
    if s == [] then []
    else
      assert s == [s[0]] + s[1..];
      Insert(s[0], SortDesc(s[1..], key), key)
  }

  lemma {:induction false} InsertSorted<T>(x: T, s: seq<T>, key: T -> real)
    requires SortedDesc(s, key)
    ensures SortedDesc(Insert(x, s, key), key)
    ensures s != [] ==> Insert(x, s, key)[0] == x || Insert(x, s, key)[0] == s[0]
  {
    if s != [] && key(x) < key(s[0]) {
      var t := Insert(x, s[1..], key);
      InsertSorted(x, s[1..], key);
      assert key(s[0]) >= key(t[0]) by {
        if s[1..] != [] { assert s[1..][0] == s[1]; }
      }
      var r := Insert(x, s, key);
      assert r == [s[0]] + t;
      forall i, j | 0 <= i < j < |r| ensures key(r[i]) >= key(r[j]) {
        if i == 0 && j > 1 {
          assert key(t[0]) >= key(t[j - 1]);
        }
      }
    }
  }

  /** The sort yields a permutation in non-increasing key order. */
  lemma {:induction false} SortDescSorted<T>(s: seq<T>, key: T -> real)
    ensures SortedDesc(SortDesc(s, key), key)
  {
    if s != [] {
      SortDescSorted(s[1..], key);
      InsertSorted(s[0], SortDesc(s[1..], key), key);
    }
  }

  /** Sorting an already sorted sequence changes nothing. */
  lemma {:induction false} SortDescOfSorted<T>(s: seq<T>, key: T -> real)
    requires SortedDesc(s, key)
    ensures SortDesc(s, key) == s
  {
    if s != [] {
      SortDescOfSorted(s[1..], key);
      assert SortDesc(s[1..], key) == s[1..];
      assert s == [s[0]] + s[1..];
    }
  }

  /** Sorting twice is sorting once. */
  lemma {:induction false} SortDescIdempotent<T>(s: seq<T>, key: T -> real)
    ensures SortDesc(SortDesc(s, key), key) == SortDesc(s, key)
  {
    SortDescSorted(s, key);
    SortDescOfSorted(SortDesc(s, key), key);
  }

  /** The head of a non-empty sorted sequence has the largest key. */
  lemma {:induction false} SortDescHeadIsMax<T>(s: seq<T>, key: T -> real)
    requires s != []
    ensures SortDesc(s, key) != [] && SortDesc(s, key)[0] in multiset(s)
    ensures forall x :: x in multiset(s) ==> key(x) <= key(SortDesc(s, key)[0])
  {
    var r := SortDesc(s, key);
    SortDescSorted(s, key);
    assert r[0] in multiset(r);
    forall x | x in multiset(s) ensures key(x) <= key(r[0]) {
      assert x in multiset(r);
      var m :| 0 <= m < |r| && r[m] == x;
    }
  }

  function NegInt(x: int): real
  {
    -(x as real)
  }

  /** `as_sorted_vec`: a permutation of the input in ascending order. */
  function AsSortedVec(v: seq<int>): (r: seq<int>)
    ensures multiset(r) == multiset(v)
    ensures forall i, j :: 0 <= i < j < |r| ==> r[i] <= r[j]
  {
    SortDescSorted(v, NegInt);
    SortDesc(v, NegInt)
  }

  lemma {:induction false} NonEmptyHasElement(s: set<int>)
    requires s != {}
    ensures exists x :: x in s
  {
    if forall x :: x !in s {
      assert false;
    }
  }

  /**
   * `keys_to_vec`: the keys of a map, each exactly once, in an unspecified order
   * (hash order in the source; here any order the loop happens to pick).
   */
  method KeysToVec(keys: set<int>) returns (v: seq<int>)
    ensures forall k :: k in keys <==> k in v
    ensures |v| == |keys|
    ensures forall i, j :: 0 <= i < j < |v| ==> v[i] != v[j]
  {
    v := [];
    var rest := keys;
    while rest != {}
      invariant rest <= keys
      invariant forall k :: k in keys <==> k in v || k in rest
      invariant forall k :: k in v ==> k !in rest
      invariant |v| + |rest| == |keys|
      invariant forall i, j :: 0 <= i < j < |v| ==> v[i] != v[j]
      decreases rest
    {
      NonEmptyHasElement(rest);
      var k :| k in rest;
      v := v + [k];
      rest := rest - {k};
    }
  }

  function Min(a: int, b: int): int
  {
    if a < b then a else b
  }

  /** Removing the element at `|p|` from `r == p + s[t..]` leaves `p + s[t + 1..]`. */
  lemma {:induction false} DropAt<T>(r: seq<T>, p: seq<T>, s: seq<T>, t: nat)
    requires t < |s| && r == p + s[t..]
    ensures r[..|p|] + r[|p| + 1..] == p + s[t + 1..]
  {
    assert r[..|p|] == p;
    assert r[|p| + 1..] == s[t + 1..];
  }

  /** Moving the split point of `s` one place to the right. */
  lemma {:induction false} ShiftSplit<T>(s: seq<T>, t: nat)
    requires t < |s|
    ensures s[..t] + s[t..] == s[..t + 1] + s[t + 1..]
  {
    assert s[..t] + s[t..] == s;
    assert s[..t + 1] + s[t + 1..] == s;
  }

  /**
   * The truncation loop shared by `kill` and `evaluate_generation`: walk once per
   * original element, removing at `index` once it has passed `cutoff`. It keeps
   * exactly the first `cutoff + 1` elements.
   */
  method KeepFirst<T>(s: seq<T>, cutoff: nat) returns (r: seq<T>)
    ensures r == s[..Min(|s|, cutoff + 1)]
  {
    r := s;
    var index := 0;
    var t := 0;
    while t < |s|
      invariant 0 <= t <= |s|
      invariant index <= t && index <= cutoff + 1
      invariant index <= cutoff ==> index == t
      invariant r == s[..index] + s[t..]
    {
      if index > cutoff {
        DropAt(r, s[..index], s, t);
        r := r[..index] + r[index + 1..];
      } else {
        ShiftSplit(s, t);
        index := index + 1;
      }
      t := t + 1;
    }
    assert s[t..] == [];
  }
}
