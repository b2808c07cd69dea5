/** `split_sets`: unwrap the index-keyed dictionary back into a list, shuffle
    it, and cut it into train, valid and test by ratio weights. The shuffle is
    a parameter: the seeded generator is not modelled, only the fact that a
    shuffle permutes the list. */
module Splitter {
  import opened Types
  import opened OrderedMap

  datatype Splits<T> = Splits(train: seq<T>, valid: seq<T>, test: seq<T>)

  /** Python's `sum` of the ratio list. */
  function Sum(rs: seq<nat>): nat
  {
    if |rs| == 0 then 0 else rs[0] + Sum(rs[1..])
  }

  /** `s[0:n]` for n >= 0: clamped to the list. */
  function Take<T>(s: seq<T>, n: nat): seq<T>
  {
    if n <= |s| then s[..n] else s
  }

  /** `del s[0:n]` for n >= 0: what is left after the first n elements. */
  function Drop<T>(s: seq<T>, n: nat): seq<T>
  {
    if n <= |s| then s[n..] else []
  }

  /** The shuffle permutes its input. */
  ghost predicate IsShuffle<T(!new)>(shuffle: seq<T> -> seq<T>)
  {
    forall s :: multiset(shuffle(s)) == multiset(s)
  }

  /** Every key of the iteration order holds a non-empty list, so `d[key][0]` exists. */
  predicate Unwrappable<T>(d: OMap<int, seq<T>>)
  {
    forall i :: 0 <= i < |d.keys| ==> d.keys[i] in d.entries && |d.entries[d.keys[i]]| > 0
  }

  /** The first loop of `split_sets`: `d[key][0]` for every key, in the
      dictionary's iteration order. */
  function Unwrap<T>(d: OMap<int, seq<T>>): (l: seq<T>)
    requires Unwrappable(d)
    ensures |l| == |d.keys|
    ensures forall i :: 0 <= i < |l| ==> l[i] == d.entries[d.keys[i]][0]
    decreases |d.keys|
  {
    if |d.keys| == 0 then []
    else
      var n := |d.keys| - 1;
      Unwrap(OMap(d.keys[..n], d.entries)) + [d.entries[d.keys[n]][0]]
  }

  /** `int(n * r / total)`: the script divides in floating point and
      truncates; on naturals that is the floor of the exact quotient. */
  function Share(n: nat, r: nat, total: nat): nat
    requires total > 0
  {
    n * r / total
  }

  /** The cut of an already shuffled list. The ratio list is read the way the
      script reads it: its sum first, then `ratios[0]` and `ratios[1]`, each
      multiplied by the list's length and divided by the sum. */
  function Partition<T>(list: seq<T>, ratios: seq<nat>): (r: Result<Splits<T>>)
    ensures r.Err? <==> |ratios| < 2 || Sum(ratios) == 0
    ensures |ratios| == 0 ==> r == Err(MissingRatio(0))
    ensures |ratios| >= 1 && Sum(ratios) == 0 ==> r == Err(ZeroRatioSum)
    ensures |ratios| == 1 && Sum(ratios) > 0 ==> r == Err(MissingRatio(1))
    ensures r.Ok? ==>
              var sp := r.value;
              && |sp.train| == Share(|list|, ratios[0], Sum(ratios))
              && |sp.valid| == Share(|list|, ratios[1], Sum(ratios))
              && |sp.test| == |list| - |sp.train| - |sp.valid|
              && sp.train + sp.valid + sp.test == list
  {
    if |ratios| == 0 then Err(MissingRatio(0))
    else if Sum(ratios) == 0 then Err(ZeroRatioSum)
    else if |ratios| == 1 then Err(MissingRatio(1))
    else
      var total := Sum(ratios);
      var nTrain := Share(|list|, ratios[0], total);
      var train := Take(list, nTrain);
      var rest := Drop(list, nTrain);
      var nValid := Share(|list|, ratios[1], total);
      var valid := Take(rest, nValid);
      var test := Drop(rest, nValid);
      SharesFit(|list|, ratios);
      assert train + valid + test == list by {
        assert valid + test == rest;
        assert train + rest == list;
      }
      Ok(Splits(train, valid, test))
  }

  /** `split_sets`: unwrap, shuffle, cut. */
  function SplitSets<T>(d: OMap<int, seq<T>>, shuffle: seq<T> -> seq<T>, ratios: seq<nat>): (r: Result<Splits<T>>)
    requires Unwrappable(d)
    ensures r.Ok? ==> r.value.train + r.value.valid + r.value.test == shuffle(Unwrap(d))
  {
    Partition(shuffle(Unwrap(d)), ratios)
  }

  // ---------------------------------------------------------------------------
  // arithmetic behind the cut

  lemma SumFirstTwo(rs: seq<nat>)
    requires |rs| >= 2
    ensures rs[0] + rs[1] <= Sum(rs)
  {
    assert Sum(rs) == rs[0] + Sum(rs[1..]);
    assert Sum(rs[1..]) == rs[1] + Sum(rs[2..]);
  }

  lemma DivAddLe(a: nat, b: nat, d: nat)
    requires d > 0
    ensures a / d + b / d <= (a + b) / d
  {
    MulDivBelow(a, d);
    MulDivBelow(b, d);
    MulAdd(d, a / d, b / d);
    DivLowerBound(a + b, a / d + b / d, d);
  }

  lemma MulDivBelow(x: nat, d: nat)
    requires d > 0
    ensures d * (x / d) <= x
  {
    assert x == d * (x / d) + x % d;
  }

  lemma MulAdd(d: nat, x: nat, y: nat)
    ensures d * (x + y) == d * x + d * y
  {
  }

  lemma MulMono(d: nat, a: nat, b: nat)
    requires a <= b
    ensures d * a <= d * b
  {
    assert d * b == d * a + d * (b - a);
  }

  lemma DivLowerBound(x: nat, q: nat, d: nat)
    requires d > 0 && d * q <= x
    ensures q <= x / d
  {
    var r := x / d;
    assert x == d * r + x % d;
    assert x % d < d;
    if r < q {
      MulMono(d, r + 1, q);
      assert false;
    }
  }

  lemma MulDivLe(n: nat, r: nat, d: nat)
    requires d > 0 && r <= d
    ensures n * r / d <= n
  {
    MulMono(n, r, d);
    DivMonotone(n * r, n * d, d);
    assert n * d / d == n;
  }

  lemma DivMonotone(x: nat, y: nat, d: nat)
    requires d > 0 && x <= y
    ensures x / d <= y / d
  {
    var qx := x / d;
    assert d * qx + x % d == x;
    DivLowerBound(y, qx, d);
  }

  /** The two computed shares never exceed the list: the slices are never clamped. */
  lemma SharesFit(n: nat, ratios: seq<nat>)
    requires |ratios| >= 2 && Sum(ratios) > 0
    ensures Share(n, ratios[0], Sum(ratios)) + Share(n, ratios[1], Sum(ratios)) <= n
  {
    var total := Sum(ratios);
    SumFirstTwo(ratios);
    DivAddLe(n * ratios[0], n * ratios[1], total);
    assert n * ratios[0] + n * ratios[1] == n * (ratios[0] + ratios[1]);
    MulDivLe(n, ratios[0] + ratios[1], total);
  }

  // ---------------------------------------------------------------------------
  // properties of the split

  /** A zero weight gives an empty split. */
  lemma ZeroRatioGivesEmptySplit<T>(list: seq<T>, ratios: seq<nat>)
    requires Partition(list, ratios).Ok?
    ensures ratios[0] == 0 ==> Partition(list, ratios).value.train == []
    ensures ratios[1] == 0 ==> Partition(list, ratios).value.valid == []
  {
    var total := Sum(ratios);
    assert |list| * 0 == 0;
    assert Share(|list|, 0, total) == 0;
  }

  /** Weights `[0, 0, k]` with k > 0 put the whole list in test. */
  lemma AllToTest<T>(list: seq<T>, k: nat)
    requires k > 0
    ensures Partition(list, [0, 0, k]) == Ok(Splits([], [], list))
  {
    var ratios: seq<nat> := [0, 0, k];
    assert Sum(ratios) == k by {
      assert ratios[1..][1..][1..] == [];
      assert Sum(ratios[1..][1..]) == k + Sum(ratios[1..][1..][1..]);
      assert Sum(ratios[1..]) == 0 + Sum(ratios[1..][1..]);
    }
    var sp := Partition(list, ratios).value;
    assert sp.train + sp.valid + sp.test == list;
  }

  /** Unwrapping the dictionary built by the matcher gives back the flat list. */
  lemma UnwrapWrapped<T>(d: OMap<int, seq<T>>, flat: seq<T>)
    requires |d.keys| == |flat|
    requires forall i :: 0 <= i < |flat| ==> d.keys[i] == i && i in d.entries && d.entries[i] == [flat[i]]
    ensures Unwrappable(d)
    ensures Unwrap(d) == flat
  {
  }

  /** With a shuffle that permutes, the three splits together hold exactly the
      records of the dictionary: nothing lost, nothing added, nothing twice
      more often than it was there. */
  lemma SplitsArePermutation<T(!new)>(d: OMap<int, seq<T>>, shuffle: seq<T> -> seq<T>, ratios: seq<nat>)
    requires Unwrappable(d)
    requires IsShuffle(shuffle)
    requires SplitSets(d, shuffle, ratios).Ok?
    ensures var sp := SplitSets(d, shuffle, ratios).value;
            multiset(sp.train) + multiset(sp.valid) + multiset(sp.test) == multiset(Unwrap(d))
  {
    var sp := SplitSets(d, shuffle, ratios).value;
    var shuffled := shuffle(Unwrap(d));
    assert sp.train + sp.valid + sp.test == shuffled;
    assert multiset(sp.train + sp.valid + sp.test) == multiset(sp.train) + multiset(sp.valid) + multiset(sp.test);
  }
}
