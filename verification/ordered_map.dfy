/** An insertion-ordered dictionary, as Python's `dict` behaves: a new key is
    appended to the iteration order, assigning to an existing key replaces its
    value and keeps its position. */
module OrderedMap {
  import opened Seqs

  datatype OMap<K, V> = OMap(keys: seq<K>, entries: map<K, V>)

  /** The iteration order lists every key exactly once. */
  ghost predicate Valid<K(!new), V>(m: OMap<K, V>)
  {
    && Distinct(m.keys)
    && (forall k :: k in m.entries <==> k in m.keys)
  }

  function Empty<K(!new), V>(): (m: OMap<K, V>)
    ensures Valid(m)
    ensures |m.keys| == 0 && m.entries == map[]
  {
    OMap([], map[])
  }

  /** `d[k]` when `k` is present, `dflt` otherwise. */
  function GetOr<K, V>(m: OMap<K, V>, k: K, dflt: V): V
  {
    if k in m.entries then m.entries[k] else dflt
  }

  /** `d[k] = v` */
  function Put<K(!new), V>(m: OMap<K, V>, k: K, v: V): (r: OMap<K, V>)
    requires Valid(m)
    ensures Valid(r)
    ensures r.entries == m.entries[k := v]
    ensures k in m.entries ==> r.keys == m.keys
    ensures k !in m.entries ==> r.keys == m.keys + [k]
  {
    if k in m.entries then OMap(m.keys, m.entries[k := v])
    else OMap(m.keys + [k], m.entries[k := v])
  }

  /** The dictionary built by assigning `d[ks[i]] = vs[i]` for i = 0, 1, ... */
  function FromPairs<K(!new), V>(ks: seq<K>, vs: seq<V>): (m: OMap<K, V>)
    requires |ks| == |vs|
    ensures Valid(m)
    ensures forall k :: k in m.entries <==> k in ks
  {
    if |ks| == 0 then Empty()
    else Put(FromPairs(ks[..|ks| - 1], vs[..|vs| - 1]), ks[|ks| - 1], vs[|vs| - 1])
  }

  /** Last write wins: a key holds the value of its last assignment. */
  lemma {:induction false} FromPairsLastWins<K(!new), V>(ks: seq<K>, vs: seq<V>, i: nat)
    requires |ks| == |vs| && i < |ks|
    requires forall j :: i < j < |ks| ==> ks[j] != ks[i]
    ensures ks[i] in FromPairs(ks, vs).entries
    ensures FromPairs(ks, vs).entries[ks[i]] == vs[i]
  {
    var n := |ks| - 1;
    var pre := FromPairs(ks[..n], vs[..n]);
    assert FromPairs(ks, vs) == Put(pre, ks[n], vs[n]);
    if i < n {
      assert ks[..n][i] == ks[i] && vs[..n][i] == vs[i];
      assert forall j :: i < j < n ==> ks[..n][j] == ks[j];
      FromPairsLastWins(ks[..n], vs[..n], i);
      assert ks[n] != ks[i];
    }
  }

  /** `keys` lists elements of `ks` in the order of their first occurrence there. */
  predicate InFirstOccurrenceOrder<K(==)>(keys: seq<K>, ks: seq<K>)
  {
    forall a, b :: 0 <= a < b < |keys| ==>
      keys[a] in ks && keys[b] in ks && FirstIndex(ks, keys[a]) < FirstIndex(ks, keys[b])
  }

  /** A key keeps the position of its first assignment: the iteration order
      is the order of first occurrence in `ks`. */
  lemma {:induction false} FromPairsKeyOrder<K(!new), V>(ks: seq<K>, vs: seq<V>)
    requires |ks| == |vs|
    ensures InFirstOccurrenceOrder(FromPairs(ks, vs).keys, ks)
  {
    if |ks| > 0 {
      var n := |ks| - 1;
      var pre := FromPairs(ks[..n], vs[..n]);
      FromPairsKeyOrder(ks[..n], vs[..n]);
      assert forall a :: 0 <= a < |pre.keys| ==> pre.keys[a] in ks[..n];
      OrderKeptByLongerList(pre.keys, ks, n);
      if ks[n] !in pre.entries {
        OrderKeptByFreshKey(pre.keys, ks, n);
      }
    } else {
      assert FromPairs(ks, vs) == Empty();
    }
  }

  /** First occurrences in a prefix are first occurrences in the whole list. */
  lemma OrderKeptByLongerList<K>(keys: seq<K>, ks: seq<K>, n: nat)
    requires n <= |ks| && InFirstOccurrenceOrder(keys, ks[..n])
    requires forall a :: 0 <= a < |keys| ==> keys[a] in ks[..n]
    ensures InFirstOccurrenceOrder(keys, ks)
  {
    forall a | 0 <= a < |keys|
      ensures keys[a] in ks && FirstIndex(ks, keys[a]) == FirstIndex(ks[..n], keys[a])
    {
      FirstIndexPrefix(ks, n, keys[a]);
    }
  }

  /** A key first seen at position `n`, after every listed key, goes last. */
  lemma OrderKeptByFreshKey<K>(keys: seq<K>, ks: seq<K>, n: nat)
    requires n < |ks| && ks[n] !in ks[..n]
    requires InFirstOccurrenceOrder(keys, ks)
    requires forall a :: 0 <= a < |keys| ==> keys[a] in ks[..n]
    ensures InFirstOccurrenceOrder(keys + [ks[n]], ks)
  {
    FirstIndexOfFresh(ks, n);
    var keys' := keys + [ks[n]];
    forall a | 0 <= a < |keys|
      ensures FirstIndex(ks, keys'[a]) < n
    {
      assert keys'[a] == keys[a];
      FirstIndexPrefix(ks, n, keys[a]);
    }
  }

  /** The first occurrence is the only position holding `x` with no `x` before it. */
  lemma FirstIndexUnique<T>(s: seq<T>, x: T, i: nat)
    requires i < |s| && s[i] == x && x !in s[..i]
    ensures FirstIndex(s, x) == i
  {
  }

  lemma FirstIndexPrefix<T>(s: seq<T>, n: nat, x: T)
    requires n <= |s| && x in s[..n]
    ensures FirstIndex(s, x) == FirstIndex(s[..n], x)
  {
    var i := FirstIndex(s[..n], x);
    assert s[..n][..i] == s[..i];
    FirstIndexUnique(s, x, i);
  }

  lemma FirstIndexOfFresh<T>(s: seq<T>, n: nat)
    requires n < |s| && s[n] !in s[..n]
    ensures FirstIndex(s, s[n]) == n
  {
    FirstIndexUnique(s, s[n], n);
  }
}
