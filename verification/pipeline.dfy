/** `prepare_data`: transform the corpus into an index-keyed dictionary, cut
    it into three splits and build one manifest per split, in the order
    train, valid, test. Seeding the generator is replaced by the `shuffle`
    parameter; writing the three JSON files is not modelled. */
module Pipeline {
  import opened Types
  import opened OrderedMap
  import opened Metadata
  import opened Matcher
  import opened Splitter
  import opened ManifestWriter

  /** The three manifests `prepare_data` writes. */
  datatype Manifests = Manifests(train: Manifest, valid: Manifest, test: Manifest)

  /** The whole preparation. The first failing stage decides the error:
      a malformed metadata line, then a bad ratio list, then the first
      undecodable file of the train, valid and test splits in that order. */
  function PrepareData(lines: seq<string>, names: seq<string>, listDir: string -> seq<string>,
                       root: string, sep: char, shuffle: seq<AudioRecord> -> seq<AudioRecord>,
                       ratios: seq<nat>, readAudio: string -> Option<nat>): (r: Result<Manifests>)
    ensures LoadInfo(lines).Err? ==> r == Err(LoadInfo(lines).error)
    ensures LoadInfo(lines).Ok? && |ratios| == 0 ==> r == Err(MissingRatio(0))
    ensures LoadInfo(lines).Ok? && |ratios| >= 1 && Sum(ratios) == 0 ==> r == Err(ZeroRatioSum)
    ensures LoadInfo(lines).Ok? && |ratios| == 1 && Sum(ratios) > 0 ==> r == Err(MissingRatio(1))
    ensures r.Ok? ==> Valid(r.value.train) && Valid(r.value.valid) && Valid(r.value.test)
  {
    var d :- TransformData(lines, names, listDir, root, sep);
    UnwrapWrapped(d, Flatten(LoadInfo(lines).value, names, listDir, root, sep));
    var sp :- SplitSets(d, shuffle, ratios);
    WriteManifests(sp, readAudio)
  }

  /** The three `create_json` calls, train first: the first split holding an
      undecodable file decides the error. */
  function WriteManifests(sp: Splits<AudioRecord>, readAudio: string -> Option<nat>): (r: Result<Manifests>)
    ensures r.Ok? <==> AllReadable(sp.train, readAudio) && AllReadable(sp.valid, readAudio) && AllReadable(sp.test, readAudio)
    ensures !AllReadable(sp.train, readAudio) ==> r.Err? && r.error == CreateJson(sp.train, readAudio).error
    ensures AllReadable(sp.train, readAudio) && !AllReadable(sp.valid, readAudio) ==>
              r.Err? && r.error == CreateJson(sp.valid, readAudio).error
    ensures AllReadable(sp.train, readAudio) && AllReadable(sp.valid, readAudio) && !AllReadable(sp.test, readAudio) ==>
              r.Err? && r.error == CreateJson(sp.test, readAudio).error
    ensures r.Ok? ==> r.value == Manifests(CreateJson(sp.train, readAudio).value, CreateJson(sp.valid, readAudio).value,
                                           CreateJson(sp.test, readAudio).value)
  {
    var train :- CreateJson(sp.train, readAudio);
    var valid :- CreateJson(sp.valid, readAudio);
    var test :- CreateJson(sp.test, readAudio);
    Ok(Manifests(train, valid, test))
  }

  /** The records the preparation works on, before the shuffle. */
  function Records(lines: seq<string>, names: seq<string>, listDir: string -> seq<string>,
                   root: string, sep: char): seq<AudioRecord>
    requires LoadInfo(lines).Ok?
  {
    Flatten(LoadInfo(lines).value, names, listDir, root, sep)
  }

  /** The shuffled list the three splits are cut from, and the manifests
      written from them. */
  lemma SplitsOfRecords(lines: seq<string>, names: seq<string>, listDir: string -> seq<string>,
                        root: string, sep: char, shuffle: seq<AudioRecord> -> seq<AudioRecord>,
                        ratios: seq<nat>, readAudio: string -> Option<nat>)
    requires LoadInfo(lines).Ok?
    ensures var d := TransformData(lines, names, listDir, root, sep).value;
            && Unwrappable(d)
            && SplitSets(d, shuffle, ratios) == Partition(shuffle(Records(lines, names, listDir, root, sep)), ratios)
    ensures var sp := Partition(shuffle(Records(lines, names, listDir, root, sep)), ratios);
            sp.Ok? ==> PrepareData(lines, names, listDir, root, sep, shuffle, ratios, readAudio) ==
                       WriteManifests(sp.value, readAudio)
  {
    var d := TransformData(lines, names, listDir, root, sep).value;
    UnwrapWrapped(d, Records(lines, names, listDir, root, sep));
  }

  /** Decodability does not depend on the order of the records. */
  lemma AllReadablePermuted(a: seq<AudioRecord>, b: seq<AudioRecord>, readAudio: string -> Option<nat>)
    requires multiset(a) == multiset(b)
    ensures AllReadable(a, readAudio) <==> AllReadable(b, readAudio)
  {
    forall i | 0 <= i < |a| ensures a[i] in b {
      assert a[i] in multiset(a);
    }
    forall i | 0 <= i < |b| ensures b[i] in a {
      assert b[i] in multiset(b);
    }
  }

  /** Every record of a concatenation is decodable exactly when every record
      of each part is. */
  lemma AllReadableConcat(a: seq<AudioRecord>, b: seq<AudioRecord>, c: seq<AudioRecord>,
                          readAudio: string -> Option<nat>)
    ensures AllReadable(a + b + c, readAudio) <==>
              AllReadable(a, readAudio) && AllReadable(b, readAudio) && AllReadable(c, readAudio)
  {
    var s := a + b + c;
    if AllReadable(a, readAudio) && AllReadable(b, readAudio) && AllReadable(c, readAudio) {
      forall i | 0 <= i < |s| ensures readAudio(s[i].path).Some? {
        if i < |a| {
          assert s[i] == a[i];
        } else if i < |a| + |b| {
          assert s[i] == b[i - |a|];
        } else {
          assert s[i] == c[i - |a| - |b|];
        }
      }
    }
    if AllReadable(s, readAudio) {
      forall i | 0 <= i < |a| ensures readAudio(a[i].path).Some? {
        assert s[i] == a[i];
      }
      forall i | 0 <= i < |b| ensures readAudio(b[i].path).Some? {
        assert s[|a| + i] == b[i];
      }
      forall i | 0 <= i < |c| ensures readAudio(c[i].path).Some? {
        assert s[|a| + |b| + i] == c[i];
      }
    }
  }

  /** With a shuffle that permutes, the preparation succeeds exactly when the
      metadata parses, the ratio list has at least two entries and a positive
      sum, and every matched file can be decoded. */
  lemma PrepareDataSucceeds(lines: seq<string>, names: seq<string>, listDir: string -> seq<string>,
                            root: string, sep: char, shuffle: seq<AudioRecord> -> seq<AudioRecord>,
                            ratios: seq<nat>, readAudio: string -> Option<nat>)
    requires IsShuffle(shuffle)
    ensures PrepareData(lines, names, listDir, root, sep, shuffle, ratios, readAudio).Ok? <==>
              && LoadInfo(lines).Ok?
              && |ratios| >= 2 && Sum(ratios) > 0
              && AllReadable(Records(lines, names, listDir, root, sep), readAudio)
  {
    if LoadInfo(lines).Ok? && |ratios| >= 2 && Sum(ratios) > 0 {
      var flat := Records(lines, names, listDir, root, sep);
      SplitsOfRecords(lines, names, listDir, root, sep, shuffle, ratios, readAudio);
      var sp := Partition(shuffle(flat), ratios).value;
      assert multiset(shuffle(flat)) == multiset(flat);
      AllReadablePermuted(shuffle(flat), flat, readAudio);
      AllReadableConcat(sp.train, sp.valid, sp.test, readAudio);
    }
  }

  /** The ids of a concatenation are the ids of its parts, in order. */
  lemma {:induction false} UttIdsAppend(a: seq<AudioRecord>, b: seq<AudioRecord>)
    ensures UttIds(a + b) == UttIds(a) + UttIds(b)
  {
    if |b| == 0 {
      assert a + b == a;
    } else {
      var n := |b| - 1;
      assert (a + b)[..|a + b| - 1] == a + b[..n];
      UttIdsAppend(a, b[..n]);
    }
  }

  /** Which ids occur does not depend on the order of the records. */
  lemma UttIdsPermuted(a: seq<AudioRecord>, b: seq<AudioRecord>, id: string)
    requires multiset(a) == multiset(b)
    ensures id in UttIds(a) <==> id in UttIds(b)
  {
    if id in UttIds(a) {
      var k :| 0 <= k < |a| && UttIds(a)[k] == id;
      InMultiset(a, b, k);
      var j :| 0 <= j < |b| && b[j] == a[k];
      assert UttIds(b)[j] == id;
    }
    if id in UttIds(b) {
      var k :| 0 <= k < |b| && UttIds(b)[k] == id;
      InMultiset(b, a, k);
      var j :| 0 <= j < |a| && a[j] == b[k];
      assert UttIds(a)[j] == id;
    }
  }

  /** When the shuffled list is a permutation of the records, there are at
      least two weights with a positive sum and every file decodes, the
      manifests are written, and together they are keyed by exactly the
      utterance ids of the records. */
  lemma ManifestsKeys(flat: seq<AudioRecord>, shuffle: seq<AudioRecord> -> seq<AudioRecord>,
                      ratios: seq<nat>, readAudio: string -> Option<nat>)
    requires multiset(shuffle(flat)) == multiset(flat)
    requires |ratios| >= 2 && Sum(ratios) > 0
    requires AllReadable(flat, readAudio)
    ensures Partition(shuffle(flat), ratios).Ok?
    ensures WriteManifests(Partition(shuffle(flat), ratios).value, readAudio).Ok?
    ensures var ms := WriteManifests(Partition(shuffle(flat), ratios).value, readAudio).value;
            forall id :: (id in ms.train.keys || id in ms.valid.keys || id in ms.test.keys) <==> id in UttIds(flat)
  {
    var sp := Partition(shuffle(flat), ratios).value;
    AllReadablePermuted(shuffle(flat), flat, readAudio);
    AllReadableConcat(sp.train, sp.valid, sp.test, readAudio);
    var ms := WriteManifests(sp, readAudio).value;
    assert multiset(sp.train + sp.valid + sp.test) == multiset(flat);
    ManifestKeys(sp.train, readAudio);
    ManifestKeys(sp.valid, readAudio);
    ManifestKeys(sp.test, readAudio);
    UttIdsAppend(sp.train, sp.valid);
    UttIdsAppend(sp.train + sp.valid, sp.test);
    forall id
      ensures (id in ms.train.keys || id in ms.valid.keys || id in ms.test.keys) <==> id in UttIds(flat)
    {
      UttIdsPermuted(sp.train + sp.valid + sp.test, flat, id);
    }
  }

  /** An element at a position of `a` sits at some position of any `b` with the same multiset. */
  lemma InMultiset(a: seq<AudioRecord>, b: seq<AudioRecord>, i: nat)
    requires multiset(a) == multiset(b) && i < |a|
    ensures exists j :: 0 <= j < |b| && b[j] == a[i]
  {
    assert a[i] in multiset(b);
  }
}
