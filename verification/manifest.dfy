/** `create_json`: fold one split's records into the manifest dictionary
    `uttid -> {wav, length, regions}`. Decoding the audio is a parameter
    (`readAudio` gives the sample count, or None when the file cannot be
    decoded); writing the JSON file is not modelled. */
module ManifestWriter {
  import opened Seqs
  import opened Types
  import opened Text
  import opened OrderedMap

  /** The sample rate the script assumes for every file. */
  const SampleRate: nat := 16000

  /** One manifest value: the audio path, its duration in seconds and its region label. */
  datatype Entry = Entry(wav: string, length: real, regions: string)

  type Manifest = OMap<string, Entry>

  /** `wav_file.split("/")[-1][:-4]`: the file name after the last `/`,
      without its last four characters. It holds no `/`, and it is the file
      name shortened by four characters, or empty when the name is shorter. */
  function UttId(path: string): (id: string)
    ensures '/' !in id
    ensures var name := LastPiece(path, '/');
            && |id| == (if |name| >= 4 then |name| - 4 else 0)
            && id == name[..|id|]
  {
    LastPieceIsLongestSuffix(path, '/');
    SliceTo(LastPiece(path, '/'), -4)
  }

  /** The duration of `samples` samples at the assumed rate, in seconds. */
  function Duration(samples: nat): (seconds: real)
    ensures seconds >= 0.0
    ensures seconds * SampleRate as real == samples as real
  {
    samples as real / SampleRate as real
  }

  /** The manifest value of one record whose audio has `samples` samples. */
  function EntryOf(rec: AudioRecord, samples: nat): Entry
  {
    Entry(rec.path, Duration(samples), rec.region)
  }

  /** Every record's audio can be decoded. */
  predicate AllReadable(recs: seq<AudioRecord>, readAudio: string -> Option<nat>)
  {
    forall i :: 0 <= i < |recs| ==> readAudio(recs[i].path).Some?
  }

  /** A list is readable when its prefix and its last record are. */
  lemma AllReadableSnoc(recs: seq<AudioRecord>, readAudio: string -> Option<nat>)
    requires |recs| > 0
    ensures AllReadable(recs, readAudio) <==>
              AllReadable(recs[..|recs| - 1], readAudio) && readAudio(recs[|recs| - 1].path).Some?
  {
    var n := |recs| - 1;
    assert forall i :: 0 <= i < n ==> recs[..n][i] == recs[i];
  }

  /** The loop of `create_json`, record by record. The first record whose audio
      cannot be decoded aborts the whole manifest with its path (see
      `CreateJsonStopsAtFirstFailure`); otherwise each record assigns
      `json_dict[uttid] = entry`. */
  function CreateJson(recs: seq<AudioRecord>, readAudio: string -> Option<nat>): (r: Result<Manifest>)
    ensures r.Ok? <==> AllReadable(recs, readAudio)
    ensures r.Err? ==> r.error.AudioReadError? && readAudio(r.error.path).None?
    ensures r.Ok? ==> Valid(r.value)
  {
    if |recs| == 0 then Ok(Empty())
    else
      var n := |recs| - 1;
      var rec := recs[n];
      AllReadableSnoc(recs, readAudio);
      match CreateJson(recs[..n], readAudio)
      case Err(e) => Err(e)
      case Ok(m) =>
        match readAudio(rec.path)
        case None => Err(AudioReadError(rec.path))
        case Some(samples) => Ok(Put(m, UttId(rec.path), EntryOf(rec, samples)))
  }

  /** The error names the first record whose audio cannot be decoded: the
      records before it are all read, the ones after it are never reached. */
  lemma {:induction false} CreateJsonStopsAtFirstFailure(recs: seq<AudioRecord>, readAudio: string -> Option<nat>,
                                                        i: nat)
    requires i < |recs| && readAudio(recs[i].path).None?
    requires AllReadable(recs[..i], readAudio)
    ensures CreateJson(recs, readAudio) == Err(AudioReadError(recs[i].path))
  {
    var n := |recs| - 1;
    if i < n {
      assert recs[..n][..i] == recs[..i];
      CreateJsonStopsAtFirstFailure(recs[..n], readAudio, i);
    } else {
      assert recs[..n] == recs[..i];
      assert AllReadable(recs[..n], readAudio) by {
        forall k | 0 <= k < n ensures readAudio(recs[..n][k].path).Some? {
          assert recs[..n][k] == recs[..i][k];
        }
      }
    }
  }

  /** The utterance ids of the records, in order. */
  function UttIds(recs: seq<AudioRecord>): (ids: seq<string>)
    ensures |ids| == |recs|
    ensures forall i :: 0 <= i < |recs| ==> ids[i] == UttId(recs[i].path)
  {
    if |recs| == 0 then []
    else UttIds(recs[..|recs| - 1]) + [UttId(recs[|recs| - 1].path)]
  }

  /** The manifest value of a record, with no samples when its audio cannot be decoded. */
  function EntryOrEmpty(rec: AudioRecord, readAudio: string -> Option<nat>): Entry
  {
    match readAudio(rec.path)
    case Some(samples) => EntryOf(rec, samples)
    case None => EntryOf(rec, 0)
  }

  /** The manifest values of the records, in order. */
  function Entries(recs: seq<AudioRecord>, readAudio: string -> Option<nat>): (es: seq<Entry>)
    ensures |es| == |recs|
    ensures forall i :: 0 <= i < |recs| ==> es[i] == EntryOrEmpty(recs[i], readAudio)
  {
    if |recs| == 0 then []
    else Entries(recs[..|recs| - 1], readAudio) + [EntryOrEmpty(recs[|recs| - 1], readAudio)]
  }

  /** A successful manifest is the dictionary built by assigning each
      record's entry to its utterance id, in record order. */
  lemma {:induction false} CreateJsonIsFold(recs: seq<AudioRecord>, readAudio: string -> Option<nat>)
    requires AllReadable(recs, readAudio)
    ensures CreateJson(recs, readAudio) == Ok(FromPairs(UttIds(recs), Entries(recs, readAudio)))
  {
    if |recs| > 0 {
      var n := |recs| - 1;
      assert AllReadable(recs[..n], readAudio);
      CreateJsonIsFold(recs[..n], readAudio);
      assert UttIds(recs)[..n] == UttIds(recs[..n]);
      assert Entries(recs, readAudio)[..n] == Entries(recs[..n], readAudio);
    }
  }

  /** The manifest's keys are exactly the utterance ids of the records, each once. */
  lemma {:induction false} ManifestKeys(recs: seq<AudioRecord>, readAudio: string -> Option<nat>)
    requires AllReadable(recs, readAudio)
    ensures var m := CreateJson(recs, readAudio).value;
            && Distinct(m.keys)
            && forall id :: id in m.keys <==> id in UttIds(recs)
  {
    if |recs| > 0 {
      var n := |recs| - 1;
      AllReadableSnoc(recs, readAudio);
      ManifestKeys(recs[..n], readAudio);
      assert UttIds(recs) == UttIds(recs[..n]) + [UttId(recs[n].path)];
    }
  }

  /** Last write wins: a key holds the entry of the last record with that
      utterance id. */
  lemma {:induction false} ManifestLastWins(recs: seq<AudioRecord>, readAudio: string -> Option<nat>, i: nat)
    requires AllReadable(recs, readAudio)
    requires i < |recs|
    requires forall j :: i < j < |recs| ==> UttId(recs[j].path) != UttId(recs[i].path)
    ensures var m := CreateJson(recs, readAudio).value;
            && UttId(recs[i].path) in m.entries
            && m.entries[UttId(recs[i].path)] == EntryOf(recs[i], readAudio(recs[i].path).value)
  {
    var n := |recs| - 1;
    assert AllReadable(recs[..n], readAudio);
    if i < n {
      ManifestLastWins(recs[..n], readAudio, i);
    }
  }

  /** A repeated utterance id keeps the position of its first record: the
      manifest's key order is the order in which ids first occur. */
  lemma ManifestKeyOrder(recs: seq<AudioRecord>, readAudio: string -> Option<nat>)
    requires AllReadable(recs, readAudio)
    ensures var m := CreateJson(recs, readAudio).value;
            forall a, b :: 0 <= a < b < |m.keys| ==>
              m.keys[a] in UttIds(recs) && m.keys[b] in UttIds(recs) &&
              FirstIndex(UttIds(recs), m.keys[a]) < FirstIndex(UttIds(recs), m.keys[b])
  {
    CreateJsonIsFold(recs, readAudio);
    FromPairsKeyOrder(UttIds(recs), Entries(recs, readAudio));
  }

  /** A file `stem + ext` in any directory, with a four-character extension
      and no `/` in its name, has the stem as its utterance id. */
  lemma UttIdOfFile(dir: string, stem: string, ext: string)
    requires '/' !in stem && '/' !in ext && |ext| == 4
    ensures UttId(dir + "/" + stem + ext) == stem
  {
    var name := stem + ext;
    assert '/' !in name;
    assert dir + "/" + stem + ext == dir + ['/'] + name;
    LastPieceAfterSeparator(dir, name, '/');
    SliceToDropsSuffix(stem, ext);
  }

  /** `.../clip01.wav` has the id `clip01`. The cut is by position, not by
      extension: a five-character extension leaves its dot behind. */
  lemma UttIdExample()
    ensures UttId("data/spk1/clip01.wav") == "clip01"
    ensures UttId("data/spk1/clip01.flac") == "clip01."
  {
    assert "data/spk1" + "/" + "clip01" + ".wav" == "data/spk1/clip01.wav";
    UttIdOfFile("data/spk1", "clip01", ".wav");
    assert "data/spk1" + "/" + "clip01." + "flac" == "data/spk1/clip01.flac";
    UttIdOfFile("data/spk1", "clip01.", "flac");
  }
}
