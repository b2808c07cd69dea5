/** `transform_data`: match metadata rows against the folders of the audio
    root, flatten the matches into one list of records, and wrap that list
    into the index-keyed dictionary the splitter consumes. The directory
    listings are inputs; `os.listdir` itself is not modelled. */
module Matcher {
  import opened Seqs
  import opened Types
  import opened Text
  import opened OrderedMap
  import Metadata

  /** `os.path.join(dir, name)`, with the platform's separator `sep`. */
  function JoinPath(dir: string, name: string, sep: char): string
  {
    dir + [sep] + name
  }

  /** The path stored for file `wav` of speaker folder `speaker`: the joined
      path with every backslash turned into a forward slash. It holds no
      backslash; with either slash as the separator it is the normalised
      root, speaker folder and file name joined by `/`, and when the file
      name holds neither slash its last `/`-piece is the file name. */
  function WavPath(root: string, speaker: string, wav: string, sep: char): (p: string)
    ensures '\\' !in p
    ensures sep == '/' || sep == '\\' ==>
              p == Replace(root, '\\', '/') + "/" + Replace(speaker, '\\', '/') + "/" + Replace(wav, '\\', '/')
    ensures (sep == '/' || sep == '\\') && '/' !in wav && '\\' !in wav ==>
              LastPiece(p, '/') == wav
  {
    var dir := JoinPath(root, speaker, sep);
    var joined := JoinPath(dir, wav, sep);
    ReplaceFacts(joined, "", '\\', '/');
    if sep == '/' || sep == '\\' then
      ReplaceFacts(dir + [sep], wav, '\\', '/');
      ReplaceFacts(dir, [sep], '\\', '/');
      ReplaceFacts(root + [sep], speaker, '\\', '/');
      ReplaceFacts(root, [sep], '\\', '/');
      assert Replace([sep], '\\', '/') == ['/'];
      assert joined == (dir + [sep]) + wav;
      assert dir == (root + [sep]) + speaker;
      if '/' !in wav && '\\' !in wav then
        ReplaceFacts(wav, "", '\\', '/');
        LastPieceAfterSeparator(Replace(dir, '\\', '/'), wav, '/');
        Replace(joined, '\\', '/')
      else
        Replace(joined, '\\', '/')
    else
      Replace(joined, '\\', '/')
  }

  /** The records of one matched folder: one per file, in listing order, each
      carrying the row's region and sex. */
  function FileRecords(row: MetaRow, wavs: seq<string>, root: string, sep: char): (recs: seq<AudioRecord>)
    ensures |recs| == |wavs|
    ensures forall i :: 0 <= i < |wavs| ==>
              recs[i] == AudioRecord(WavPath(root, row.speaker, wavs[i], sep), row.region, row.sex)
  {
    if |wavs| == 0 then []
    else
      var n := |wavs| - 1;
      FileRecords(row, wavs[..n], root, sep) +
        [AudioRecord(WavPath(root, row.speaker, wavs[n], sep), row.region, row.sex)]
  }

  /** The inner loops for one row: every entry of the audio root whose name
      equals the speaker id contributes that folder's records. A row whose
      speaker has no folder contributes nothing. */
  function MatchRow(row: MetaRow, names: seq<string>, listDir: string -> seq<string>,
                    root: string, sep: char): (recs: seq<AudioRecord>)
    ensures row.speaker !in names ==> recs == []
  {
    if |names| == 0 then []
    else
      var n := |names| - 1;
      var here := if names[n] == row.speaker then FileRecords(row, listDir(names[n]), root, sep) else [];
      MatchRow(row, names[..n], listDir, root, sep) + here
  }

  /** The outer loop: the matches of every row, row by row in file order. */
  function Flatten(rows: seq<MetaRow>, names: seq<string>, listDir: string -> seq<string>,
                   root: string, sep: char): seq<AudioRecord>
  {
    FlatMap(rows, row => MatchRow(row, names, listDir, root, sep))
  }

  /** Every record of a row carries the row's region and sex and a path without backslashes. */
  lemma {:induction false} MatchRowLabels(row: MetaRow, names: seq<string>, listDir: string -> seq<string>,
                                          root: string, sep: char)
    ensures forall r :: r in MatchRow(row, names, listDir, root, sep) ==>
              r.region == row.region && r.sex == row.sex && '\\' !in r.path
  {
    if |names| > 0 {
      var n := |names| - 1;
      MatchRowLabels(row, names[..n], listDir, root, sep);
    }
  }

  /** Every flattened record has a path without backslashes and carries the
      region and sex of a row whose speaker has a folder. */
  lemma {:induction false} FlattenLabels(rows: seq<MetaRow>, names: seq<string>, listDir: string -> seq<string>,
                                         root: string, sep: char)
    ensures forall r :: r in Flatten(rows, names, listDir, root, sep) ==>
              '\\' !in r.path &&
              exists row :: row in rows && row.speaker in names &&
                            r.region == row.region && r.sex == row.sex
  {
    if |rows| > 0 {
      var n := |rows| - 1;
      FlattenLabels(rows[..n], names, listDir, root, sep);
      var pre := Flatten(rows[..n], names, listDir, root, sep);
      var here := MatchRow(rows[n], names, listDir, root, sep);
      MatchRowLabels(rows[n], names, listDir, root, sep);
      forall r | r in Flatten(rows, names, listDir, root, sep)
        ensures '\\' !in r.path
        ensures exists row :: row in rows && row.speaker in names &&
                              r.region == row.region && r.sex == row.sex
      {
        if r in pre {
          var row :| row in rows[..n] && row.speaker in names && r.region == row.region && r.sex == row.sex;
          assert row in rows;
        } else {
          assert r in here;
          assert rows[n] in rows;
        }
      }
    }
  }

  /** The index-keyed dictionary `i -> [flat[i]]`, built in index order. */
  function Wrap<T>(flat: seq<T>): (d: OMap<int, seq<T>>)
    ensures Valid(d)
    ensures |d.keys| == |flat|
    ensures forall i :: 0 <= i < |flat| ==> d.keys[i] == i && i in d.entries && d.entries[i] == [flat[i]]
  {
    if |flat| == 0 then Empty()
    else
      var idx := |flat| - 1;
      var d := Wrap(flat[..idx]);
      assert idx !in d.keys;
      assert forall i :: 0 <= i < idx ==> flat[..idx][i] == flat[i];
      Put(d, idx, GetOr(d, idx, []) + [flat[idx]])
  }

  /** `transform_data`: load the metadata, match and flatten, then wrap. */
  function TransformData(lines: seq<string>, names: seq<string>, listDir: string -> seq<string>,
                         root: string, sep: char): (r: Result<OMap<int, seq<AudioRecord>>>)
    ensures r.Ok? <==> Metadata.LoadInfo(lines).Ok?
    ensures r.Err? ==> r.error == Metadata.LoadInfo(lines).error
    ensures r.Ok? ==>
              var flat := Flatten(Metadata.LoadInfo(lines).value, names, listDir, root, sep);
              && Valid(r.value)
              && |r.value.keys| == |flat|
              && forall i :: 0 <= i < |flat| ==> r.value.keys[i] == i && r.value.entries[i] == [flat[i]]
  {
    var rows :- Metadata.LoadInfo(lines);
    Ok(Wrap(Flatten(rows, names, listDir, root, sep)))
  }

  // ---------------------------------------------------------------------------
  // properties of the matcher

  /** With a duplicate-free listing, a row whose speaker has a folder
      contributes exactly that folder's records, once. */
  lemma {:induction false} MatchRowOnce(row: MetaRow, names: seq<string>, listDir: string -> seq<string>,
                                        root: string, sep: char)
    requires Distinct(names) && row.speaker in names
    ensures MatchRow(row, names, listDir, root, sep) == FileRecords(row, listDir(row.speaker), root, sep)
  {
    var n := |names| - 1;
    assert Distinct(names[..n]);
    if names[n] == row.speaker {
      assert row.speaker !in names[..n];
      assert MatchRow(row, names[..n], listDir, root, sep) == [];
    } else {
      assert row.speaker in names[..n];
      MatchRowOnce(row, names[..n], listDir, root, sep);
    }
  }

  /** Flattening works row by row: the records of two tables are the records of each, in order. */
  lemma FlattenAppend(a: seq<MetaRow>, b: seq<MetaRow>, names: seq<string>,
                      listDir: string -> seq<string>, root: string, sep: char)
    ensures Flatten(a + b, names, listDir, root, sep) ==
            Flatten(a, names, listDir, root, sep) + Flatten(b, names, listDir, root, sep)
  {
    FlatMapAppend(a, b, row => MatchRow(row, names, listDir, root, sep));
  }

  /** A row whose speaker id names no folder changes nothing: the records are
      those of the table without it. */
  lemma UnmatchedRowIsSkipped(a: seq<MetaRow>, row: MetaRow, b: seq<MetaRow>, names: seq<string>,
                              listDir: string -> seq<string>, root: string, sep: char)
    requires row.speaker !in names
    ensures Flatten(a + [row] + b, names, listDir, root, sep) == Flatten(a + b, names, listDir, root, sep)
  {
    FlattenAppend(a + [row], b, names, listDir, root, sep);
    FlattenAppend(a, [row], names, listDir, root, sep);
    FlattenAppend(a, b, names, listDir, root, sep);
    assert Flatten([row], names, listDir, root, sep) == Flatten([], names, listDir, root, sep) + MatchRow(row, names, listDir, root, sep);
  }

  /** Reference count: the number of files in the folders of the matched rows. */
  function MatchedFiles(rows: seq<MetaRow>, names: seq<string>, listDir: string -> seq<string>): nat
  {
    if |rows| == 0 then 0
    else
      var n := |rows| - 1;
      MatchedFiles(rows[..n], names, listDir) +
        (if rows[n].speaker in names then |listDir(rows[n].speaker)| else 0)
  }

  /** With a duplicate-free listing, the flat list has one record per file of
      every matched row's folder. */
  lemma {:induction false} FlattenLength(rows: seq<MetaRow>, names: seq<string>, listDir: string -> seq<string>,
                                         root: string, sep: char)
    requires Distinct(names)
    ensures |Flatten(rows, names, listDir, root, sep)| == MatchedFiles(rows, names, listDir)
  {
    if |rows| > 0 {
      var n := |rows| - 1;
      FlattenLength(rows[..n], names, listDir, root, sep);
      if rows[n].speaker in names {
        MatchRowOnce(rows[n], names, listDir, root, sep);
      }
    }
  }
}
