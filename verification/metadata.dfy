/** `load_in4`: the speaker metadata table, one `speaker region sex ...` row
    per line. The file's lines are the input; reading the file is not modelled. */
module Metadata {
  import opened Types
  import opened Text

  /** One line: its whitespace tokens; the first three make the row and the
      rest are ignored. Fewer than three tokens is the IndexError the script
      raises, reported with the line's position. The script strips the line
      before splitting it; `StrippedLineParsesAlike` shows that this changes
      nothing. */
  function ParseLine(line: string, index: nat): (r: Result<MetaRow>)
    ensures r.Ok? <==> |Tokens(line)| >= 3
    ensures r.Ok? ==> r.value == MetaRow(Tokens(line)[0], Tokens(line)[1], Tokens(line)[2])
    ensures r.Err? ==> r.error == MalformedRow(index)
  {
    var ts := Tokens(line);
    if |ts| < 3 then Err(MalformedRow(index))
    else Ok(MetaRow(ts[0], ts[1], ts[2]))
  }

  /** `line.strip().split()` and `line.split()` give the same row. */
  lemma StrippedLineParsesAlike(line: string, index: nat)
    ensures ParseLine(Strip(line), index) == ParseLine(line, index)
  {
    StripKeepsTokens(line);
  }

  /** The rows of the first `n` lines: the loop of `load_in4` after `n` iterations. */
  function LoadPrefix(lines: seq<string>, n: nat): (r: Result<seq<MetaRow>>)
    requires n <= |lines|
    ensures r.Ok? <==> (forall i :: 0 <= i < n ==> |Tokens(lines[i])| >= 3)
    ensures r.Ok? ==> |r.value| == n
    ensures r.Ok? ==>
              forall i :: 0 <= i < n ==>
                r.value[i] == MetaRow(Tokens(lines[i])[0], Tokens(lines[i])[1], Tokens(lines[i])[2])
    ensures r.Err? ==>
              && r.error.MalformedRow?
              && r.error.line < n
              && |Tokens(lines[r.error.line])| < 3
              && forall j :: 0 <= j < r.error.line ==> |Tokens(lines[j])| >= 3
  {
    if n == 0 then Ok([])
    else
      match LoadPrefix(lines, n - 1)
      case Err(e) => Err(e)
      case Ok(rows) =>
        match ParseLine(lines[n - 1], n - 1)
        case Err(e) => Err(e)
        case Ok(row) =>
          assert forall i :: 0 <= i < n - 1 ==> (rows + [row])[i] == rows[i];
          Ok(rows + [row])
  }

  /** `load_in4`: one row per line, in file order, each the line's first three
      tokens, or the error of the first line with fewer than three tokens. */
  function LoadInfo(lines: seq<string>): (r: Result<seq<MetaRow>>)
    ensures r.Ok? <==> (forall i :: 0 <= i < |lines| ==> |Tokens(lines[i])| >= 3)
    ensures r.Ok? ==> |r.value| == |lines|
    ensures r.Ok? ==>
              forall i :: 0 <= i < |lines| ==>
                r.value[i] == MetaRow(Tokens(lines[i])[0], Tokens(lines[i])[1], Tokens(lines[i])[2])
    ensures r.Err? ==>
              && r.error.MalformedRow?
              && r.error.line < |lines|
              && |Tokens(lines[r.error.line])| < 3
              && forall j :: 0 <= j < r.error.line ==> |Tokens(lines[j])| >= 3
  {
    LoadPrefix(lines, |lines|)
  }

  /** A line laid out as `speaker region sex extra...`, tokens separated by
      runs of whitespace (tabs in a `.tsv` file) and padded with any
      whitespace at both ends, parses back to the row of its first three tokens. */
  lemma ParseFormattedLine(ts: seq<string>, gaps: seq<string>, pre: string, post: string, index: nat)
    requires |ts| >= 3 && forall i :: 0 <= i < |ts| ==> IsToken(ts[i])
    requires |gaps| == |ts| - 1 && AllGaps(gaps)
    requires AllSpace(pre) && AllSpace(post)
    ensures ParseLine(pre + Layout(ts, gaps) + post, index) == Ok(MetaRow(ts[0], ts[1], ts[2]))
  {
    TokensOfPaddedLine(ts, gaps, pre, post);
  }

  /** The tokens of such a padded line are exactly the tokens written. */
  lemma TokensOfPaddedLine(ts: seq<string>, gaps: seq<string>, pre: string, post: string)
    requires forall i :: 0 <= i < |ts| ==> IsToken(ts[i])
    requires |ts| == 0 ==> |gaps| == 0
    requires |ts| > 0 ==> |gaps| == |ts| - 1
    requires AllGaps(gaps)
    requires AllSpace(pre) && AllSpace(post)
    ensures Tokens(pre + Layout(ts, gaps) + post) == ts
  {
    TokensOfLayout(ts, gaps);
    TokensIgnorePadding(pre, Layout(ts, gaps), post);
  }

  /** A tab-separated metadata line with its newline parses to its row. */
  lemma TsvLineExample()
    ensures ParseLine("spk01\tnorth\tF\n", 7) == Ok(MetaRow("spk01", "north", "F"))
  {
    var ts := ["spk01", "north", "F"];
    var gaps := ["\t", "\t"];
    assert IsToken(ts[0]) && IsToken(ts[1]) && IsToken(ts[2]);
    assert AllGaps(gaps);
    assert Layout(ts, gaps) == "spk01\tnorth\tF" by {
      assert Layout(ts[2..], gaps[2..]) == "F";
      assert Layout(ts[1..], gaps[1..]) == "north\tF";
    }
    assert "" + Layout(ts, gaps) + "\n" == "spk01\tnorth\tF\n";
    ParseFormattedLine(ts, gaps, "", "\n", 7);
  }

  /** A blank or all-whitespace line is malformed. */
  lemma BlankLineIsMalformed(line: string, index: nat)
    requires AllSpace(line)
    ensures ParseLine(line, index) == Err(MalformedRow(index))
  {
    TokensSkipLeading(line, "");
    assert line + "" == line;
  }
}
