# Data preparation for speaker-region classification, modelled in Dafny

This project models `functions/data_prepare.py`. The script turns a speaker
metadata table and a folder of per-speaker audio folders into three JSON
manifests: train, valid and test. The stages are:

- **`load_in4`** reads the metadata file. Each line is stripped and split on
  whitespace, and its first three tokens become a row `speaker region sex`.
  A line with fewer than three tokens raises.
- **`transform_data`** walks the rows in file order. For each row it looks
  through the entries of the audio root. Every entry whose name equals the
  speaker id adds one record per file in that folder: the joined path with
  backslashes turned into `/`, plus the row's region and sex. The flat list
  is then wrapped into a dictionary `index -> [record]`.
- **`split_sets`** takes `d[key][0]` for every key in insertion order and
  shuffles the list. It cuts off `int(N * r[0] / sum(r))` records for train,
  then `int(N * r[1] / sum(r))` for valid, and leaves the rest for test.
- **`create_json`** builds the manifest dictionary for one split. For every
  record it decodes the audio and computes the duration at 16000 samples per
  second. It derives the utterance id `path.split("/")[-1][:-4]` and assigns
  `d[uttid] = {wav, length, regions}`. A Python dict keeps insertion order
  and the last assignment to a key wins.
- **`prepare_data`** chains the four stages.

Modules, one per stage, plus shared pieces:

- `Types`: the records and rows, `Option`, and the `Result`/`Error` type that carries each exception the script can raise.
- `Seqs`: `Distinct`, `FirstIndex` and `FlatMap`.
- `OrderedMap`: Python's insertion-ordered `dict`, as a key order plus a map.
- `Text`: `str.isspace`, `strip()`, `split()`, `split(c)`, `s[:e]` and `replace`, with Python's semantics.
- `Metadata`: `load_in4`.
- `Matcher`: `transform_data`.
- `Splitter`: `split_sets`.
- `ManifestWriter`: `create_json`.
- `Pipeline`: `prepare_data`.

The file system, the decoder and the random generator are parameters:

- `names` lists the entries of the audio root.
- `listDir` gives the listing of a speaker folder.
- `readAudio` gives a file's sample count, or `None` when it cannot be decoded.
- `shuffle` is any function on lists. The properties that depend on it
  assume it permutes its input (`IsShuffle`).

Where the documentation and the code disagree, the model follows the code.
The docstrings describe `split_ratio` as three integers for train, valid and
test. The code reads only `split_ratio[0]`, `split_ratio[1]` and the sum of
the whole list. So any list of at least two weights with a positive sum is
accepted, and extra weights only enlarge the test split. `Partition` models
exactly that.

## Model

| member | source | states |
|---|---|---|
| `Text.Strip` | functions/data_prepare.py:184 | The stripped line is an infix of the line with only whitespace cut before and after it (`TrimmedAt`). It neither starts nor ends with whitespace, so nothing more could be cut. |
| `Text.StripKeepsTokens` | functions/data_prepare.py:184 | `line.strip().split()` equals `line.split()`: stripping first never changes the tokens. |
| `Text.Word` | functions/data_prepare.py:184 | The first token candidate is the longest whitespace-free prefix: whitespace-free, a prefix, and followed by whitespace or the end. |
| `Text.Tokens` | functions/data_prepare.py:184 | Every token `split()` returns is non-empty and free of whitespace. There are no tokens exactly when the line is all whitespace. |
| `Text.TokensIgnorePadding` | functions/data_prepare.py:184 | Whitespace at both ends of a line does not change its tokens. |
| `Text.TokensSkipLeading` | functions/data_prepare.py:184 | Leading whitespace of any kind does not change the tokens of a line. |
| `Text.TokensSkipTrailing` | functions/data_prepare.py:184 | Trailing whitespace of any kind does not change the tokens of a line. |
| `Text.TokensOfLayout` | functions/data_prepare.py:184 | Round trip: splitting tokens separated by any non-empty runs of whitespace (tabs, spaces or a mix) gives the same tokens back. |
| `Text.SplitOn` | functions/data_prepare.py:97 | `s.split(c)` has at least one piece and no piece contains `c`. |
| `Text.JoinSplit` | functions/data_prepare.py:97 | Round trip: joining the pieces of `s.split(c)` with `c` gives `s` back. |
| `Text.SplitJoin` | functions/data_prepare.py:97 | Round trip: splitting `c`-free pieces joined by `c` gives the pieces back. |
| `Text.LastPieceIsLongestSuffix` | functions/data_prepare.py:97 | `split(c)[-1]` is the longest `c`-free suffix: it ends the string and is the whole string or is preceded by `c`. |
| `Text.LastPieceAfterSeparator` | functions/data_prepare.py:97 | The last piece of `dir + c + name`, for a `c`-free name, is the name. |
| `Text.SliceTo` | functions/data_prepare.py:97 | `s[:e]` is a prefix of `s`. A negative end counts from the back and an end out of range is clamped, so `[:-4]` of a string shorter than four is empty. |
| `Text.SliceToDropsSuffix` | functions/data_prepare.py:97 | `(stem + ext)[:-len(ext)]` is `stem`. |
| `Text.ReplaceFacts` | functions/data_prepare.py:209 | After `replace("\\", "/")` no backslash is left, every other character stays in place, and the replacement distributes over concatenation. |
| `Metadata.ParseLine` | functions/data_prepare.py:184-185 | A line gives a row exactly when it has at least three tokens. The row is the first three tokens and extra tokens are ignored. Otherwise the line's own index is reported. |
| `Metadata.StrippedLineParsesAlike` | functions/data_prepare.py:184 | Parsing the stripped line gives the same result as parsing the line. |
| `Metadata.LoadPrefix` | functions/data_prepare.py:182-185 | After `n` lines the loop holds one row per line, each that line's first three tokens. Otherwise it reports the first line with fewer than three tokens, and every earlier line parses. |
| `Metadata.LoadInfo` | functions/data_prepare.py:179-186 | The file loads exactly when every line has three tokens. The rows keep file order, one per line. The error names the first short line. |
| `Metadata.ParseFormattedLine` | functions/data_prepare.py:183-185 | A line written as tokens separated by any whitespace runs, as in a tab-separated file, and padded with any whitespace parses back to its first three tokens. |
| `Metadata.TokensOfPaddedLine` | functions/data_prepare.py:184 | The tokens of such a padded line are exactly the tokens written. |
| `Metadata.TsvLineExample` | functions/data_prepare.py:183-185 | The tab-separated line `spk01\tnorth\tF\n`, newline included, gives the row `spk01 north F`. |
| `Metadata.BlankLineIsMalformed` | functions/data_prepare.py:183-185 | An empty or all-whitespace line raises, with its own index. |
| `Matcher.WavPath` | functions/data_prepare.py:207-209 | The stored path has no backslash. With `/` or `\` as the separator, it is the root, the speaker folder and the file name, each with backslashes turned into `/`, joined by `/`. With a slash-free file name, its last `/`-piece is the file name. |
| `Matcher.FileRecords` | functions/data_prepare.py:207-209 | One record per listed file, in listing order, each with the file's path and the row's region and sex. |
| `Matcher.MatchRow` | functions/data_prepare.py:205-209 | A row whose speaker id names no entry of the audio root contributes no record. |
| `Matcher.MatchRowOnce` | functions/data_prepare.py:205-209 | With a duplicate-free root listing, a matched row contributes exactly its folder's records, once each. |
| `Matcher.MatchRowLabels` | functions/data_prepare.py:204-209 | Every record of a row carries that row's region and sex and a backslash-free path. |
| `Matcher.FlattenLabels` | functions/data_prepare.py:204-209 | Every flattened record has a backslash-free path and the labels of some row whose speaker has a folder. |
| `Matcher.FlattenAppend` | functions/data_prepare.py:204-209 | The records of two tables, one after the other, are the records of their concatenation. |
| `Matcher.UnmatchedRowIsSkipped` | functions/data_prepare.py:204-206 | Removing a row whose speaker has no folder leaves the flat list unchanged. |
| `Matcher.FlattenLength` | functions/data_prepare.py:204-209 | With a duplicate-free root listing, the flat list has one record per file in the folders of the matched rows (reference count `MatchedFiles`). |
| `Matcher.Wrap` | functions/data_prepare.py:211-216 | The dictionary has keys `0 .. N-1` in that insertion order, and key `i` holds the one-element list `[flat[i]]`. |
| `Matcher.TransformData` | functions/data_prepare.py:188-218 | It fails exactly when the metadata fails, with the same error. On success the dictionary wraps the flat records: key `i` in position `i`, holding `[flat[i]]`. |
| `OrderedMap.Put` | functions/data_prepare.py:100 | `d[k] = v` keeps every key listed once. A new key is appended to the order and an existing key keeps its position. |
| `OrderedMap.FromPairs` | functions/data_prepare.py:89-104 | Assigning pairs in order gives a well-formed dictionary whose keys are exactly the assigned keys. |
| `OrderedMap.FromPairsLastWins` | functions/data_prepare.py:100 | A key holds the value of its last assignment. |
| `OrderedMap.FromPairsKeyOrder` | functions/data_prepare.py:100 | The iteration order is the order in which keys were first assigned. |
| `Splitter.Unwrap` | functions/data_prepare.py:143-145 | One element per key, in insertion order, each the first element of that key's list. |
| `Splitter.UnwrapWrapped` | functions/data_prepare.py:143-145 | Round trip with `transform_data`'s wrapping: unwrapping `i -> [flat[i]]` gives `flat` back. |
| `Splitter.Partition` | functions/data_prepare.py:150-159 | Errors follow Python's evaluation order: no weights is an IndexError at 0, a zero sum is a ZeroDivisionError, and one weight is an IndexError at 1. Otherwise train and valid have `floor(N*r/sum)` elements and test has the rest, and the three concatenate to the list. |
| `Splitter.SplitSets` | functions/data_prepare.py:143-161 | The three splits, concatenated, are the shuffled unwrapped list. |
| `Splitter.SharesFit` | functions/data_prepare.py:155-158 | The train and valid counts together never exceed the list length, so no slice is clamped. |
| `Splitter.ZeroRatioGivesEmptySplit` | functions/data_prepare.py:156-157 | A zero weight gives an empty train or valid split. |
| `Splitter.AllToTest` | functions/data_prepare.py:155-159 | Weights `[0, 0, k]` put every record in test. |
| `Splitter.SplitsArePermutation` | functions/data_prepare.py:149-159 | With a permuting shuffle, the three splits together hold the records of the dictionary as a multiset: nothing lost, added or duplicated. |
| `ManifestWriter.UttId` | functions/data_prepare.py:97 | The id has no `/`. It is a prefix of the file name after the last `/`, four characters shorter, or empty when the name is shorter than four. |
| `ManifestWriter.Duration` | functions/data_prepare.py:94-95 | The length in seconds is non-negative, and times 16000 it gives the sample count back. |
| `ManifestWriter.CreateJson` | functions/data_prepare.py:89-104 | The manifest is built exactly when every file decodes, and it is then a well-formed dictionary. A failure names an undecodable file. |
| `ManifestWriter.CreateJsonStopsAtFirstFailure` | functions/data_prepare.py:90-95 | The error is the path of the first undecodable record: the records before it decode, and the later ones are never reached. |
| `ManifestWriter.CreateJsonIsFold` | functions/data_prepare.py:89-104 | A successful manifest is the dictionary built by assigning each record's entry to its id, in record order. |
| `ManifestWriter.ManifestKeys` | functions/data_prepare.py:97-100 | The keys are listed once each and are exactly the utterance ids of the records. |
| `ManifestWriter.ManifestLastWins` | functions/data_prepare.py:100-104 | A key holds the entry (path, duration, region) of the last record with that id. |
| `ManifestWriter.ManifestKeyOrder` | functions/data_prepare.py:100 | Keys appear in the order their ids first occur among the records. |
| `ManifestWriter.UttIdOfFile` | functions/data_prepare.py:97 | A file `stem + ext` with a four-character extension, in any directory, has `stem` as its id. |
| `ManifestWriter.UttIdExample` | functions/data_prepare.py:97 | `data/spk1/clip01.wav` has the id `clip01`. The cut is by position, not by extension: `clip01.flac` has the id `clip01.`. |
| `Pipeline.PrepareData` | functions/data_prepare.py:57-72 | The first failing stage decides the error: malformed metadata, then the ratio errors in Python's order, then undecodable files. On success all three manifests are well-formed dictionaries. |
| `Pipeline.WriteManifests` | functions/data_prepare.py:70-72 | The manifests are written exactly when every file of all three splits decodes. Otherwise the error is the first failing split's, in the order train, valid, test. |
| `Pipeline.SplitsOfRecords` | functions/data_prepare.py:59-72 | The splits are cut from the shuffled flat record list of `transform_data`, and the manifests are those written from them. |
| `Pipeline.PrepareDataSucceeds` | functions/data_prepare.py:57-72 | With a permuting shuffle, preparation succeeds exactly when the metadata parses, there are at least two weights with a positive sum, and every matched file decodes. |
| `Pipeline.ManifestsKeys` | functions/data_prepare.py:67-72 | When the shuffled list permutes the records, the weights are valid and every file decodes, the three manifests are written. Together they are keyed by exactly the utterance ids of the records. |

## Left out

- Reading the metadata file, `os.listdir`, writing the JSON files and logging are I/O. The file's lines, the root listing (`names`) and the folder listings (`listDir`) are inputs. The manifests are returned, not written.
- `read_audio` is a foreign call and is the parameter `readAudio`. Only its sample count, or its failure, is modelled.
- `ManifestWriter.Duration`: the duration is an exact rational, not a 64-bit float, so rounding of `shape[0] / SAMPLERATE` is not modelled.
- `Splitter.Share`: the script computes `int(N * r / sum)` with Python's true division of two integers, which rounds correctly to a 64-bit float. The model uses exact floor division on naturals. The two agree whenever `N * r + sum` is below 2^53. In that range, an exact quotient that is not an integer lies at least `1 / sum` below the next integer `k`, and that gap exceeds half a unit in the last place of `k`, so rounding cannot reach `k`. Negative weights are not modelled (the weights are `nat`).
- `random.seed` and `random.shuffle` are replaced by the `shuffle` parameter. The generator's actual permutation is not modelled, only that it permutes (`IsShuffle`).
- `Matcher.JoinPath`: `os.path.join(dir, name)` is modelled as `dir + sep + name`. Its special cases are not modelled: an absolute `name` restarting the path, or `dir` already ending in a separator.
- `Matcher.MatchRow`: a plain file in the audio root whose name equals a speaker id is listed with `os.listdir` and makes it raise. No other entry is ever listed. The model treats every listing as available (`listDir` is total).
- `Splitter.Unwrap`: requires every key to hold a non-empty list (`Unwrappable`). The only dictionary the script passes is the one `transform_data` builds, which meets it (`Splitter.UnwrapWrapped`).
- `Pipeline.PrepareData`: when a later split fails to decode, the script has already written the earlier manifests. The model only returns the error.
- The parameters `different_speakers` and `test_spk_id` of `prepare_data` are unused by the code. `skip`, `NUMBER_UTT` and the `__main__` block are not called by the pipeline.
- Strings are sequences of code points: file-name encodings and Unicode normalisation are not modelled.
