# Oregon ORS corpus extractor: metadata resolution and page numbering

This project models the core of a batch tool. The tool turns a directory of saved
Oregon Revised Statutes HTML pages into one JSON line per page. Each line holds
the page's URL, a page id, its flattened text and four metadata fields (`ors`,
`chapter`, `title`, `volume`). There are two drivers, `extract.py` (sequential)
and `extract_multithreaded.py` (a thread pool). Both resolve metadata the same
way; they differ in how files are read, how faults are handled and in what order
page ids are handed out.

What is modelled:

- **The regular expressions** (`Patterns`). Each pattern is a literal marker
  followed by one capture group of one of three shapes: `\d+`, `\d+[A-Za-z]?` or
  `\d+[A-Za-z]?\.\d+`. They are written as an explicit greedy matcher (`DigitRun`,
  `TokenEnd`, `MatchAt`, `Search`) and, independently, as declarative predicates:
  - `ShapeSpan` and `InShape`: the language of each group, read in place in the
    scanned string or as a whole string;
  - `MatchesAt`: the pattern matches at a position;
  - `CapturesAt`: the group captures the longest token there;
  - `FirstMatch`: the leftmost match.
  The lemmas prove that the matcher finds exactly the leftmost match and its
  greedy capture, and nothing when the pattern matches nowhere.
- **The resolver** (`Resolver`). `extract_metadata` scans the filename for
  `ors_`, `chapter_`, `title_` and `volume_`. `extract_metadata_from_content`
  scans the text for `Chapter `, `Title ` and `Volume `. A field no pattern
  resolves is the sentinel `"N/A"`. The merge keeps the filename's value unless
  it is the sentinel; `ors` comes from the filename only. Both source files hold
  these two functions with identical text (`extract.py:11-33`,
  `extract_multithreaded.py:24-46`), so they are modelled once.
- **Records and URLs** (`Pages`). A URL is the base URL followed by the relative
  path, with every backslash replaced by a slash. The `ors_` prefix filter keeps
  listing order. A written record has all seven keys.
- **The sequential driver** (`Extract.ExtractAll`). It walks the listing in
  order. The k-th `ors_` file gets page id k. A file whose text cannot be
  extracted raises, and that ends the run; the lines already written are the
  output.
- **The concurrent driver** (`ExtractMultithreaded`). `process_file` is modelled
  as a function returning a tagged outcome. The coordinating loop runs over one
  completion order of the futures, given as an input. Successful futures get ids
  1..N in completion order. Failed futures are skipped, logged by name, and use
  no id. The multiset of written records, apart from their ids, does not depend on
  the completion order.

External effects are inputs. A listing entry (`Pages.Listed`) carries:

- the file name;
- its relative path;
- what reading the file yields for the driver.

For the sequential driver that is the flattened text, or nothing when
`extract_text_from_html` raises. For the concurrent driver it is either a fault
while reading the bytes for encoding detection, or the flattened text, or nothing
when decoding or parsing raised inside the `try` (the text is then empty). The
output file is the returned sequence of records.

Two facts about the code that are easy to misread:

- The URL is the base URL plus `os.path.relpath` of `./statutes/<name>`, which
  keeps the directory, so every URL contains `statutes/`
  (`extract_multithreaded.py:50-52`, `extract.py:44-46`).
- The sequential driver puts `page_id` second in the dict (`extract.py:54`). The
  concurrent driver adds it after the other six keys
  (`extract_multithreaded.py:89`), so it is serialised last. Key order is a
  property of serialisation, which is not modelled.

## Model

| member | source | states |
|---|---|---|
| `Strings.ReplaceBackslashes` | extract_multithreaded.py:52 | the result has the path's length, every `\` becomes `/`, every other character stays in place, and no `\` remains |
| `Patterns.DigitRun` | extract_multithreaded.py:25-28 | the length of the maximal run of ASCII digits at a position: all of it digits, and the next character (if any) not a digit |
| `Patterns.ShapeSpanStartsWithDigit` | extract_multithreaded.py:25-28 | every token of every group shape is non-empty and starts with a digit |
| `Patterns.ShapeSpanShift` | extract_multithreaded.py:25-28 | a slice is a token of a shape exactly when that stretch of the scanned string is one |
| `Patterns.TokenEndSound` | extract_multithreaded.py:25-28 | what the greedy matcher takes at a position is a token of the group's shape |
| `Patterns.TokenEndComplete` | extract_multithreaded.py:25-28 | every token of the shape starting at a position is found by the greedy matcher, and ends no later than what it takes (the capture is the longest token) |
| `Patterns.MatchAtCorrect` | extract_multithreaded.py:25 | marker-plus-group matching at one position succeeds exactly when the pattern matches there, and then captures the longest token |
| `Patterns.Search` | extract_multithreaded.py:25-28 | `re.search`: a hit is the marker followed by the capture, literally present in the string at the reported position (that it is the leftmost match with the longest capture is `SearchCorrect`) |
| `Patterns.SearchFromCorrect` | extract_multithreaded.py:25-28 | scanning from a position finds nothing exactly when no later position matches; otherwise it returns the first matching position and its capture |
| `Patterns.SearchCorrect` | extract_multithreaded.py:25-28 | `re.search` finds nothing exactly when the pattern matches nowhere, and otherwise the leftmost match with its greedy capture |
| `Patterns.CapturesAtMatches` | extract_multithreaded.py:25 | a capture at a position is a match at that position, and is a token of the shape starting with a digit |
| `Patterns.FirstMatchUnique` | extract_multithreaded.py:25-28 | the leftmost match position and its capture are unique |
| `Resolver.Capture` | extract_multithreaded.py:31-34 | `group(1) if m else 'N/A'`: the field is the sentinel or a non-empty capture starting with a digit, so the two can never be confused (what it captures is `CaptureCorrect`) |
| `Resolver.CaptureCorrect` | extract_multithreaded.py:31-34 | a field is `group(1)` of the leftmost match, or `"N/A"` exactly when the pattern matches nowhere; a non-sentinel field is a well-shaped token starting with a digit, hence never `"N/A"` |
| `Resolver.ResolvesUnique` | extract_multithreaded.py:31-34 | at most one value resolves a field, so the declarative description determines the field |
| `Resolver.FromFilename` | extract.py:11-22 | `extract_metadata`: one capture per filename pattern; what each field then is, is stated by `FromFilenameResolves` |
| `Resolver.FromFilenameResolves` | extract.py:11-22 | `ors` is the leftmost `ors_` + digits, optional letter, `.`, digits; `chapter` and `title` are digits with an optional letter; `volume` is digits only; each field is `"N/A"` when its pattern matches nowhere |
| `Resolver.FromContent` | extract.py:24-33 | `extract_metadata_from_content`: one capture per content pattern; what each field then is, is stated by `FromContentResolves` |
| `Resolver.FromContentResolves` | extract_multithreaded.py:37-46 | the case-sensitive markers `Chapter `, `Title `, `Volume ` with one space; chapter may carry a letter, title and volume are digits only; a missing marker gives `"N/A"` |
| `Resolver.Merge` | extract_multithreaded.py:61-64 | `ors` is the filename's; each of chapter, title and volume is the filename's when that is not `"N/A"`, and the content's otherwise |
| `Resolver.Resolve` | extract.py:56-59 | the metadata of a record: the filename scan merged with the content scan; its meaning against the patterns is `ResolvePrecedence` and `ResolveSentinel` |
| `Resolver.ResolvePrecedence` | extract_multithreaded.py:61-64 | the merged `ors` resolves from the filename; each of chapter, title and volume resolves from the filename when its filename pattern matches anywhere, and from the content otherwise |
| `Resolver.ResolveSentinel` | extract.py:56-59 | a merged field is `"N/A"` exactly when neither the filename nor the content resolves it (for `ors`: when the filename does not) |
| `Resolver.ResolveWellFormed` | extract.py:52-60 | every metadata field of a record is `"N/A"` or a token: `ors` dotted, chapter and title digits with an optional letter, volume digits |
| `Pages.Statutes` | extract_multithreaded.py:73 | the `ors_` prefix filter in listing order; its members are stated by `StatutesMembers` and its order by `StatutesAppend` |
| `Pages.StatutesMembers` | extract.py:42-43 | the `ors_` filter keeps exactly the entries whose name starts with `ors_`, and no more entries than the listing has |
| `Pages.StatutesAppend` | extract_multithreaded.py:73 | filtering distributes over concatenation, so the filter preserves listing order |
| `Pages.Url` | extract_multithreaded.py:52 | the URL is the base URL followed by the relative path with `\` replaced by `/`; its length is the sum of both lengths, and it has no `\` after the base URL |
| `Extract.StopsAt` | extract.py:42-48 | when the run stops at an `ors_` file, the lines written so far are those of the `ors_` files before it, and it is the next one |
| `Extract.ExtractAll` | extract.py:35-68 | the k-th `ors_` file in listing order (from 0) is written with page id k+1, its URL and its merged metadata; other entries write nothing and use no id; the run ends at the first `ors_` file whose text cannot be extracted, and has then written exactly the records before it |
| `ExtractMultithreaded.ProcessFile` | extract_multithreaded.py:48-65 | `process_file` fails exactly when reading the bytes for encoding detection raises, with that exception |
| `ExtractMultithreaded.ProcessFileFields` | extract_multithreaded.py:48-65 | for a readable file the dict's URL is the base URL followed by the relative path with each `\` turned into `/`, character by character; its content is the text, or `""` when extracting it raised; `ors` resolves from the filename, and chapter, title and volume each from the filename when its filename pattern matches anywhere, else from the content |
| `ExtractMultithreaded.EmptyTextKeepsFilenameMetadata` | extract_multithreaded.py:20-22 | with empty text every content field is `"N/A"`, so the record keeps exactly the filename's metadata |
| `ExtractMultithreaded.FlatMapAppend` | extract_multithreaded.py:84-96 | what two successive stretches of completions contribute is what the first contributes followed by what the second does |
| `ExtractMultithreaded.FlatMapPermutation` | extract_multithreaded.py:84 | reordering the completions reorders what they contribute, and changes nothing else |
| `ExtractMultithreaded.SucceededCount` | extract_multithreaded.py:84-96 | every finished future is either written or skipped: written plus skipped equals finished |
| `ExtractMultithreaded.SucceededPermutation` | extract_multithreaded.py:81-84 | two completion orders of the same futures write the same multiset of dicts |
| `ExtractMultithreaded.ExtractAllConcurrently` | extract_multithreaded.py:73-96 | for a completion order that yields each `ors_` file once, successful futures get page ids 1..N in that order with no gap or repeat; failures are skipped by name without using an id; N plus the skips is the number of `ors_` files; the records apart from their ids are, as a multiset, those of the listing order |

## Left out

- HTML parsing and text flattening (BeautifulSoup's `stripped_strings`): foreign library semantics. The flattened text is an input string.
- Encoding detection (`chardet`) and decoding with replacement: statistical, byte-level I/O. Their effect is an input: the text, or a fault.
- The thread pool, `as_completed` scheduling and the lock around the counter: concurrency is not modelled. The completion order is an input permutation of the `ors_` files, and only the coordinating loop touches the counter.
- `os.listdir`, `os.path.join`, `os.path.relpath`, reading files: filesystem I/O. The listing order and each entry's relative path are inputs.
- Writing the output file, `json.dump` with `ensure_ascii=False`, and key order: serialisation is not modelled. The output is the sequence of records written.
- The `Processed: ...`, `Error processing {file_path}: ...` (`extract_multithreaded.py:21`) and completion messages: console output. The concurrent driver's per-failure log line is kept as the list of skipped file names; the failure reason is not carried into it.
- Python's `\d` also matches non-ASCII decimal digits, and the model accepts only `0`-`9`. On names or text holding other Unicode digits the model can give `"N/A"`, a shorter capture, or the capture of a later match where Python captures at an earlier position: for the filename `chapter_٣_chapter_5` Python's chapter is `٣` and the model's is `5`, which can also change which value the merge keeps.
- The base URL, directory and output file name are constants in the source. Here the base URL is a parameter and the directory shows up only in the relative paths.
- Faults raised after a page id is taken are not modelled. In the concurrent driver the `try` at `extract_multithreaded.py:86-96` also covers `json.dump`, `outfile.write` and `print`, which run after the id is assigned and incremented (lines 88-90); a fault there is caught at line 95, so the id is used but nothing complete may be written, the name is logged as failed, and a partial line or a whole record may already be in the file. Ids can then have a gap, and one file can be both written and skipped. The model's failures come only from `process_file`, so "failures use no id" and `SucceededCount` hold only for faults raised by `future.result()`. In the sequential driver a fault in `json.dump`, `write` or `print` (`extract.py:62-66`) ends the run after a partial or complete line; the model stops only when the text cannot be extracted. One such fault is a file name with undecodable bytes, which `os.listdir` returns with lone surrogates that the strict UTF-8 output file refuses; Dafny strings cannot hold such names.
