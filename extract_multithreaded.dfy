/** The concurrent driver (`extract_multithreaded.py`). Every `ors_` file is handed
    to a worker that runs `process_file`; the coordinating loop takes the finished
    futures in completion order, gives each successful one the next page id and
    writes it, and logs and skips each one that raised. Only that loop touches the
    page id, so the numbering is a sequential loop over the completion order. */
module ExtractMultithreaded {
  import opened Patterns
  import opened Resolver
  import opened Pages

  /** What reading one file gives this driver's worker. */
  datatype FileBytes =
    /** Reading the raw bytes for encoding detection raised. That call is outside
        the `try`, so `process_file` raises and the future fails. */
    | Unreadable(reason: string)
    /** The bytes were read. `text` is the flattened text, or None when decoding
        or parsing raised inside the `try`, which then yields the empty text. */
    | Readable(text: Option<string>)

  type Task = Listed<FileBytes>

  /** A finished future: its dict, or the exception it raised. */
  datatype Outcome = Success(page: Page) | Failure(reason: string)

  /** `extract_text_from_html` once the bytes were read: a fault gives "". */
  function ExtractedText(text: Option<string>): string {
    match text
    case Some(t) => t
    case None => ""
  }

  /** `process_file`: fails exactly when the file could not be read for encoding
      detection, with the exception raised there. */
  function ProcessFile(baseUrl: string, f: Task): (o: Outcome)
    ensures o.Failure? <==> f.env.Unreadable?
    ensures o.Failure? ==> o.reason == f.env.reason
  {
    match f.env
    case Unreadable(reason) => Failure(reason)
    case Readable(text) => Success(PageOf(baseUrl, f.name, f.relativePath, ExtractedText(text)))
  }

  /** The dict `process_file` returns for a readable file: the URL is the base URL
      followed by the relative path with each backslash turned into a slash; the
      content is the extracted text, or "" when extracting it raised; `ors` resolves
      from the filename, and each of chapter, title and volume from the filename
      when its filename pattern matches anywhere, and from the content otherwise. */
  lemma ProcessFileFields(baseUrl: string, f: Task)
    requires f.env.Readable?
    ensures ProcessFile(baseUrl, f).Success?
    ensures var p := ProcessFile(baseUrl, f).page;
      && |p.url| == |baseUrl| + |f.relativePath|
      && p.url[..|baseUrl|] == baseUrl
      && (forall k :: 0 <= k < |f.relativePath| ==>
            p.url[|baseUrl| + k] == if f.relativePath[k] == '\\' then '/' else f.relativePath[k])
      && (f.env.text.Some? ==> p.content == f.env.text.value)
      && (f.env.text.None? ==> p.content == "")
      && Resolves(f.name, OrsMarker, Section, p.ors)
      && Preferred(f.name, ChapterMarker, Suffixed, p.content, ContentChapterMarker, Suffixed, p.chapter)
      && Preferred(f.name, TitleMarker, Suffixed, p.content, ContentTitleMarker, Number, p.title)
      && Preferred(f.name, VolumeMarker, Number, p.content, ContentVolumeMarker, Number, p.volume)
  {
    var p := ProcessFile(baseUrl, f).page;
    ResolvePrecedence(f.name, p.content);
  }

  /** A file whose text could not be extracted keeps its filename metadata, and
      every field the filename does not give is the sentinel. */
  lemma EmptyTextKeepsFilenameMetadata(filename: string)
    ensures Resolve(filename, "") == FromFilename(filename)
    ensures FromContent("") == ContentMetadata(NA, NA, NA)
  {
    MatchAtCorrect("", ContentChapterMarker, Suffixed, 0);
    MatchAtCorrect("", ContentTitleMarker, Number, 0);
    MatchAtCorrect("", ContentVolumeMarker, Number, 0);
  }

  // ---------------------------------------------------------------------------
  // What a sequence of finished futures contributes, independent of what each
  // future is

  /** f applied to every element of c in order, the results concatenated. */
  function FlatMap<T, U>(f: T -> seq<U>, c: seq<T>): seq<U> {
    if c == [] then [] else FlatMap(f, c[..|c| - 1]) + f(c[|c| - 1])
  }

  lemma FlatMapSnoc<T, U>(f: T -> seq<U>, c: seq<T>, i: nat)
    requires i < |c|
    ensures FlatMap(f, c[..i + 1]) == FlatMap(f, c[..i]) + f(c[i])
  {
    assert c[..i + 1][..i] == c[..i];
  }

  lemma {:induction false} FlatMapAppend<T, U>(f: T -> seq<U>, a: seq<T>, b: seq<T>)
    ensures FlatMap(f, a + b) == FlatMap(f, a) + FlatMap(f, b)
    decreases |b|
  {
    if b == [] {
      assert a + b == a;
    } else {
      var n := |b| - 1;
      assert (a + b)[..|a + b| - 1] == a + b[..n];
      FlatMapAppend(f, a, b[..n]);
    }
  }

  /** A sequence is its part before j, its j-th element and its part after j. */
  lemma SplitAt<T>(c: seq<T>, j: nat)
    requires j < |c|
    ensures c == c[..j] + [c[j]] + c[j + 1..]
  {
    var r := c[..j] + [c[j]] + c[j + 1..];
    forall k | 0 <= k < |c|
      ensures r[k] == c[k]
    {
      if k < j {
        assert r[k] == c[..j][k];
      } else if k > j {
        assert r[k] == c[j + 1..][k - j - 1];
      }
    }
  }

  /** Taking out the j-th element takes one copy of it out of the multiset. */
  lemma MultisetRemoveAt<T>(c: seq<T>, j: nat)
    requires j < |c|
    ensures multiset(c[..j] + c[j + 1..]) == multiset(c) - multiset{c[j]}
  {
    SplitAt(c, j);
    assert multiset(c) == multiset(c[..j]) + multiset{c[j]} + multiset(c[j + 1..]);
  }

  /** What c contributes is what it contributes without its j-th element, plus
      what that element contributes. */
  lemma FlatMapAround<T, U>(f: T -> seq<U>, c: seq<T>, j: nat)
    requires j < |c|
    ensures multiset(FlatMap(f, c)) == multiset(FlatMap(f, c[..j] + c[j + 1..])) + multiset(f(c[j]))
  {
    var a, x, b := c[..j], c[j], c[j + 1..];
    SplitAt(c, j);
    assert (a + [x])[..|a + [x]| - 1] == a;
    calc {
      multiset(FlatMap(f, c));
      { FlatMapAppend(f, a + [x], b); }
      multiset(FlatMap(f, a + [x]) + FlatMap(f, b));
      multiset(FlatMap(f, a) + f(x) + FlatMap(f, b));
      multiset(FlatMap(f, a)) + multiset(FlatMap(f, b)) + multiset(f(x));
      { FlatMapAppend(f, a, b); }
      multiset(FlatMap(f, a + b)) + multiset(f(x));
    }
  }

  /** Reordering the elements reorders what they contribute, and nothing more. */
  lemma {:induction false} FlatMapPermutation<T, U>(f: T -> seq<U>, c1: seq<T>, c2: seq<T>)
    requires multiset(c1) == multiset(c2)
    ensures multiset(FlatMap(f, c1)) == multiset(FlatMap(f, c2))
    decreases |c1|
  {
    if c1 == [] {
      assert |c2| == |multiset(c2)| == 0;
    } else {
      var n := |c1| - 1;
      var x := c1[n];
      assert x in multiset(c2) by {
        assert x in multiset(c1);
      }
      var j :| 0 <= j < |c2| && c2[j] == x;
      MultisetRemoveAt(c2, j);
      MultisetRemoveAt(c1, n);
      assert c1[..n] + c1[n + 1..] == c1[..n];
      FlatMapPermutation(f, c1[..n], c2[..j] + c2[j + 1..]);
      FlatMapAround(f, c2, j);
    }
  }

  // ---------------------------------------------------------------------------
  // The futures of this driver

  /** The dicts a finished future contributes: its dict, or none. */
  function PagesOf(baseUrl: string, f: Task): seq<Page> {
    match ProcessFile(baseUrl, f)
    case Success(p) => [p]
    case Failure(_) => []
  }

  /** The name a finished future logs: its file name if it raised, else none. */
  function FailedName(baseUrl: string, f: Task): seq<string> {
    if ProcessFile(baseUrl, f).Failure? then [f.name] else []
  }

  /** The dicts of the successful futures, in the order given. */
  function Succeeded(baseUrl: string, done: seq<Task>): seq<Page> {
    FlatMap(t => PagesOf(baseUrl, t), done)
  }

  /** The names logged for the futures that raised, in the order given. */
  function FailedNames(baseUrl: string, done: seq<Task>): seq<string> {
    FlatMap(t => FailedName(baseUrl, t), done)
  }

  /** When every element contributes exactly one item to f or to g, the two
      together have one item per element. */
  lemma {:induction false} FlatMapSplitCount<T, U, V>(f: T -> seq<U>, g: T -> seq<V>, c: seq<T>)
    requires forall x :: x in c ==> |f(x)| + |g(x)| == 1
    ensures |FlatMap(f, c)| + |FlatMap(g, c)| == |c|
  {
    if c != [] {
      var n := |c| - 1;
      assert forall x :: x in c[..n] ==> x in c;
      FlatMapSplitCount(f, g, c[..n]);
      assert c[n] in c;
    }
  }

  /** A finished future is either written or skipped, not both. */
  lemma OutcomeCount(baseUrl: string, f: Task)
    ensures |PagesOf(baseUrl, f)| + |FailedName(baseUrl, f)| == 1
  {
  }

  /** Every finished future is either written or skipped. */
  lemma SucceededCount(baseUrl: string, done: seq<Task>)
    ensures |Succeeded(baseUrl, done)| + |FailedNames(baseUrl, done)| == |done|
  {
    forall x | x in done
      ensures |PagesOf(baseUrl, x)| + |FailedName(baseUrl, x)| == 1
    {
      OutcomeCount(baseUrl, x);
    }
    FlatMapSplitCount(t => PagesOf(baseUrl, t), t => FailedName(baseUrl, t), done);
  }

  /** The completion order does not change which dicts are written: any two orders
      of the same futures give the same multiset of records, page ids aside. */
  lemma SucceededPermutation(baseUrl: string, c1: seq<Task>, c2: seq<Task>)
    requires multiset(c1) == multiset(c2)
    ensures multiset(Succeeded(baseUrl, c1)) == multiset(Succeeded(baseUrl, c2))
  {
    FlatMapPermutation(t => PagesOf(baseUrl, t), c1, c2);
  }

  /** One more completion extends the written dicts and the skipped names by what
      that future contributes. */
  lemma CompletedSnoc(baseUrl: string, done: seq<Task>, i: nat)
    requires i < |done|
    ensures Succeeded(baseUrl, done[..i + 1]) == Succeeded(baseUrl, done[..i]) + PagesOf(baseUrl, done[i])
    ensures FailedNames(baseUrl, done[..i + 1]) == FailedNames(baseUrl, done[..i]) + FailedName(baseUrl, done[i])
  {
    FlatMapSnoc(t => PagesOf(baseUrl, t), done, i);
    FlatMapSnoc(t => FailedName(baseUrl, t), done, i);
  }

  /** Over a completion order of the `ors_` files, the written and the skipped
      together are all of them, and the written dicts are those of listing order. */
  lemma CompletionOrderTotals(baseUrl: string, listing: seq<Task>, completed: seq<Task>)
    requires multiset(completed) == multiset(Statutes(listing))
    ensures |Succeeded(baseUrl, completed)| + |FailedNames(baseUrl, completed)| == |Statutes(listing)|
    ensures multiset(Succeeded(baseUrl, completed)) == multiset(Succeeded(baseUrl, Statutes(listing)))
  {
    SucceededCount(baseUrl, completed);
    assert |completed| == |multiset(completed)| == |Statutes(listing)|;
    SucceededPermutation(baseUrl, completed, Statutes(listing));
  }

  /** `main` of `extract_multithreaded.py`, for one completion order of the
      submitted futures (`as_completed` yields each of them exactly once). The
      successful futures get page ids 1..N in completion order with no gap and no
      repeat; a failed one is skipped, logged with its name, and uses no id. */
  method ExtractAllConcurrently(baseUrl: string, listing: seq<Task>, completed: seq<Task>)
    returns (records: seq<Record>, skipped: seq<string>)
    requires multiset(completed) == multiset(Statutes(listing))
    ensures |records| == |Succeeded(baseUrl, completed)|
    ensures forall k :: 0 <= k < |records| ==>
              records[k] == Numbered(Succeeded(baseUrl, completed)[k], k + 1)
    ensures forall k :: 0 <= k < |records| ==> records[k].pageId == k + 1
    ensures skipped == FailedNames(baseUrl, completed)
    ensures |records| + |skipped| == |Statutes(listing)|
    ensures multiset(Succeeded(baseUrl, completed)) == multiset(Succeeded(baseUrl, Statutes(listing)))
  {
    records, skipped := [], [];
    var pageId := 1;
    var i := 0;
    while i < |completed|
      invariant 0 <= i <= |completed|
      invariant pageId == |records| + 1
      invariant |records| == |Succeeded(baseUrl, completed[..i])|
      invariant forall k :: 0 <= k < |records| ==>
                  records[k] == Numbered(Succeeded(baseUrl, completed[..i])[k], k + 1)
      invariant skipped == FailedNames(baseUrl, completed[..i])
    {
      var f := completed[i];
      CompletedSnoc(baseUrl, completed, i);
      match ProcessFile(baseUrl, f) {
        case Success(page) =>
          records := records + [Numbered(page, pageId)];
          pageId := pageId + 1;
        case Failure(_) =>
          skipped := skipped + [f.name];
      }
      i := i + 1;
    }
    assert completed[..i] == completed;
    CompletionOrderTotals(baseUrl, listing, completed);
  }
}
