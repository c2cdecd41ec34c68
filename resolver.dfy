/** The metadata resolver: `extract_metadata` (scan of the filename),
    `extract_metadata_from_content` (scan of the flattened text) and the per-field
    merge that `process_file` and the sequential `main` perform. Both source files
    carry these two functions with identical text, so they are modelled once. */
module Resolver {
  import opened Strings
  import opened Patterns

  /** The sentinel for a field that no pattern resolved. */
  const NA: string := "N/A"

  const OrsMarker: string := "ors_"
  const ChapterMarker: string := "chapter_"
  const TitleMarker: string := "title_"
  const VolumeMarker: string := "volume_"

  const ContentChapterMarker: string := "Chapter "
  const ContentTitleMarker: string := "Title "
  const ContentVolumeMarker: string := "Volume "

  /** The four metadata fields of a record; each is a capture or the sentinel. */
  datatype Metadata = Metadata(ors: string, chapter: string, title: string, volume: string)

  /** What the content scan yields: there is no `ors` field. */
  datatype ContentMetadata = ContentMetadata(chapter: string, title: string, volume: string)

  /** v is `m.group(1) if m else 'N/A'` for `m = re.search(marker + (shape), s)`:
      the sentinel when the pattern matches nowhere, otherwise the capture of the
      leftmost match. */
  ghost predicate Resolves(s: string, marker: string, shape: Shape, v: string) {
    (NoMatch(s, marker, shape) && v == NA) ||
    (exists p :: FirstMatch(s, marker, shape, p, v))
  }

  /** A field is either the sentinel or a token of the given shape. */
  ghost predicate SentinelOr(shape: Shape, v: string) {
    v == NA || InShape(shape, v)
  }

  /** One field of a scan: `m.group(1) if m else 'N/A'`. */
  function Capture(s: string, marker: string, shape: Shape): (v: string)
    ensures v == NA || (|v| > 0 && IsDigit(v[0]))
  {
    match Search(s, marker, shape)
    case Some(f) =>
      SearchCorrect(s, marker, shape);
      CapturesAtMatches(s, marker, shape, f.start, f.capture);
      f.capture
    case None => NA
  }

  /** A field is the capture of the leftmost match, or the sentinel exactly when
      the pattern matches nowhere; a capture is a token of the shape starting with
      a digit, so it is never the sentinel. */
  lemma CaptureCorrect(s: string, marker: string, shape: Shape)
    ensures Resolves(s, marker, shape, Capture(s, marker, shape))
    ensures Capture(s, marker, shape) == NA <==> NoMatch(s, marker, shape)
    ensures Capture(s, marker, shape) != NA ==>
              var v := Capture(s, marker, shape);
              InShape(shape, v) && |v| > 0 && IsDigit(v[0])
  {
    SearchCorrect(s, marker, shape);
    match Search(s, marker, shape) {
      case Some(f) =>
        CapturesAtMatches(s, marker, shape, f.start, f.capture);
        assert f.capture[0] != NA[0];
      case None =>
    }
  }

  /** Resolves pins the value down: at most one value resolves a field. */
  lemma ResolvesUnique(s: string, marker: string, shape: Shape, v1: string, v2: string)
    requires Resolves(s, marker, shape, v1)
    requires Resolves(s, marker, shape, v2)
    ensures v1 == v2
  {
    if NoMatch(s, marker, shape) {
      if v1 != NA {
        var p :| FirstMatch(s, marker, shape, p, v1);
        CapturesAtMatches(s, marker, shape, p, v1);
        assert false;
      }
      if v2 != NA {
        var p :| FirstMatch(s, marker, shape, p, v2);
        CapturesAtMatches(s, marker, shape, p, v2);
        assert false;
      }
    } else {
      var p1 :| FirstMatch(s, marker, shape, p1, v1);
      var p2 :| FirstMatch(s, marker, shape, p2, v2);
      FirstMatchUnique(s, marker, shape, p1, v1, p2, v2);
    }
  }

  /** `extract_metadata(filename)`. */
  function FromFilename(filename: string): Metadata {
    Metadata(Capture(filename, OrsMarker, Section),
             Capture(filename, ChapterMarker, Suffixed),
             Capture(filename, TitleMarker, Suffixed),
             Capture(filename, VolumeMarker, Number))
  }

  /** Each field of the filename scan resolves from its own pattern: `ors` is
      dotted, chapter and title may carry a letter, volume is digits only. */
  lemma FromFilenameResolves(filename: string)
    ensures var m := FromFilename(filename);
      && Resolves(filename, OrsMarker, Section, m.ors)
      && Resolves(filename, ChapterMarker, Suffixed, m.chapter)
      && Resolves(filename, TitleMarker, Suffixed, m.title)
      && Resolves(filename, VolumeMarker, Number, m.volume)
  {
    CaptureCorrect(filename, OrsMarker, Section);
    CaptureCorrect(filename, ChapterMarker, Suffixed);
    CaptureCorrect(filename, TitleMarker, Suffixed);
    CaptureCorrect(filename, VolumeMarker, Number);
  }

  /** `extract_metadata_from_content(content)`: case-sensitive markers with one
      space; the title is digits only, unlike the filename's `title_` token. */
  function FromContent(content: string): ContentMetadata {
    ContentMetadata(Capture(content, ContentChapterMarker, Suffixed),
                    Capture(content, ContentTitleMarker, Number),
                    Capture(content, ContentVolumeMarker, Number))
  }

  /** Each field of the content scan resolves from its own pattern. */
  lemma FromContentResolves(content: string)
    ensures var c := FromContent(content);
      && Resolves(content, ContentChapterMarker, Suffixed, c.chapter)
      && Resolves(content, ContentTitleMarker, Number, c.title)
      && Resolves(content, ContentVolumeMarker, Number, c.volume)
  {
    CaptureCorrect(content, ContentChapterMarker, Suffixed);
    CaptureCorrect(content, ContentTitleMarker, Number);
    CaptureCorrect(content, ContentVolumeMarker, Number);
  }

  /** `a if a != 'N/A' else b`. */
  function Prefer(a: string, b: string): string {
    if a != NA then a else b
  }

  /** The merge: each of chapter, title and volume from the filename unless it is
      the sentinel, else from the content; `ors` from the filename alone. */
  function Merge(f: Metadata, c: ContentMetadata): (m: Metadata)
    ensures m.ors == f.ors
    ensures f.chapter != NA ==> m.chapter == f.chapter
    ensures f.title != NA ==> m.title == f.title
    ensures f.volume != NA ==> m.volume == f.volume
    ensures f.chapter == NA ==> m.chapter == c.chapter
    ensures f.title == NA ==> m.title == c.title
    ensures f.volume == NA ==> m.volume == c.volume
  {
    Metadata(f.ors, Prefer(f.chapter, c.chapter), Prefer(f.title, c.title), Prefer(f.volume, c.volume))
  }

  /** The metadata a record carries for a file with this name and text. */
  function Resolve(filename: string, content: string): Metadata {
    Merge(FromFilename(filename), FromContent(content))
  }

  /** A merged field resolves from the filename if its filename pattern matches
      anywhere, and from the content otherwise. */
  ghost predicate Preferred(filename: string, nameMarker: string, nameShape: Shape,
                            content: string, textMarker: string, textShape: Shape, v: string) {
    if NoMatch(filename, nameMarker, nameShape) then Resolves(content, textMarker, textShape, v)
    else Resolves(filename, nameMarker, nameShape, v)
  }

  /** Merge precedence, stated against what the patterns mean. */
  lemma ResolvePrecedence(filename: string, content: string)
    ensures var m := Resolve(filename, content);
      && Resolves(filename, OrsMarker, Section, m.ors)
      && Preferred(filename, ChapterMarker, Suffixed, content, ContentChapterMarker, Suffixed, m.chapter)
      && Preferred(filename, TitleMarker, Suffixed, content, ContentTitleMarker, Number, m.title)
      && Preferred(filename, VolumeMarker, Number, content, ContentVolumeMarker, Number, m.volume)
  {
    FromFilenameResolves(filename);
    FromContentResolves(content);
    CaptureCorrect(filename, ChapterMarker, Suffixed);
    CaptureCorrect(filename, TitleMarker, Suffixed);
    CaptureCorrect(filename, VolumeMarker, Number);
  }

  /** A merged field is the sentinel exactly when neither the filename nor the
      content resolves it. */
  lemma ResolveSentinel(filename: string, content: string)
    ensures var m := Resolve(filename, content);
      && (m.ors == NA <==> NoMatch(filename, OrsMarker, Section))
      && (m.chapter == NA <==> NoMatch(filename, ChapterMarker, Suffixed) &&
                               NoMatch(content, ContentChapterMarker, Suffixed))
      && (m.title == NA <==> NoMatch(filename, TitleMarker, Suffixed) &&
                             NoMatch(content, ContentTitleMarker, Number))
      && (m.volume == NA <==> NoMatch(filename, VolumeMarker, Number) &&
                              NoMatch(content, ContentVolumeMarker, Number))
  {
    CaptureCorrect(filename, OrsMarker, Section);
    CaptureCorrect(filename, ChapterMarker, Suffixed);
    CaptureCorrect(filename, TitleMarker, Suffixed);
    CaptureCorrect(filename, VolumeMarker, Number);
    CaptureCorrect(content, ContentChapterMarker, Suffixed);
    CaptureCorrect(content, ContentTitleMarker, Number);
    CaptureCorrect(content, ContentVolumeMarker, Number);
  }

  /** Every field of a record is the sentinel or a well-shaped token: chapter and
      title may carry a letter suffix, volume is digits only, ors is dotted. */
  lemma ResolveWellFormed(filename: string, content: string)
    ensures var m := Resolve(filename, content);
      && SentinelOr(Section, m.ors)
      && SentinelOr(Suffixed, m.chapter)
      && SentinelOr(Suffixed, m.title)
      && SentinelOr(Number, m.volume)
  {
    CaptureCorrect(filename, OrsMarker, Section);
    CaptureCorrect(filename, ChapterMarker, Suffixed);
    CaptureCorrect(filename, TitleMarker, Suffixed);
    CaptureCorrect(filename, VolumeMarker, Number);
    CaptureCorrect(content, ContentChapterMarker, Suffixed);
    CaptureCorrect(content, ContentTitleMarker, Number);
    CaptureCorrect(content, ContentVolumeMarker, Number);
  }
}
