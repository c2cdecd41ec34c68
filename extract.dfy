/** The sequential driver (`extract.py`). The directory is listed once, every entry
    whose name starts with `ors_` is turned into a record and written at once, and
    the page id counts the records written so far. Reading a file decodes it as
    UTF-8, and a decoding fault is not caught: it ends the run, and the lines
    already written are all the output there is. */
module Extract {
  import opened Patterns
  import opened Pages

  /** A listing entry for this driver: its env is the flattened text the file
      yields, or None where `extract_text_from_html` raises. */
  type Entry = Listed<Option<string>>

  /** The line written for a readable statute file that receives `pageId`. */
  function Written(baseUrl: string, f: Entry, pageId: nat): Record
    requires f.env.Some?
  {
    Numbered(PageOf(baseUrl, f.name, f.relativePath, f.env.value), pageId)
  }

  /** `records` are the lines written for the first |records| entries of `sel`,
      numbered from 1. */
  predicate WrittenFor(baseUrl: string, records: seq<Record>, sel: seq<Entry>) {
    |records| <= |sel| &&
    forall k :: 0 <= k < |records| ==>
      sel[k].env.Some? && records[k] == Written(baseUrl, sel[k], k + 1)
  }

  /** Writing the next readable statute extends the written lines by one. */
  lemma WrittenForSnoc(baseUrl: string, records: seq<Record>, sel: seq<Entry>, f: Entry)
    requires |records| == |sel| && WrittenFor(baseUrl, records, sel) && f.env.Some?
    ensures WrittenFor(baseUrl, records + [Written(baseUrl, f, |records| + 1)], sel + [f])
  {
    var r := records + [Written(baseUrl, f, |records| + 1)];
    forall k | 0 <= k < |r|
      ensures (sel + [f])[k].env.Some? && r[k] == Written(baseUrl, (sel + [f])[k], k + 1)
    {
      if k < |records| {
        assert (sel + [f])[k] == sel[k];
      }
    }
  }

  /** Lines written for a prefix of the statutes are written for the whole. */
  lemma WrittenForExtend(baseUrl: string, records: seq<Record>, sel: seq<Entry>, rest: seq<Entry>)
    requires WrittenFor(baseUrl, records, sel)
    ensures WrittenFor(baseUrl, records, sel + rest)
  {
    forall k | 0 <= k < |records|
      ensures (sel + rest)[k].env.Some? && records[k] == Written(baseUrl, (sel + rest)[k], k + 1)
    {
      assert (sel + rest)[k] == sel[k];
    }
  }

  /** When the run stops at the i-th entry, an `ors_` file, the lines written so
      far are those of the statutes before it, and it is the next statute. */
  lemma StopsAt(baseUrl: string, listing: seq<Entry>, i: nat, records: seq<Record>)
    requires i < |listing| && IsStatute(listing[i].name)
    requires |records| == |Statutes(listing[..i])|
    requires WrittenFor(baseUrl, records, Statutes(listing[..i]))
    ensures |records| < |Statutes(listing)| && Statutes(listing)[|records|] == listing[i]
    ensures WrittenFor(baseUrl, records, Statutes(listing))
  {
    var rest := Statutes(listing[i + 1..]);
    StatutesSnoc(listing, i);
    StatutesSplit(listing, i + 1);
    assert Statutes(listing) == Statutes(listing[..i]) + ([listing[i]] + rest);
    WrittenForExtend(baseUrl, records, Statutes(listing[..i]), [listing[i]] + rest);
  }

  /** `main` of `extract.py`: the records in the order they are written, and
      whether the run got to the end of the listing. The k-th `ors_` file (from 0)
      gets page id k + 1; entries with another name produce nothing and use no id;
      the first unreadable `ors_` file ends the run. */
  method ExtractAll(baseUrl: string, listing: seq<Entry>) returns (records: seq<Record>, completed: bool)
    ensures |records| <= |Statutes(listing)|
    ensures completed <==> |records| == |Statutes(listing)|
    ensures !completed ==> Statutes(listing)[|records|].env.None?
    ensures forall k :: 0 <= k < |records| ==>
              Statutes(listing)[k].env.Some? &&
              records[k] == Written(baseUrl, Statutes(listing)[k], k + 1)
    ensures forall k :: 0 <= k < |records| ==> records[k].pageId == k + 1
  {
    records := [];
    var pageId := 1;
    var i := 0;
    while i < |listing|
      invariant 0 <= i <= |listing|
      invariant pageId == |records| + 1
      invariant |records| == |Statutes(listing[..i])|
      invariant WrittenFor(baseUrl, records, Statutes(listing[..i]))
    {
      var f := listing[i];
      StatutesSnoc(listing, i);
      if IsStatute(f.name) {
        if f.env.None? {
          StopsAt(baseUrl, listing, i, records);
          return records, false;
        }
        WrittenForSnoc(baseUrl, records, Statutes(listing[..i]), f);
        records := records + [Written(baseUrl, f, pageId)];
        pageId := pageId + 1;
      }
      i := i + 1;
    }
    assert listing[..i] == listing;
    completed := true;
  }
}
