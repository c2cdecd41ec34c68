/** What both batch drivers share: a directory entry, the `ors_` prefix filter,
    the URL rule, and the shape of an output record. */
module Pages {
  import opened Strings
  import opened Resolver

  /** One entry of the directory listing. `relativePath` is what
      `os.path.relpath(os.path.join(directory, name), '.')` yields for it; `env` is
      what reading the file produces, which differs between the two drivers. */
  datatype Listed<E> = Listed(name: string, relativePath: string, env: E)

  const StatutePrefix: string := "ors_"

  predicate IsStatute(name: string) {
    StartsWith(name, StatutePrefix)
  }

  /** The entries whose name starts with `ors_`, in listing order. */
  function Statutes<E>(listing: seq<Listed<E>>): seq<Listed<E>> {
    if listing == [] then []
    else
      var n := |listing| - 1;
      Statutes(listing[..n]) + (if IsStatute(listing[n].name) then [listing[n]] else [])
  }

  /** The filter keeps exactly the `ors_` entries, and no more of them than there
      are entries. */
  lemma {:induction false} StatutesMembers<E>(listing: seq<Listed<E>>)
    ensures |Statutes(listing)| <= |listing|
    ensures forall k :: 0 <= k < |Statutes(listing)| ==>
              Statutes(listing)[k] in listing && IsStatute(Statutes(listing)[k].name)
    ensures forall k :: 0 <= k < |listing| && IsStatute(listing[k].name) ==>
              listing[k] in Statutes(listing)
  {
    if listing != [] {
      var n := |listing| - 1;
      assert listing == listing[..n] + [listing[n]];
      StatutesMembers(listing[..n]);
    }
  }

  lemma {:induction false} StatutesAppend<E>(a: seq<Listed<E>>, b: seq<Listed<E>>)
    ensures Statutes(a + b) == Statutes(a) + Statutes(b)
    decreases |b|
  {
    if b == [] {
      assert a + b == a;
    } else {
      var n := |b| - 1;
      assert (a + b)[..|a + b| - 1] == a + b[..n];
      StatutesAppend(a, b[..n]);
    }
  }

  /** Extending the listing by one entry extends the filtered listing by that entry
      when it is an `ors_` file, and by nothing otherwise. */
  lemma StatutesSnoc<E>(listing: seq<Listed<E>>, i: nat)
    requires i < |listing|
    ensures Statutes(listing[..i + 1]) ==
              Statutes(listing[..i]) + (if IsStatute(listing[i].name) then [listing[i]] else [])
  {
    assert listing[..i + 1][..i] == listing[..i];
  }

  /** The filtered prefix of a listing is a prefix of the filtered listing. */
  lemma StatutesSplit<E>(listing: seq<Listed<E>>, i: nat)
    requires i <= |listing|
    ensures Statutes(listing) == Statutes(listing[..i]) + Statutes(listing[i..])
  {
    calc {
      Statutes(listing);
      { assert listing == listing[..i] + listing[i..]; }
      Statutes(listing[..i] + listing[i..]);
      { StatutesAppend(listing[..i], listing[i..]); }
      Statutes(listing[..i]) + Statutes(listing[i..]);
    }
  }

  /** `base_url + relative_path.replace('\\', '/')`. */
  function Url(baseUrl: string, relativePath: string): (u: string)
    ensures |u| == |baseUrl| + |relativePath|
    ensures u[..|baseUrl|] == baseUrl
    ensures forall k :: |baseUrl| <= k < |u| ==> u[k] != '\\'
    ensures forall k :: 0 <= k < |relativePath| && relativePath[k] == '\\' ==> u[|baseUrl| + k] == '/'
    ensures forall k :: 0 <= k < |relativePath| && relativePath[k] != '\\' ==> u[|baseUrl| + k] == relativePath[k]
  {
    var r := ReplaceBackslashes(relativePath);
    var u := baseUrl + r;
    assert forall k :: 0 <= k < |r| ==> u[|baseUrl| + k] == r[k];
    u
  }

  /** The record of one file before it has a page id (`process_file`'s dict). */
  datatype Page = Page(url: string, content: string,
                       ors: string, chapter: string, title: string, volume: string)

  /** One line of the output file: all seven keys, every metadata field a string. */
  datatype Record = Record(url: string, pageId: nat, content: string,
                           ors: string, chapter: string, title: string, volume: string)

  /** The page for a file with this name, path and extracted text. */
  function PageOf(baseUrl: string, name: string, relativePath: string, content: string): Page {
    var m := Resolve(name, content);
    Page(Url(baseUrl, relativePath), content, m.ors, m.chapter, m.title, m.volume)
  }

  function Numbered(p: Page, pageId: nat): Record {
    Record(p.url, pageId, p.content, p.ors, p.chapter, p.title, p.volume)
  }
}
