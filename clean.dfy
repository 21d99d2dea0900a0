/** Cleaning of a scraped collection: URL truncation at the query string and
    order-preserving removal of documents repeating a (title, truncated URL)
    pair. Reading and writing the collection files are not modelled. */
module Clean {
  import opened Text
  import opened Seqs
  import opened InvertedIndex

  /** `before_q` indexes the last character of the part before the first `?`,
      so that part must not be empty (`""` and `"?x"` raise IndexError). */
  predicate HasHead(s: string) {
    Before(s, '?') != []
  }

  lemma HasHeadIff(s: string)
    ensures HasHead(s) <==> s != [] && s[0] != '?'
  {
    if s != [] && s[0] != '?' {
      assert s[0] != '?';
      if '?' in s {
        assert IndexOf(s, '?') > 0;
      }
    }
  }

  /** `before_q`: the part before the first `?`, less one trailing `/`. */
  function BeforeQ(s: string): string
    requires HasHead(s)
  {
    var head := Before(s, '?');
    if head[|head| - 1] == '/' then head[..|head| - 1] else head
  }

  /** The result is a prefix of the input without `?`; it is the part before
      the first `?` with exactly one trailing `/` removed if it ends in `/`, and
      that part unchanged otherwise. */
  lemma BeforeQSpec(s: string)
    requires HasHead(s)
    ensures StartsWith(s, BeforeQ(s)) && '?' !in BeforeQ(s)
    ensures EndsWith(Before(s, '?'), "/") ==> BeforeQ(s) + "/" == Before(s, '?')
    ensures !EndsWith(Before(s, '?'), "/") ==> BeforeQ(s) == Before(s, '?')
  {
    var head := Before(s, '?');
    if head[|head| - 1] == '/' {
      assert head[..|head| - 1] + "/" == head;
      assert BeforeQ(s) == head[..|head| - 1];
      assert s[..|BeforeQ(s)|] == head[..|head| - 1];
    }
    assert head[|head| - 1..] == [head[|head| - 1]];
  }

  /** Only one slash is removed. */
  lemma BeforeQOneSlash()
    ensures BeforeQ("a//?x") == "a/"
  {
    var s := "a//?x";
    assert s[3] == '?' && '?' !in s[..3];
    assert IndexOf(s, '?') == 3;
  }

  /** The part before the first `?` of `s` ends at position `i`. */
  lemma BeforeAt(s: string, i: nat)
    requires i < |s| && s[i] == '?' && '?' !in s[..i]
    ensures Before(s, '?') == s[..i]
  {
    assert IndexOf(s, '?') == i;
  }

  /** A URL with a query string truncates to the part before it, whether or
      not a `/` precedes the `?` (the two shapes of a Steam store URL). */
  lemma TruncateQuery(u: string, q: string)
    requires u != [] && '?' !in u && u[|u| - 1] != '/'
    ensures HasHead(u + "?" + q) && BeforeQ(u + "?" + q) == u
    ensures HasHead(u + "/?" + q) && BeforeQ(u + "/?" + q) == u
  {
    var a := u + "?" + q;
    assert a[..|u|] == u;
    BeforeAt(a, |u|);
    var b := u + "/?" + q;
    assert b[..|u| + 1] == u + "/";
    assert '?' !in u + "/";
    BeforeAt(b, |u| + 1);
    assert (u + "/")[..|u|] == u;
  }

  // ---------------------------------------------------------------------------
  // Deduplication

  /** Every URL of the collection can be truncated. Pydantic's `HttpUrl`
      always renders with a scheme, so stored URLs never start with `?`. */
  ghost predicate AllHaveHeads(docs: seq<Document>) {
    forall i :: 0 <= i < |docs| ==> HasHead(docs[i].url)
  }

  /** What identifies a game: its title and its truncated URL. */
  function Pair(d: Document): (string, string)
    requires HasHead(d.url)
  {
    (d.title, BeforeQ(d.url))
  }

  function Pairs(docs: seq<Document>): (r: seq<(string, string)>)
    requires AllHaveHeads(docs)
    ensures |r| == |docs| && forall i :: 0 <= i < |docs| ==> r[i] == Pair(docs[i])
  {
    seq(|docs|, i requires 0 <= i < |docs| => Pair(docs[i]))
  }

  /** The `filtered_docs` loop: a document is kept unless a kept one has the
      same pair. */
  function Dedupe(docs: seq<Document>): (r: seq<Document>)
    requires AllHaveHeads(docs)
    ensures forall x :: x in r ==> x in docs
    ensures AllHaveHeads(r)
  {
    if docs == [] then []
    else
      var n := |docs| - 1;
      var kept := Dedupe(docs[..n]);
      if Pair(docs[n]) in Pairs(kept) then kept else kept + [docs[n]]
  }

  /** Reference definition: the documents whose pair no earlier input
      document has. */
  function FirstOccurrences(docs: seq<Document>): seq<Document>
    requires AllHaveHeads(docs)
  {
    if docs == [] then []
    else
      var n := |docs| - 1;
      FirstOccurrences(docs[..n]) + (if Pair(docs[n]) in Pairs(docs[..n]) then [] else [docs[n]])
  }

  lemma {:induction false} DedupeNotes(docs: seq<Document>)
    requires AllHaveHeads(docs)
    ensures Pairs(Dedupe(docs)) == NoteAll([], Pairs(docs))
  {
    if docs != [] {
      var n := |docs| - 1;
      DedupeNotes(docs[..n]);
      var kept := Dedupe(docs[..n]);
      assert Pairs(docs)[..n] == Pairs(docs[..n]);
      if Pair(docs[n]) !in Pairs(kept) {
        assert Pairs(kept + [docs[n]]) == Pairs(kept) + [Pair(docs[n])];
      }
    }
  }

  /** The kept pairs are the input pairs once each in first-appearance order:
      no two kept documents share a pair and every input document has a kept
      one with its pair. */
  lemma DedupePairs(docs: seq<Document>)
    requires AllHaveHeads(docs)
    ensures Pairs(Dedupe(docs)) == Distinct(Pairs(docs))
    ensures NoDuplicates(Pairs(Dedupe(docs)))
    ensures forall i :: 0 <= i < |docs| ==> Pair(docs[i]) in Pairs(Dedupe(docs))
  {
    DedupeNotes(docs);
    NoteAllDistinct([], Pairs(docs));
    forall i | 0 <= i < |docs|
      ensures Pair(docs[i]) in Pairs(Dedupe(docs))
    {
      assert Pairs(docs)[i] == Pair(docs[i]);
    }
  }

  /** The kept list is the subsequence of first occurrences: comparing against
      the kept documents is the same as comparing against all earlier ones. */
  lemma {:induction false} DedupeIsFirstOccurrences(docs: seq<Document>)
    requires AllHaveHeads(docs)
    ensures Dedupe(docs) == FirstOccurrences(docs)
  {
    if docs != [] {
      var n := |docs| - 1;
      DedupeIsFirstOccurrences(docs[..n]);
      DedupePairs(docs[..n]);
    }
  }

  /** The inner loop of the dedupe: does a kept document have the pair of `d`? */
  method IsPresent(filteredDocs: seq<Document>, d: Document) returns (present: bool)
    requires AllHaveHeads(filteredDocs) && HasHead(d.url)
    ensures present <==> Pair(d) in Pairs(filteredDocs)
  {
    present := false;
    for j := 0 to |filteredDocs|
      invariant present <==> exists t :: 0 <= t < j && Pair(filteredDocs[t]) == Pair(d)
    {
      var fd := filteredDocs[j];
      if d.title == fd.title && BeforeQ(d.url) == BeforeQ(fd.url) {
        present := true;
        break;
      }
    }
    if Pair(d) in Pairs(filteredDocs) {
      var t :| 0 <= t < |filteredDocs| && Pairs(filteredDocs)[t] == Pair(d);
      assert Pair(filteredDocs[t]) == Pair(d);
    }
  }

  /** The dedupe loop of the cleaning script, with its `present` flag. */
  method DedupeDocuments(docs: seq<Document>) returns (filteredDocs: seq<Document>)
    requires AllHaveHeads(docs)
    ensures filteredDocs == Dedupe(docs)
  {
    filteredDocs := [];
    for i := 0 to |docs|
      invariant filteredDocs == Dedupe(docs[..i])
    {
      var d := docs[i];
      assert docs[..i + 1][..i] == docs[..i];
      var present := IsPresent(filteredDocs, d);
      if !present {
        filteredDocs := filteredDocs + [d];
      }
    }
    assert docs[..|docs|] == docs;
  }
}
