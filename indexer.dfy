/** The inverted index of app/engine/indexer.py: building the lexicon from the
    corpus, flattening it into document and posting rows, the two lookups the
    ranker uses, and the start-up decision between reusing and rebuilding. The
    relational store is modelled as in-memory rows; the corpus hash is a
    parameter. */
module InvertedIndex {
  import opened Wrappers
  import opened Seqs
  import Parser

  /** A corpus document: what indexing and ranking need of it. */
  datatype Document = Document(id: string, sourceName: string, url: string, title: string, text: string)

  /** `(collection_name, index)`: where a document sits in the corpus. */
  type Key = (string, nat)

  datatype DocumentRef = DocumentRef(collectionName: string, index: nat, wordsLength: nat)

  datatype Posting = Posting(wordFrequencyWithinDocument: nat, document: DocumentRef)

  datatype LexiconEntry = LexiconEntry(word: string, collectionFrequency: nat, postings: seq<Posting>)

  /** One row of what `get_documents_for_word` returns. */
  datatype DocumentInfo = DocumentInfo(collectionName: string, index: nat, wordFrequencyWithinDocument: nat, wordsLength: nat)

  function KeyOf(p: Posting): Key {
    (p.document.collectionName, p.document.index)
  }

  // ---------------------------------------------------------------------------
  // The word -> lexicon dictionary built by build_inverted_index

  /** The `words_lexicon` dict: its entries and the order its keys were inserted in. */
  datatype Lex = Lex(order: seq<string>, entries: map<string, LexiconEntry>)

  const EmptyLex := Lex([], map[])

  function SumFreq(ps: seq<Posting>): nat {
    if ps == [] then 0 else SumFreq(ps[..|ps| - 1]) + ps[|ps| - 1].wordFrequencyWithinDocument
  }

  /** Invariant of the dict: keys inserted once each, each entry filed under its
      own word, non-empty postings, and the collection frequency is the sum of
      the in-document frequencies of the postings. */
  ghost predicate ValidLex(lex: Lex) {
    && KeysMatch(lex)
    && (forall w :: w in lex.entries ==> EntryValid(w, lex.entries[w]))
  }

  /** An entry is filed under its own word, has postings, and its collection
      frequency is the sum of its postings' in-document frequencies. */
  ghost predicate EntryValid(w: string, e: LexiconEntry) {
    e.word == w && |e.postings| > 0 && e.collectionFrequency == SumFreq(e.postings)
  }

  /** The dict's keys are exactly its insertion order, each once. */
  ghost predicate KeysMatch(lex: Lex) {
    NoDuplicates(lex.order) && forall w :: w in lex.entries <==> w in lex.order
  }

  /** One iteration of the innermost loop: file posting `p` under word `w`. */
  function AddWord(lex: Lex, w: string, p: Posting): Lex {
    if w in lex.entries then
      var e := lex.entries[w];
      Lex(lex.order, lex.entries[w := e.(collectionFrequency := e.collectionFrequency + p.wordFrequencyWithinDocument,
                                         postings := e.postings + [p])])
    else
      Lex(lex.order + [w], lex.entries[w := LexiconEntry(w, p.wordFrequencyWithinDocument, [p])])
  }

  /** The postings a document contributes: one per distinct parsed word, in the
      word counter's order (first occurrence), with the word's count and the
      document's parsed length. */
  function DocPostings(words: seq<string>, name: string, idx: nat): (r: seq<(string, Posting)>)
    ensures |r| == |Distinct(words)|
  {
    Tagged(Distinct(words), words, name, idx)
  }

  /** Each word of `ws` paired with its posting in the document `words`. */
  function Tagged(ws: seq<string>, words: seq<string>, name: string, idx: nat): (r: seq<(string, Posting)>)
    ensures |r| == |ws|
  {
    if ws == [] then []
    else
      var w := ws[|ws| - 1];
      Tagged(ws[..|ws| - 1], words, name, idx) + [(w, Posting(Count(words, w), DocumentRef(name, idx, |words|)))]
  }

  function AddPostings(lex: Lex, ps: seq<(string, Posting)>): Lex {
    if ps == [] then lex
    else
      var last := ps[|ps| - 1];
      AddWord(AddPostings(lex, ps[..|ps| - 1]), last.0, last.1)
  }

  /** A document as the builder sees it: its source name and parsed words. */
  datatype ParsedDoc = ParsedDoc(sourceName: string, words: seq<string>)

  /** Each document of a sub-collection run through `parse_text_to_words`. */
  function ParsedCol(col: seq<Document>, cfg: Parser.Config): (r: seq<ParsedDoc>)
    ensures |r| == |col|
  {
    seq(|col|, i requires 0 <= i < |col| => ParsedDoc(col[i].sourceName, Parser.ParseTextToWords(col[i].text, cfg)))
  }

  /** Each document of the corpus run through `parse_text_to_words`. */
  function Parsed(cols: seq<seq<Document>>, cfg: Parser.Config): (r: seq<seq<ParsedDoc>>)
    ensures |r| == |cols|
  {
    seq(|cols|, c requires 0 <= c < |cols| => ParsedCol(cols[c], cfg))
  }


  /** The first `n` documents of sub-collection `col` added to `lex`. */
  function AddDocs(lex: Lex, col: seq<ParsedDoc>, n: nat): Lex
    requires n <= |col|
  {
    if n == 0 then lex else AddDocument(AddDocs(lex, col, n - 1), col[n - 1], n - 1)
  }

  /** The document at position `idx` of its sub-collection added to `lex`. */
  function AddDocument(lex: Lex, d: ParsedDoc, idx: nat): Lex {
    AddPostings(lex, DocPostings(d.words, d.sourceName, idx))
  }

  /** The dict after processing every sub-collection of `cols` in order. */
  function BuildSpec(cols: seq<seq<ParsedDoc>>): Lex {
    if cols == [] then EmptyLex
    else
      var last := cols[|cols| - 1];
      AddDocs(BuildSpec(cols[..|cols| - 1]), last, |last|)
  }

  /** The dict's entries, in key insertion order. */
  function Entries(lex: Lex): seq<LexiconEntry> {
    seq(|lex.order|, i requires 0 <= i < |lex.order| =>
      if lex.order[i] in lex.entries then lex.entries[lex.order[i]] else LexiconEntry(lex.order[i], 0, []))
  }

  function TotalDocs<T>(cols: seq<seq<T>>): nat {
    if cols == [] then 0 else TotalDocs(cols[..|cols| - 1]) + |cols[|cols| - 1]|
  }

  lemma TotalDocsStep<T>(cols: seq<seq<T>>, c: nat)
    requires c < |cols|
    ensures TotalDocs(cols[..c + 1]) == TotalDocs(cols[..c]) + |cols[c]|
  {
    assert cols[..c + 1][..c] == cols[..c];
  }

  function DocsLength(col: seq<ParsedDoc>, n: nat): nat
    requires n <= |col|
  {
    if n == 0 then 0 else DocsLength(col, n - 1) + |col[n - 1].words|
  }

  /** Sum of the parsed lengths of every document of the corpus. */
  function TotalLength(cols: seq<seq<ParsedDoc>>): nat {
    if cols == [] then 0
    else
      var last := cols[|cols| - 1];
      TotalLength(cols[..|cols| - 1]) + DocsLength(last, |last|)
  }

  // ---------------------------------------------------------------------------
  // The corpus as one stream of (word, posting) pairs

  /** Every (word, posting) pair the first `n` documents of a sub-collection contribute, in order. */
  function DocsAll(col: seq<ParsedDoc>, n: nat): seq<(string, Posting)>
    requires n <= |col|
  {
    if n == 0 then [] else DocsAll(col, n - 1) + DocPostings(col[n - 1].words, col[n - 1].sourceName, n - 1)
  }

  /** Every (word, posting) pair of the corpus, in processing order. */
  function AllPostings(cols: seq<seq<ParsedDoc>>): seq<(string, Posting)> {
    if cols == [] then []
    else
      var last := cols[|cols| - 1];
      AllPostings(cols[..|cols| - 1]) + DocsAll(last, |last|)
  }

  lemma {:induction false} AddPostingsAppend(lex: Lex, a: seq<(string, Posting)>, b: seq<(string, Posting)>)
    ensures AddPostings(lex, a + b) == AddPostings(AddPostings(lex, a), b)
    decreases |b|
  {
    if b == [] {
      assert a + b == a;
    } else {
      assert (a + b)[..|a + b| - 1] == a + b[..|b| - 1];
      AddPostingsAppend(lex, a, b[..|b| - 1]);
    }
  }

  lemma {:induction false} AddDocsAll(lex: Lex, col: seq<ParsedDoc>, n: nat)
    requires n <= |col|
    ensures AddDocs(lex, col, n) == AddPostings(lex, DocsAll(col, n))
  {
    if n > 0 {
      AddDocsAll(lex, col, n - 1);
      AddDocsStep(lex, col, n);
    }
  }

  lemma AddDocsStep(lex: Lex, col: seq<ParsedDoc>, n: nat)
    requires 0 < n <= |col|
    requires AddDocs(lex, col, n - 1) == AddPostings(lex, DocsAll(col, n - 1))
    ensures AddDocs(lex, col, n) == AddPostings(lex, DocsAll(col, n))
  {
    var d := col[n - 1];
    AddPostingsAppend(lex, DocsAll(col, n - 1), DocPostings(d.words, d.sourceName, n - 1));
  }

  /** Building is folding `AddWord` over every (word, posting) pair of the corpus. */
  lemma {:induction false} BuildAll(cols: seq<seq<ParsedDoc>>)
    ensures BuildSpec(cols) == AddPostings(EmptyLex, AllPostings(cols))
  {
    if cols != [] {
      var front := cols[..|cols| - 1];
      var last := cols[|cols| - 1];
      BuildAll(front);
      AddDocsAll(BuildSpec(front), last, |last|);
      AddPostingsAppend(EmptyLex, AllPostings(front), DocsAll(last, |last|));
    }
  }

  // ---------------------------------------------------------------------------
  // Invariant of the dict

  lemma AddWordValid(lex: Lex, w: string, p: Posting)
    requires ValidLex(lex)
    ensures ValidLex(AddWord(lex, w, p))
  {
    var r := AddWord(lex, w, p);
    AddWordKeys(lex, w, p);
    if w in lex.entries {
      var ps := lex.entries[w].postings;
      assert (ps + [p])[..|ps|] == ps;
    } else {
      assert [p][..0] == [];
    }
    assert EntryValid(w, r.entries[w]);
    forall v | v in r.entries
      ensures EntryValid(v, r.entries[v])
    {
      if v != w {
        assert r.entries[v] == lex.entries[v];
      }
    }
  }

  lemma {:induction false} AddPostingsValid(lex: Lex, ps: seq<(string, Posting)>)
    requires ValidLex(lex)
    ensures ValidLex(AddPostings(lex, ps))
  {
    if ps != [] {
      AddPostingsValid(lex, ps[..|ps| - 1]);
      AddWordValid(AddPostings(lex, ps[..|ps| - 1]), ps[|ps| - 1].0, ps[|ps| - 1].1);
    }
  }

  /** The built lexicon satisfies the dict invariant; in particular each entry's
      collection frequency is the sum of its postings' in-document frequencies. */
  lemma BuildValid(cols: seq<seq<ParsedDoc>>)
    ensures ValidLex(BuildSpec(cols))
  {
    BuildAll(cols);
    AddPostingsValid(EmptyLex, AllPostings(cols));
  }


  lemma AddWordKeys(lex: Lex, w: string, p: Posting)
    requires KeysMatch(lex)
    ensures KeysMatch(AddWord(lex, w, p))
  {
    var r := AddWord(lex, w, p);
    if w !in lex.entries {
      forall v | v in r.entries ensures v in r.order {
        if v != w { assert v in lex.order; }
      }
    }
  }

  lemma {:induction false} AddPostingsKeys(lex: Lex, ps: seq<(string, Posting)>)
    requires KeysMatch(lex)
    ensures KeysMatch(AddPostings(lex, ps))
  {
    if ps != [] {
      AddPostingsKeys(lex, ps[..|ps| - 1]);
      AddWordKeys(AddPostings(lex, ps[..|ps| - 1]), ps[|ps| - 1].0, ps[|ps| - 1].1);
    }
  }


  // ---------------------------------------------------------------------------
  // Per-document postings

  /** Each position of `Tagged(ws, ..)` pairs `ws` at that position with its posting. */
  lemma {:induction false} TaggedAt(ws: seq<string>, words: seq<string>, name: string, idx: nat)
    ensures var r := Tagged(ws, words, name, idx);
      forall i :: 0 <= i < |ws| ==> r[i] == (ws[i], Posting(Count(words, ws[i]), DocumentRef(name, idx, |words|)))
  {
    if ws != [] {
      TaggedAt(ws[..|ws| - 1], words, name, idx);
    }
  }

  lemma TaggedFront(ws: seq<string>, words: seq<string>, name: string, idx: nat)
    requires ws != []
    ensures Tagged(ws, words, name, idx)[..|ws| - 1] == Tagged(ws[..|ws| - 1], words, name, idx)
  {
  }

  /** Per document: one posting per distinct parsed word, each word of the
      document has one, and each carries the document's parsed length. */
  lemma DocPostingsShape(words: seq<string>, name: string, idx: nat)
    ensures var ps := DocPostings(words, name, idx);
      && (forall i, j :: 0 <= i < j < |ps| ==> ps[i].0 != ps[j].0)
      && (forall w :: w in words <==> exists i :: 0 <= i < |ps| && ps[i].0 == w)
      && (forall i :: 0 <= i < |ps| ==> ps[i].1.document == DocumentRef(name, idx, |words|))
  {
    var ps := DocPostings(words, name, idx);
    var ws := Distinct(words);
    TaggedAt(ws, words, name, idx);
    forall i, j | 0 <= i < j < |ps| ensures ps[i].0 != ps[j].0 {
      NoDuplicatesAt(ws, i, j);
    }
    forall w | w in words ensures exists i :: 0 <= i < |ps| && ps[i].0 == w {
      var i :| 0 <= i < |ws| && ws[i] == w;
      assert ps[i].0 == w;
    }
  }

  /** The in-document frequencies of a document's postings add up to its parsed length. */
  lemma DocPostingsSum(words: seq<string>, name: string, idx: nat)
    ensures SumFreq(Seconds(DocPostings(words, name, idx))) == |words|
  {
    CountsSumToLength(words);
    SumFreqCounts(Distinct(words), words, name, idx);
  }

  function Seconds(ps: seq<(string, Posting)>): (r: seq<Posting>)
    ensures |r| == |ps| && forall i :: 0 <= i < |ps| ==> r[i] == ps[i].1
  {
    seq(|ps|, i requires 0 <= i < |ps| => ps[i].1)
  }

  lemma {:induction false} SumFreqCounts(ws: seq<string>, words: seq<string>, name: string, idx: nat)
    ensures SumFreq(Seconds(Tagged(ws, words, name, idx))) == Sum(Counts(ws, words))
  {
    if ws != [] {
      var n := |ws| - 1;
      var ps := Tagged(ws, words, name, idx);
      SumFreqCounts(ws[..n], words, name, idx);
      TaggedFront(ws, words, name, idx);
      assert Seconds(ps)[..n] == Seconds(Tagged(ws[..n], words, name, idx));
      CountsSnoc(ws, words);
    }
  }

  lemma CountsSnoc(ws: seq<string>, words: seq<string>)
    requires ws != []
    ensures Sum(Counts(ws, words)) == Sum(Counts(ws[..|ws| - 1], words)) + Count(words, ws[|ws| - 1])
  {
    var n := |ws| - 1;
    assert ws == ws[..n] + [ws[n]];
    CountsAppend(ws[..n], [ws[n]], words);
    SumAppend(Counts(ws[..n], words), Counts([ws[n]], words));
  }

  lemma {:induction false} CountsAppend(a: seq<string>, b: seq<string>, words: seq<string>)
    ensures Counts(a + b, words) == Counts(a, words) + Counts(b, words)
  {
  }

  // ---------------------------------------------------------------------------
  // Which postings each word gets

  function PostingsOf(lex: Lex, w: string): seq<Posting> {
    if w in lex.entries then lex.entries[w].postings else []
  }

  /** The postings in `ps` filed under word `w`, in order. */
  function Select(ps: seq<(string, Posting)>, w: string): seq<Posting> {
    if ps == [] then []
    else Select(ps[..|ps| - 1], w) + (if ps[|ps| - 1].0 == w then [ps[|ps| - 1].1] else [])
  }

  lemma {:induction false} AddPostingsPostings(lex: Lex, ps: seq<(string, Posting)>, w: string)
    ensures PostingsOf(AddPostings(lex, ps), w) == PostingsOf(lex, w) + Select(ps, w)
  {
    if ps != [] {
      AddPostingsPostings(lex, ps[..|ps| - 1], w);
    }
  }

  /** The posting a document holds for `w`, if its parsed words contain `w`. */
  function PostingFor(words: seq<string>, name: string, idx: nat, w: string): seq<Posting> {
    if w in words then [Posting(Count(words, w), DocumentRef(name, idx, |words|))] else []
  }

  lemma DocPostingsSelect(words: seq<string>, name: string, idx: nat, w: string)
    ensures Select(DocPostings(words, name, idx), w) == PostingFor(words, name, idx, w)
  {
    var ws := Distinct(words);
    var ps := DocPostings(words, name, idx);
    TaggedAt(ws, words, name, idx);
    if w in words {
      var i :| 0 <= i < |ws| && ws[i] == w;
      forall j | 0 <= j < |ps| && j != i ensures ps[j].0 != w {
        if j < i { NoDuplicatesAt(ws, j, i); } else { NoDuplicatesAt(ws, i, j); }
      }
      SelectOne(ps, w, i);
    } else {
      SelectNone(ps, w);
    }
  }

  /** No pair is filed under `w`: nothing is selected. */
  lemma {:induction false} SelectNone(ps: seq<(string, Posting)>, w: string)
    requires forall j :: 0 <= j < |ps| ==> ps[j].0 != w
    ensures Select(ps, w) == []
  {
    if ps != [] {
      SelectNone(ps[..|ps| - 1], w);
    }
  }

  /** Exactly the pair at `i` is filed under `w`: only its posting is selected. */
  lemma {:induction false} SelectOne(ps: seq<(string, Posting)>, w: string, i: nat)
    requires i < |ps| && ps[i].0 == w
    requires forall j :: 0 <= j < |ps| && j != i ==> ps[j].0 != w
    ensures Select(ps, w) == [ps[i].1]
  {
    var n := |ps| - 1;
    if i == n {
      SelectNone(ps[..n], w);
    } else {
      SelectOne(ps[..n], w, i);
    }
  }

  /** The postings of word `w` from the first `n` documents of a sub-collection, in document order. */
  function DocsPostings(col: seq<ParsedDoc>, n: nat, w: string): seq<Posting>
    requires n <= |col|
  {
    if n == 0 then []
    else DocsPostings(col, n - 1, w) + PostingFor(col[n - 1].words, col[n - 1].sourceName, n - 1, w)
  }

  /** Reference definition of a word's postings: one per document whose parsed
      words contain it, sub-collections in order and documents by position
      within each, with the word's count and the document's parsed length. */
  function ExpectedPostings(cols: seq<seq<ParsedDoc>>, w: string): seq<Posting> {
    if cols == [] then []
    else
      var last := cols[|cols| - 1];
      ExpectedPostings(cols[..|cols| - 1], w) + DocsPostings(last, |last|, w)
  }

  lemma {:induction false} SelectAppend(a: seq<(string, Posting)>, b: seq<(string, Posting)>, w: string)
    ensures Select(a + b, w) == Select(a, w) + Select(b, w)
    decreases |b|
  {
    if b == [] {
      assert a + b == a;
    } else {
      assert (a + b)[..|a + b| - 1] == a + b[..|b| - 1];
      SelectAppend(a, b[..|b| - 1], w);
    }
  }


  /** Each document's pairs, as one sequence per document. */
  function DocPairs(col: seq<ParsedDoc>): (r: seq<seq<(string, Posting)>>)
    ensures |r| == |col|
  {
    seq(|col|, i requires 0 <= i < |col| => DocPostings(col[i].words, col[i].sourceName, i))
  }

  /** Each document's posting for `w`, as one (empty or singleton) sequence per document. */
  function PostFors(col: seq<ParsedDoc>, w: string): (r: seq<seq<Posting>>)
    ensures |r| == |col|
  {
    seq(|col|, i requires 0 <= i < |col| => PostingFor(col[i].words, col[i].sourceName, i, w))
  }

  function SelectEach(xss: seq<seq<(string, Posting)>>, w: string): (r: seq<seq<Posting>>)
    ensures |r| == |xss| && forall i :: 0 <= i < |xss| ==> r[i] == Select(xss[i], w)
  {
    seq(|xss|, i requires 0 <= i < |xss| => Select(xss[i], w))
  }

  /** Selecting from a concatenation selects from each part. */
  lemma {:induction false} SelectConcatAll(xss: seq<seq<(string, Posting)>>, w: string)
    ensures Select(Concat(xss), w) == Concat(SelectEach(xss, w))
  {
    if xss != [] {
      var n := |xss| - 1;
      SelectConcatAll(xss[..n], w);
      SelectAppend(Concat(xss[..n]), xss[n], w);
      assert SelectEach(xss, w)[..n] == SelectEach(xss[..n], w);
    }
  }

  lemma ConcatTake<T>(xss: seq<seq<T>>, n: nat)
    requires 0 < n <= |xss|
    ensures Concat(xss[..n]) == Concat(xss[..n - 1]) + xss[n - 1]
  {
    assert xss[..n][..n - 1] == xss[..n - 1];
  }

  lemma {:induction false} DocsAllConcat(col: seq<ParsedDoc>, n: nat)
    requires n <= |col|
    ensures DocsAll(col, n) == Concat(DocPairs(col)[..n])
  {
    if n > 0 {
      DocsAllConcat(col, n - 1);
      ConcatTake(DocPairs(col), n);
    }
  }

  lemma {:induction false} DocsPostingsConcat(col: seq<ParsedDoc>, n: nat, w: string)
    requires n <= |col|
    ensures DocsPostings(col, n, w) == Concat(PostFors(col, w)[..n])
  {
    if n > 0 {
      DocsPostingsConcat(col, n - 1, w);
      ConcatTake(PostFors(col, w), n);
    }
  }

  lemma SelectEachDocPairs(col: seq<ParsedDoc>, w: string)
    ensures SelectEach(DocPairs(col), w) == PostFors(col, w)
  {
    forall i | 0 <= i < |col| ensures SelectEach(DocPairs(col), w)[i] == PostFors(col, w)[i] {
      DocPostingsSelect(col[i].words, col[i].sourceName, i, w);
    }
  }

  lemma DocsAllSelect(col: seq<ParsedDoc>, n: nat, w: string)
    requires n <= |col|
    ensures Select(DocsAll(col, n), w) == DocsPostings(col, n, w)
  {
    var pairs := DocPairs(col)[..n];
    DocsAllConcat(col, n);
    SelectConcatAll(pairs, w);
    SelectEachDocPairs(col, w);
    assert SelectEach(pairs, w) == PostFors(col, w)[..n];
    DocsPostingsConcat(col, n, w);
  }

  lemma {:induction false} AllSelect(cols: seq<seq<ParsedDoc>>, w: string)
    ensures Select(AllPostings(cols), w) == ExpectedPostings(cols, w)
  {
    if cols != [] {
      var front := cols[..|cols| - 1];
      var last := cols[|cols| - 1];
      AllSelect(front, w);
      SelectAppend(AllPostings(front), DocsAll(last, |last|), w);
      DocsAllSelect(last, |last|, w);
    }
  }

  /** The built lexicon gives every word exactly its reference postings. */
  lemma BuildPostings(cols: seq<seq<ParsedDoc>>, w: string)
    ensures PostingsOf(BuildSpec(cols), w) == ExpectedPostings(cols, w)
  {
    BuildAll(cols);
    AddPostingsPostings(EmptyLex, AllPostings(cols), w);
    AllSelect(cols, w);
  }

  /** Keys `(source name, idx)` are not unique per word: `idx` restarts at 0 for
      each sub-collection, so a document indexed in two sub-collections under the
      same source name yields two postings with the same key. */
  lemma SharedSourceNameDuplicatesKey(d: ParsedDoc, w: string)
    requires w in d.words
    ensures var ps := PostingsOf(BuildSpec([[d], [d]]), w);
      |ps| == 2 && KeyOf(ps[0]) == KeyOf(ps[1]) == (d.sourceName, 0)
  {
    var words := d.words;
    var p := Posting(Count(words, w), DocumentRef(d.sourceName, 0, |words|));
    assert DocsPostings([d], 1, w) == [p];
    assert ExpectedPostings([[d]], w) == [p] by {
      assert [[d]][..0] == [];
    }
    assert ExpectedPostings([[d], [d]], w) == [p, p] by {
      assert [[d], [d]][..1] == [[d]];
    }
    BuildPostings([[d], [d]], w);
  }

  // ---------------------------------------------------------------------------
  // Insertion order of the lexicon

  /** A document's postings are filed under its distinct words, in first-occurrence order. */
  lemma FirstsDocPostings(words: seq<string>, name: string, idx: nat)
    ensures Firsts(DocPostings(words, name, idx)) == Distinct(words)
  {
    TaggedAt(Distinct(words), words, name, idx);
  }

  lemma {:induction false} AddPostingsOrder(lex: Lex, ps: seq<(string, Posting)>)
    requires KeysMatch(lex)
    ensures AddPostings(lex, ps).order == NoteAll(lex.order, Firsts(ps))
  {
    if ps != [] {
      var n := |ps| - 1;
      AddPostingsOrder(lex, ps[..n]);
      AddPostingsKeys(lex, ps[..n]);
      assert Firsts(ps)[..n] == Firsts(ps[..n]);
    }
  }

  /** The words of the corpus in the order the builder visits them: each
      document's distinct words in counter order, documents in processing order. */
  function VisitOrder(cols: seq<seq<ParsedDoc>>): seq<string> {
    if cols == [] then []
    else
      var last := cols[|cols| - 1];
      VisitOrder(cols[..|cols| - 1]) + DocsVisitOrder(last, |last|)
  }

  function DocsVisitOrder(col: seq<ParsedDoc>, n: nat): seq<string>
    requires n <= |col|
  {
    if n == 0 then [] else DocsVisitOrder(col, n - 1) + Distinct(col[n - 1].words)
  }

  lemma {:induction false} FirstsAppend(a: seq<(string, Posting)>, b: seq<(string, Posting)>)
    ensures Firsts(a + b) == Firsts(a) + Firsts(b)
  {
  }

  /** Adding one document extends the visit order by its distinct words. */
  lemma DocsFirstsStep(col: seq<ParsedDoc>, n: nat)
    requires 0 < n <= |col|
    requires Firsts(DocsAll(col, n - 1)) == DocsVisitOrder(col, n - 1)
    ensures Firsts(DocsAll(col, n)) == DocsVisitOrder(col, n)
  {
    var d := col[n - 1];
    FirstsAppend(DocsAll(col, n - 1), DocPostings(d.words, d.sourceName, n - 1));
    FirstsDocPostings(d.words, d.sourceName, n - 1);
  }

  lemma {:induction false} DocsAllFirsts(col: seq<ParsedDoc>, n: nat)
    requires n <= |col|
    ensures Firsts(DocsAll(col, n)) == DocsVisitOrder(col, n)
  {
    if n > 0 {
      DocsAllFirsts(col, n - 1);
      DocsFirstsStep(col, n);
    } else {
      assert Firsts(DocsAll(col, n)) == [];
    }
  }

  lemma {:induction false} AllFirsts(cols: seq<seq<ParsedDoc>>)
    ensures Firsts(AllPostings(cols)) == VisitOrder(cols)
  {
    if cols != [] {
      var front := cols[..|cols| - 1];
      var last := cols[|cols| - 1];
      AllFirsts(front);
      FirstsAppend(AllPostings(front), DocsAll(last, |last|));
      DocsAllFirsts(last, |last|);
    }
  }

  /** Lexicon order is the order in which words are first met while building. */
  lemma BuildOrder(cols: seq<seq<ParsedDoc>>)
    ensures BuildSpec(cols).order == Distinct(VisitOrder(cols))
  {
    BuildAll(cols);
    AddPostingsOrder(EmptyLex, AllPostings(cols));
    AllFirsts(cols);
    NoteAllDistinct([], VisitOrder(cols));
  }


  // ---------------------------------------------------------------------------
  // insert_lexicon: document map and posting rows

  /** One row of the postings table, before ids are resolved. */
  datatype PostingRow = PostingRow(word: string, collectionName: string, index: nat, frequency: nat)

  function RowsOf(e: LexiconEntry): (r: seq<PostingRow>)
    ensures |r| == |e.postings|
  {
    seq(|e.postings|, i requires 0 <= i < |e.postings| =>
      PostingRow(e.word, e.postings[i].document.collectionName, e.postings[i].document.index,
                 e.postings[i].wordFrequencyWithinDocument))
  }

  /** Reference definition of `postings_data`: entries in lexicon order, each
      entry's postings in order. */
  function FlatRows(lexicon: seq<LexiconEntry>): seq<PostingRow> {
    if lexicon == [] then [] else FlatRows(lexicon[..|lexicon| - 1]) + RowsOf(lexicon[|lexicon| - 1])
  }

  /** The documents an entry's postings refer to, in posting order. */
  function RefsOf(e: LexiconEntry): (r: seq<DocumentRef>)
    ensures |r| == |e.postings|
  {
    seq(|e.postings|, i requires 0 <= i < |e.postings| => e.postings[i].document)
  }

  /** Every posting's document, entries in lexicon order, postings in order. */
  function FlatRefs(lexicon: seq<LexiconEntry>): seq<DocumentRef> {
    if lexicon == [] then [] else FlatRefs(lexicon[..|lexicon| - 1]) + RefsOf(lexicon[|lexicon| - 1])
  }

  function RefKey(r: DocumentRef): Key {
    (r.collectionName, r.index)
  }

  /** The `documents_map` dict: its keys in insertion order and their lengths. */
  datatype DocMap = DocMap(keys: seq<Key>, lengths: map<Key, nat>)

  /** The document map after visiting `refs`: a key is added once, with the
      `words_length` of its first reference. */
  function FirstLengths(refs: seq<DocumentRef>): DocMap {
    if refs == [] then DocMap([], map[])
    else
      var prev := FirstLengths(refs[..|refs| - 1]);
      var r := refs[|refs| - 1];
      if RefKey(r) in prev.lengths then prev
      else DocMap(prev.keys + [RefKey(r)], prev.lengths[RefKey(r) := r.wordsLength])
  }

  /** The document map lists each of its keys once, in insertion order. */
  lemma {:induction false} FirstLengthsKeys(refs: seq<DocumentRef>)
    ensures var dm := FirstLengths(refs);
      NoDuplicates(dm.keys) && forall k :: k in dm.lengths <==> k in dm.keys
  {
    if refs != [] {
      FirstLengthsKeys(refs[..|refs| - 1]);
    }
  }

  /** The document map holds exactly the keys some posting refers to. */
  lemma {:induction false} FirstLengthsDomain(refs: seq<DocumentRef>)
    ensures forall k :: k in FirstLengths(refs).lengths <==> exists i :: 0 <= i < |refs| && RefKey(refs[i]) == k
  {
    if refs != [] {
      var n := |refs| - 1;
      FirstLengthsDomain(refs[..n]);
      var m := FirstLengths(refs).lengths;
      forall k | k in m ensures exists i :: 0 <= i < |refs| && RefKey(refs[i]) == k {
        if k in FirstLengths(refs[..n]).lengths {
          var i :| 0 <= i < n && RefKey(refs[..n][i]) == k;
          assert refs[i] == refs[..n][i];
        } else {
          assert RefKey(refs[n]) == k;
        }
      }
      forall i | 0 <= i < |refs| ensures RefKey(refs[i]) in m {
        if i < n {
          assert refs[..n][i] == refs[i];
          assert RefKey(refs[i]) in FirstLengths(refs[..n]).lengths;
        }
      }
    }
  }

  /** A document keeps the `words_length` of the first posting that refers to it. */
  lemma {:induction false} FirstLengthsFirst(refs: seq<DocumentRef>, i: nat)
    requires i < |refs|
    requires forall j :: 0 <= j < i ==> RefKey(refs[j]) != RefKey(refs[i])
    ensures RefKey(refs[i]) in FirstLengths(refs).lengths
    ensures FirstLengths(refs).lengths[RefKey(refs[i])] == refs[i].wordsLength
  {
    var n := |refs| - 1;
    var front := refs[..n];
    FirstLengthsDomain(front);
    if i == n {
      forall j | 0 <= j < n ensures RefKey(front[j]) != RefKey(refs[n]) {
        assert front[j] == refs[j];
      }
    } else {
      assert front[i] == refs[i];
      assert forall j :: 0 <= j < i ==> front[j] == refs[j];
      FirstLengthsFirst(front, i);
    }
  }

  /** `insert_lexicon`'s computation: the document map (keys in insertion order
      with their lengths), the lexicon rows and the posting rows. */
  method InsertLexicon(lexicon: seq<LexiconEntry>)
    returns (documentsMap: DocMap, lexiconRows: seq<(string, nat)>, postingsData: seq<PostingRow>)
    ensures documentsMap == FirstLengths(FlatRefs(lexicon))
    ensures lexiconRows == LexiconRows(lexicon)
    ensures |lexiconRows| == |lexicon|
    ensures forall i :: 0 <= i < |lexicon| ==> lexiconRows[i] == (lexicon[i].word, lexicon[i].collectionFrequency)
    ensures postingsData == FlatRows(lexicon)
  {
    documentsMap := CollectDocuments(lexicon);
    lexiconRows := LexiconRows(lexicon);
    postingsData := CollectPostings(lexicon);
  }

  /** The first loop of `insert_lexicon`: every posting's document, keyed by
      (collection name, index), keeping the first length seen. */
  method CollectDocuments(lexicon: seq<LexiconEntry>) returns (documentsMap: DocMap)
    ensures documentsMap == FirstLengths(FlatRefs(lexicon))
  {
    documentsMap := DocMap([], map[]);
    for e := 0 to |lexicon|
      invariant documentsMap == FirstLengths(FlatRefs(lexicon[..e]))
    {
      var entry := lexicon[e];
      assert lexicon[..e + 1][..e] == lexicon[..e];
      documentsMap := NoteDocuments(documentsMap, entry, FlatRefs(lexicon[..e]));
      assert RefsOf(entry)[..|entry.postings|] == RefsOf(entry);
    }
    assert lexicon[..|lexicon|] == lexicon;
  }

  lemma RefsOfSnoc(before: seq<DocumentRef>, e: LexiconEntry, p: nat)
    requires p < |e.postings|
    ensures before + RefsOf(e)[..p + 1] == before + RefsOf(e)[..p] + [e.postings[p].document]
  {
    assert RefsOf(e)[..p + 1] == RefsOf(e)[..p] + [e.postings[p].document];
  }

  /** One pass of the innermost loop of the documents map: a key seen for the
      first time is added with its document's length. */
  method NoteDocument(dm: DocMap, doc: DocumentRef, ghost before: seq<DocumentRef>) returns (documentsMap: DocMap)
    requires dm == FirstLengths(before)
    ensures documentsMap == FirstLengths(before + [doc])
  {
    documentsMap := dm;
    var key := (doc.collectionName, doc.index);
    assert (before + [doc])[..|before|] == before;
    if key !in documentsMap.lengths {
      documentsMap := DocMap(documentsMap.keys + [key], documentsMap.lengths[key := doc.wordsLength]);
    }
  }

  /** The inner loop of `CollectDocuments` over one entry's postings. */
  method NoteDocuments(dm: DocMap, entry: LexiconEntry, ghost before: seq<DocumentRef>) returns (documentsMap: DocMap)
    requires dm == FirstLengths(before)
    ensures documentsMap == FirstLengths(before + RefsOf(entry))
  {
    documentsMap := dm;
    assert before + RefsOf(entry)[..0] == before;
    for p := 0 to |entry.postings|
      invariant documentsMap == FirstLengths(before + RefsOf(entry)[..p])
    {
      var doc := entry.postings[p].document;
      RefsOfSnoc(before, entry, p);
      documentsMap := NoteDocument(documentsMap, doc, before + RefsOf(entry)[..p]);
    }
    assert RefsOf(entry)[..|entry.postings|] == RefsOf(entry);
  }

  /** The last loop of `insert_lexicon`: one row per posting, entries in
      lexicon order. */
  method CollectPostings(lexicon: seq<LexiconEntry>) returns (postingsData: seq<PostingRow>)
    ensures postingsData == FlatRows(lexicon)
  {
    postingsData := [];
    for e := 0 to |lexicon|
      invariant postingsData == FlatRows(lexicon[..e])
    {
      var entry := lexicon[e];
      assert lexicon[..e + 1][..e] == lexicon[..e];
      ghost var before := postingsData;
      for p := 0 to |entry.postings|
        invariant postingsData == before + RowsOf(entry)[..p]
      {
        var doc := entry.postings[p].document;
        postingsData := postingsData + [PostingRow(entry.word, doc.collectionName, doc.index,
                                                   entry.postings[p].wordFrequencyWithinDocument)];
        assert RowsOf(entry)[..p + 1] == RowsOf(entry)[..p] + [RowsOf(entry)[p]];
      }
      assert RowsOf(entry)[..|entry.postings|] == RowsOf(entry);
    }
    assert lexicon[..|lexicon|] == lexicon;
  }

  /** Posting rows and document references line up: one row per posting, and
      each row names the document of its posting. */
  lemma {:induction false} FlatRowsRefs(lexicon: seq<LexiconEntry>)
    ensures |FlatRows(lexicon)| == |FlatRefs(lexicon)|
    ensures forall i :: 0 <= i < |FlatRows(lexicon)| ==>
      (FlatRows(lexicon)[i].collectionName, FlatRows(lexicon)[i].index) == RefKey(FlatRefs(lexicon)[i])
  {
    if lexicon != [] {
      var n := |lexicon| - 1;
      FlatRowsRefs(lexicon[..n]);
      var a, b := FlatRows(lexicon[..n]), FlatRefs(lexicon[..n]);
      forall i | 0 <= i < |FlatRows(lexicon)|
        ensures (FlatRows(lexicon)[i].collectionName, FlatRows(lexicon)[i].index) == RefKey(FlatRefs(lexicon)[i])
      {
        if i >= |a| {
          assert FlatRows(lexicon)[i] == RowsOf(lexicon[n])[i - |a|];
          assert FlatRefs(lexicon)[i] == RefsOf(lexicon[n])[i - |b|];
        } else {
          assert FlatRows(lexicon)[i] == a[i];
          assert FlatRefs(lexicon)[i] == b[i];
        }
      }
    }
  }

  // ---------------------------------------------------------------------------
  // The stored index and the two lookups

  /** The `collection_info` record as read back from JSON; a missing or null
      field reads as None. */
  datatype StoredInfo = StoredInfo(count: Option<int>, average: Option<real>, hash: Option<string>)

  /** The `collection_info` table: absent (the query raises), empty, or one row. */
  datatype InfoTable = NoTable | Table(row: Option<StoredInfo>)

  /** The database: the info table and the three index tables. */
  datatype Store = Store(info: InfoTable, documents: DocMap,
                         lexiconRows: seq<(string, nat)>, postingRows: seq<PostingRow>)

  const EmptyStore := Store(NoTable, DocMap([], map[]), [], [])

  /** `get_documents_for_word`: the join of the word's posting rows with the
      documents table, in row order. */
  function DocumentsForWord(store: Store, w: string): seq<DocumentInfo> {
    RowsForWord(store.postingRows, store.documents.lengths, w)
  }

  function RowsForWord(rows: seq<PostingRow>, documents: map<Key, nat>, w: string): (r: seq<DocumentInfo>)
    ensures |r| <= |rows|
  {
    if rows == [] then []
    else
      var prev := RowsForWord(rows[..|rows| - 1], documents, w);
      var row := rows[|rows| - 1];
      var k := (row.collectionName, row.index);
      if row.word == w && k in documents then
        prev + [DocumentInfo(row.collectionName, row.index, row.frequency, documents[k])]
      else prev
  }

  /** `get_number_documents_containing_word`: the number of posting rows of the word. */
  function DocumentFrequency(store: Store, w: string): nat {
    CountRows(store.postingRows, w)
  }

  function CountRows(rows: seq<PostingRow>, w: string): nat {
    if rows == [] then 0 else CountRows(rows[..|rows| - 1], w) + (if rows[|rows| - 1].word == w then 1 else 0)
  }

  /** The store written by a rebuild from lexicon `lexicon`. */
  function StoreOf(info: StoredInfo, lexicon: seq<LexiconEntry>): Store {
    Store(Table(Some(info)), FirstLengths(FlatRefs(lexicon)), LexiconRows(lexicon), FlatRows(lexicon))
  }

  /** The `lexicon` table: one (word, collection frequency) row per entry. */
  function LexiconRows(lexicon: seq<LexiconEntry>): seq<(string, nat)> {
    seq(|lexicon|, i requires 0 <= i < |lexicon| => (lexicon[i].word, lexicon[i].collectionFrequency))
  }

  // ---------------------------------------------------------------------------
  // The UNIQUE(lexicon_id, document_id) constraint of the postings table

  /** Two posting rows resolve to the same (word id, document id) pair: the
      same word and the same document key. */
  predicate SameSlot(a: PostingRow, b: PostingRow) {
    a.word == b.word && a.collectionName == b.collectionName && a.index == b.index
  }

  /** Some row of `rows` already takes the slot of `row`. */
  predicate Clashes(rows: seq<PostingRow>, row: PostingRow) {
    exists k :: 0 <= k < |rows| && SameSlot(rows[k], row)
  }

  /** Some row takes the slot of an earlier one, so the postings insert
      raises a ConstraintException. */
  predicate HasClash(rows: seq<PostingRow>) {
    exists j :: 0 <= j < |rows| && Clashes(rows[..j], rows[j])
  }

  /** The posting rows the insert writes: the rows before the first one that
      breaks the constraint, or all of them when none does. */
  function Inserted(rows: seq<PostingRow>): seq<PostingRow> {
    if rows == [] then []
    else
      var n := |rows| - 1;
      var prev := Inserted(rows[..n]);
      if prev == rows[..n] && !Clashes(rows[..n], rows[n]) then rows else prev
  }

  /** The written rows are the longest clash-free prefix: they are a prefix,
      they break nothing, they are all the rows exactly when no row clashes,
      and otherwise the next row clashes with them. */
  lemma {:induction false} InsertedSpec(rows: seq<PostingRow>)
    ensures Inserted(rows) <= rows
    ensures !HasClash(Inserted(rows))
    ensures Inserted(rows) == rows <==> !HasClash(rows)
    ensures |Inserted(rows)| < |rows| ==> Clashes(Inserted(rows), rows[|Inserted(rows)|])
  {
    if rows != [] {
      var n := |rows| - 1;
      var front := rows[..n];
      var prev := Inserted(front);
      InsertedSpec(front);
      if prev == front && !Clashes(front, rows[n]) {
        forall j | 0 <= j < |rows| ensures !Clashes(rows[..j], rows[j]) {
          if j < n {
            assert rows[..j] == front[..j] && rows[j] == front[j];
          }
        }
      } else if prev != front {
        var j :| 0 <= j < |front| && Clashes(front[..j], front[j]);
        assert rows[..j] == front[..j] && rows[j] == front[j];
        assert rows[|prev|] == front[|prev|];
      } else {
        assert rows[..n] == front;
      }
    }
  }

  /** A clash among the first rows is a clash among all of them. */
  lemma HasClashExtends(a: seq<PostingRow>, b: seq<PostingRow>)
    requires HasClash(a)
    ensures HasClash(a + b)
  {
    var j :| 0 <= j < |a| && Clashes(a[..j], a[j]);
    assert (a + b)[..j] == a[..j] && (a + b)[j] == a[j];
  }

  /** Two postings of one entry with the same document key make the postings
      insert of the lexicon break the constraint. */
  lemma {:induction false} EntryKeyTwiceClashes(lexicon: seq<LexiconEntry>, e: nat, i: nat, j: nat)
    requires e < |lexicon| && i < j < |lexicon[e].postings|
    requires KeyOf(lexicon[e].postings[i]) == KeyOf(lexicon[e].postings[j])
    ensures HasClash(FlatRows(lexicon))
  {
    var n := |lexicon| - 1;
    var a, r := FlatRows(lexicon[..n]), RowsOf(lexicon[n]);
    assert FlatRows(lexicon) == a + r;
    if e < n {
      EntryKeyTwiceClashes(lexicon[..n], e, i, j);
      HasClashExtends(a, r);
    } else {
      var rows := a + r;
      assert rows[|a| + j] == r[j] && rows[..|a| + j][|a| + i] == r[i];
      assert SameSlot(rows[..|a| + j][|a| + i], rows[|a| + j]);
      assert Clashes(rows[..|a| + j], rows[|a| + j]);
    }
  }

  /** Indexing a document twice under one source name (as a collection file
      and a second file of the same source do) makes the postings insert
      break the constraint. */
  lemma SharedSourceNameClashes(d: ParsedDoc, w: string)
    requires w in d.words
    ensures HasClash(FlatRows(Entries(BuildSpec([[d], [d]]))))
  {
    var lex := BuildSpec([[d], [d]]);
    SharedSourceNameDuplicatesKey(d, w);
    BuildValid([[d], [d]]);
    assert w in lex.entries;
    var k :| 0 <= k < |lex.order| && lex.order[k] == w;
    assert Entries(lex)[k].postings == PostingsOf(lex, w);
    EntryKeyTwiceClashes(Entries(lex), k, 0, 1);
  }

  /** The store a rebuild leaves once it reaches the tables: the statistics,
      the documents and lexicon tables, and the posting rows written before
      any row that breaks the constraint. */
  function WrittenStore(info: StoredInfo, lexicon: seq<LexiconEntry>): Store {
    StoreOf(info, lexicon).(postingRows := Inserted(FlatRows(lexicon)))
  }

  /** The statistics are saved before the tables are filled, so a store left
      by a clash still holds them: a start-up on the same corpus reuses the
      partial index when they are truthy. */
  lemma PartialIndexReused(info: StoredInfo, lexicon: seq<LexiconEntry>, corpusSize: nat, freshHash: string)
    requires corpusSize > 0 && Truthy(info) && info.hash == Some(freshHash)
    ensures StartupDecision(corpusSize, WrittenStore(info, lexicon).info, freshHash) == Reuse
  {
  }

  /** The postings rows of `w` in a flattened lexicon are those of its entries with that word. */
  lemma {:induction false} CountRowsFlat(lexicon: seq<LexiconEntry>, w: string)
    ensures CountRows(FlatRows(lexicon), w) == EntryPostingCount(lexicon, w)
  {
    if lexicon != [] {
      var n := |lexicon| - 1;
      CountRowsFlat(lexicon[..n], w);
      CountRowsAppend(FlatRows(lexicon[..n]), RowsOf(lexicon[n]), w);
      CountRowsOfEntry(lexicon[n], w, |lexicon[n].postings|);
      assert RowsOf(lexicon[n])[..|lexicon[n].postings|] == RowsOf(lexicon[n]);
    }
  }

  function EntryPostingCount(lexicon: seq<LexiconEntry>, w: string): nat {
    if lexicon == [] then 0
    else EntryPostingCount(lexicon[..|lexicon| - 1], w)
         + (if lexicon[|lexicon| - 1].word == w then |lexicon[|lexicon| - 1].postings| else 0)
  }

  lemma {:induction false} CountRowsAppend(a: seq<PostingRow>, b: seq<PostingRow>, w: string)
    ensures CountRows(a + b, w) == CountRows(a, w) + CountRows(b, w)
    decreases |b|
  {
    if b == [] {
      assert a + b == a;
    } else {
      assert (a + b)[..|a + b| - 1] == a + b[..|b| - 1];
      CountRowsAppend(a, b[..|b| - 1], w);
    }
  }

  lemma {:induction false} CountRowsOfEntry(e: LexiconEntry, w: string, n: nat)
    requires n <= |e.postings|
    ensures CountRows(RowsOf(e)[..n], w) == if e.word == w then n else 0
  {
    if n > 0 {
      assert RowsOf(e)[..n][..n - 1] == RowsOf(e)[..n - 1];
      CountRowsOfEntry(e, w, n - 1);
    }
  }

  /** When the lexicon's words are distinct, the entries of `w` are at most one. */
  lemma {:induction false} EntryPostingCountDistinct(lexicon: seq<LexiconEntry>, w: string)
    requires forall i, j :: 0 <= i < j < |lexicon| ==> lexicon[i].word != lexicon[j].word
    ensures EntryPostingCount(lexicon, w) ==
      if exists i :: 0 <= i < |lexicon| && lexicon[i].word == w
      then |(var i :| 0 <= i < |lexicon| && lexicon[i].word == w; lexicon[i]).postings|
      else 0
  {
    if lexicon != [] {
      var n := |lexicon| - 1;
      EntryPostingCountDistinct(lexicon[..n], w);
      if lexicon[n].word == w {
        assert forall i :: 0 <= i < n ==> lexicon[..n][i].word != w;
      } else {
        assert forall i :: 0 <= i < n ==> lexicon[..n][i] == lexicon[i];
      }
    }
  }

  /** Document frequency over a freshly built store: the number of postings the
      builder gave the word, 0 for a word that is not in the lexicon; and
      `get_documents_for_word` returns one record per posting row. */
  lemma BuiltDocumentFrequency(info: StoredInfo, cols: seq<seq<ParsedDoc>>, w: string)
    ensures DocumentFrequency(StoreOf(info, Entries(BuildSpec(cols))), w) == |ExpectedPostings(cols, w)|
  {
    var lex := BuildSpec(cols);
    BuildValid(cols);
    BuildPostings(cols, w);
    CountRowsFlat(Entries(lex), w);
    EntriesPostingCount(lex, w);
  }

  /** In a valid dict, the entries of `w` hold exactly its postings. */
  lemma EntriesPostingCount(lex: Lex, w: string)
    requires ValidLex(lex)
    ensures EntryPostingCount(Entries(lex), w) == |PostingsOf(lex, w)|
  {
    var lexicon := Entries(lex);
    forall i, j | 0 <= i < j < |lexicon| ensures lexicon[i].word != lexicon[j].word {
      assert lexicon[i].word == lex.order[i];
      NoDuplicatesAt(lex.order, i, j);
    }
    EntryPostingCountDistinct(lexicon, w);
    if w in lex.entries {
      var k :| 0 <= k < |lex.order| && lex.order[k] == w;
      assert lexicon[k].word == w;
    } else {
      forall i | 0 <= i < |lexicon| ensures lexicon[i].word != w {
        assert lex.order[i] in lex.entries;
      }
    }
  }

  /** With every posting row's document in the documents table, the lookup
      returns one record per posting row of the word: its length is the
      document frequency. */
  lemma {:induction false} DocumentsForWordCount(rows: seq<PostingRow>, documents: map<Key, nat>, w: string)
    requires forall i :: 0 <= i < |rows| ==> (rows[i].collectionName, rows[i].index) in documents
    ensures |RowsForWord(rows, documents, w)| == CountRows(rows, w)
  {
    if rows != [] {
      DocumentsForWordCount(rows[..|rows| - 1], documents, w);
    }
  }

  // ---------------------------------------------------------------------------
  // Start-up

  /** Python truthiness of the loaded statistics. */
  predicate Truthy(info: StoredInfo) {
    && info.count.Some? && info.count.value != 0
    && info.average.Some? && info.average.value != 0.0
    && info.hash.Some? && info.hash.value != ""
  }

  /** `load_collection_related_information`'s verdict. */
  predicate StatsLoaded(table: InfoTable) {
    table.Table? && table.row.Some? && Truthy(table.row.value)
  }

  datatype Decision = StopEmpty | Reuse | Rebuild

  /** What `__init__` does with a corpus, given the stored info table and the
      freshly computed corpus hash. */
  function StartupDecision(corpusSize: nat, table: InfoTable, freshHash: string): (d: Decision)
    ensures d == StopEmpty <==> corpusSize == 0
    ensures d == Reuse <==>
              (corpusSize > 0 && table.Table? && table.row.Some?
               && Truthy(table.row.value) && table.row.value.hash == Some(freshHash))
  {
    if corpusSize == 0 then StopEmpty
    else if StatsLoaded(table) && freshHash == table.row.value.hash.value then Reuse
    else Rebuild
  }

  datatype Outcome =
    | EmptyCollection  // nothing indexed
    | Reused           // stored index kept
    | Rebuilt          // store cleared and written afresh
    | Crashed          // an exception escaped the constructor (TypeError, ZeroDivisionError or ConstraintException)

  /** One pass of the per-word loop: add the posting to the word's entry,
      creating the entry and noting the word when it is new. */
  method FileWord(wordsLexicon0: map<string, LexiconEntry>, firstSeen0: seq<string>, word: string, posting: Posting)
    returns (wordsLexicon: map<string, LexiconEntry>, firstSeen: seq<string>)
    ensures Lex(firstSeen, wordsLexicon) == AddWord(Lex(firstSeen0, wordsLexicon0), word, posting)
  {
    wordsLexicon, firstSeen := wordsLexicon0, firstSeen0;
    var freq := posting.wordFrequencyWithinDocument;
    if word in wordsLexicon {
      var e := wordsLexicon[word];
      wordsLexicon := wordsLexicon[word := e.(collectionFrequency := e.collectionFrequency + freq,
                                              postings := e.postings + [posting])];
    } else {
      wordsLexicon := wordsLexicon[word := LexiconEntry(word, freq, [posting])];
      firstSeen := firstSeen + [word];
    }
  }

  /** The body of the per-document loop of `build_inverted_index`: file each
      distinct word of the document, with its count, under the word dict. */
  method IndexDocument(wordsLexicon0: map<string, LexiconEntry>, firstSeen0: seq<string>,
                       words: seq<string>, name: string, idx: nat)
    returns (wordsLexicon: map<string, LexiconEntry>, firstSeen: seq<string>)
    ensures Lex(firstSeen, wordsLexicon) == AddPostings(Lex(firstSeen0, wordsLexicon0), DocPostings(words, name, idx))
  {
    wordsLexicon, firstSeen := wordsLexicon0, firstSeen0;
    var wordsFreq := Distinct(words);
    ghost var ps := DocPostings(words, name, idx);
    TaggedAt(wordsFreq, words, name, idx);
    for j := 0 to |wordsFreq|
      invariant Lex(firstSeen, wordsLexicon) == AddPostings(Lex(firstSeen0, wordsLexicon0), ps[..j])
    {
      var word := wordsFreq[j];
      var freq := Count(words, word);
      var posting := Posting(freq, DocumentRef(name, idx, |words|));
      assert ps[..j + 1][..j] == ps[..j] && ps[j] == (word, posting);
      wordsLexicon, firstSeen := FileWord(wordsLexicon, firstSeen, word, posting);
    }
    assert ps[..|wordsFreq|] == ps;
  }

  /** The per-sub-collection loop of `build_inverted_index`: index each
      document in turn under its position, and sum the parsed lengths. */
  method IndexCollection(wordsLexicon0: map<string, LexiconEntry>, firstSeen0: seq<string>,
                         col: seq<Document>, cfg: Parser.Config)
    returns (wordsLexicon: map<string, LexiconEntry>, firstSeen: seq<string>, length: nat)
    ensures Lex(firstSeen, wordsLexicon) == AddDocs(Lex(firstSeen0, wordsLexicon0), ParsedCol(col, cfg), |col|)
    ensures length == DocsLength(ParsedCol(col, cfg), |col|)
  {
    wordsLexicon, firstSeen, length := wordsLexicon0, firstSeen0, 0;
    ghost var parsed := ParsedCol(col, cfg);
    for idx := 0 to |col|
      invariant Lex(firstSeen, wordsLexicon) == AddDocs(Lex(firstSeen0, wordsLexicon0), parsed, idx)
      invariant length == DocsLength(parsed, idx)
    {
      var doc := col[idx];
      var words := Parser.ParseTextToWords(doc.text, cfg);
      assert parsed[idx] == ParsedDoc(doc.sourceName, words);
      length := length + |words|;
      wordsLexicon, firstSeen := IndexDocument(wordsLexicon, firstSeen, words, doc.sourceName, idx);
    }
  }


  /** The loop of `build_inverted_index` over the collections: the word dict
      after every collection, the summed document lengths and the summed
      collection sizes. */
  method IndexCorpus(collection: seq<seq<Document>>, cfg: Parser.Config)
    returns (wordsLexicon: map<string, LexiconEntry>, firstSeen: seq<string>, total: nat, size: nat)
    ensures Lex(firstSeen, wordsLexicon) == BuildSpec(Parsed(collection, cfg))
    ensures total == TotalLength(Parsed(collection, cfg))
    ensures size == TotalDocs(collection)
  {
    wordsLexicon, firstSeen, total, size := map[], [], 0, 0;
    ghost var parsed := Parsed(collection, cfg);
    for c := 0 to |collection|
      invariant Lex(firstSeen, wordsLexicon) == BuildSpec(parsed[..c])
      invariant total == TotalLength(parsed[..c])
      invariant size == TotalDocs(collection[..c])
    {
      var col := collection[c];
      assert parsed[..c + 1][..c] == parsed[..c];
      assert parsed[c] == ParsedCol(col, cfg);
      TotalDocsStep(collection, c);
      size := size + |col|;
      var length;
      wordsLexicon, firstSeen, length := IndexCollection(wordsLexicon, firstSeen, col, cfg);
      total := total + length;
    }
    assert parsed[..|collection|] == parsed;
    assert collection[..|collection|] == collection;
  }


  /** Mean document length: the summed lengths over the document count, in
      Python's true division. */
  function Average(total: nat, count: int): real
    requires count != 0
  {
    total as real / count as real
  }

  /** The document count a rebuild starts from: the stored count when a row was
      read (it is assigned even when the row is then rejected), else the
      default 0. None makes the rebuild raise TypeError. */
  function StartingCount(table: InfoTable): Option<int> {
    if table.Table? && table.row.Some? then table.row.value.count else Some(0)
  }
}
