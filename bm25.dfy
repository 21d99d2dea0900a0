/** BM25 ranking over the stored index: score accumulation per document key,
    the hand-written bounded "top-K" list and the mapping of ranked keys back
    to documents. `idf` and `word_score` are not modelled: the per-word score
    is the parameter `wordScore`, reading a collection file is `read`. */
module Bm25 {
  import opened Wrappers
  import opened Seqs
  import opened InvertedIndex

  /** One (document key, score) pair: a term of a document's sum, or a match. */
  type Scored = (Key, real)

  /** The score of one word in one document, from its frequency there and the document's length. */
  type WordScore = (string, nat, nat) -> real

  // ---------------------------------------------------------------------------
  // Score accumulation (`docs_scores`)

  /** The `docs_scores` dict: its keys in insertion order and their totals. */
  datatype Scores = Scores(keys: seq<Key>, total: map<Key, real>)

  const NoScores := Scores([], map[])

  /** The keys listed once each, and listed exactly when they have a total. */
  ghost predicate ValidScores(s: Scores) {
    NoDuplicates(s.keys) && forall key :: key in s.total <==> key in s.keys
  }

  /** Add `x` to the total of `key`, or start a new entry at `x`. */
  function AddScore(s: Scores, key: Key, x: real): Scores {
    if key in s.total then Scores(s.keys, s.total[key := s.total[key] + x])
    else Scores(s.keys + [key], s.total[key := x])
  }

  /** `AddScore` applied to each pair in turn. */
  function AddAll(s: Scores, ps: seq<Scored>): Scores {
    if ps == [] then s
    else
      var n := |ps| - 1;
      AddScore(AddAll(s, ps[..n]), ps[n].0, ps[n].1)
  }

  /** The keys of the rows `get_documents_for_word` returned. */
  function DocKeys(docs: seq<DocumentInfo>): (r: seq<Key>)
    ensures |r| == |docs| && forall i :: 0 <= i < |docs| ==> r[i] == (docs[i].collectionName, docs[i].index)
  {
    seq(|docs|, i requires 0 <= i < |docs| => (docs[i].collectionName, docs[i].index))
  }

  /** The sum of the scores paired with `key`. */
  function SumFor(ps: seq<Scored>, key: Key): real {
    if ps == [] then 0.0
    else
      var n := |ps| - 1;
      SumFor(ps[..n], key) + (if ps[n].0 == key then ps[n].1 else 0.0)
  }

  /** The terms one query word contributes: one per row of its postings. */
  function WordTerms(docs: seq<DocumentInfo>, w: string, wordScore: WordScore): (r: seq<Scored>)
    ensures |r| == |docs|
  {
    seq(|docs|, i requires 0 <= i < |docs| =>
      ((docs[i].collectionName, docs[i].index), wordScore(w, docs[i].wordFrequencyWithinDocument, docs[i].wordsLength)))
  }

  /** All terms of the query, word occurrence by word occurrence: a repeated
      query word contributes its terms again. */
  function QueryTerms(store: Store, wordScore: WordScore, words: seq<string>): seq<Scored> {
    if words == [] then []
    else
      var n := |words| - 1;
      QueryTerms(store, wordScore, words[..n]) + WordTerms(DocumentsForWord(store, words[n]), words[n], wordScore)
  }

  /** `docs_scores` after the scoring loop of `query_sources_documents`. */
  function ScoresOf(store: Store, wordScore: WordScore, words: seq<string>): Scores {
    AddAll(NoScores, QueryTerms(store, wordScore, words))
  }

  lemma AddScoreValid(s: Scores, key: Key, x: real)
    requires ValidScores(s)
    ensures ValidScores(AddScore(s, key, x))
    ensures AddScore(s, key, x).keys == Note(s.keys, key)
  {
    if key !in s.total {
      var keys := s.keys + [key];
      assert keys[..|keys| - 1] == s.keys;
    }
  }

  lemma {:induction false} SumForAbsent(ps: seq<Scored>, key: Key)
    requires key !in Firsts(ps)
    ensures SumFor(ps, key) == 0.0
  {
    if ps != [] {
      var n := |ps| - 1;
      assert Firsts(ps[..n]) == Firsts(ps)[..n];
      SumForAbsent(ps[..n], key);
    }
  }

  /** Folding pairs into a valid dict keeps it valid, notes the new keys in
      first-appearance order and adds to each key the sum of its scores. */
  lemma {:induction false} AddAllSpec(s: Scores, ps: seq<Scored>)
    requires ValidScores(s)
    ensures ValidScores(AddAll(s, ps))
    ensures AddAll(s, ps).keys == NoteAll(s.keys, Firsts(ps))
    ensures forall key :: key in AddAll(s, ps).total <==> key in s.total || key in Firsts(ps)
    ensures forall key :: key in AddAll(s, ps).total ==>
              AddAll(s, ps).total[key] == (if key in s.total then s.total[key] else 0.0) + SumFor(ps, key)
  {
    if ps != [] {
      var n := |ps| - 1;
      var front := ps[..n];
      AddAllSpec(s, front);
      var prev := AddAll(s, front);
      var x := ps[n];
      AddScoreValid(prev, x.0, x.1);
      assert Firsts(ps)[..n] == Firsts(front);
      assert Firsts(ps) == Firsts(front) + [x.0];
      NoteAllDistinct(s.keys, Firsts(ps));
      var r := AddAll(s, ps);
      forall key | key in r.total
        ensures r.total[key] == (if key in s.total then s.total[key] else 0.0) + SumFor(ps, key)
      {
        if key == x.0 && key !in prev.total {
          SumForAbsent(front, key);
        }
      }
    }
  }

  lemma {:induction false} AddAllAppend(s: Scores, a: seq<Scored>, b: seq<Scored>)
    ensures AddAll(s, a + b) == AddAll(AddAll(s, a), b)
    decreases |b|
  {
    if b == [] {
      assert a + b == a;
    } else {
      var n := |b| - 1;
      assert (a + b)[..|a + b| - 1] == a + b[..n];
      AddAllAppend(s, a, b[..n]);
    }
  }

  /** The accumulated dict: its keys are the keys of the query terms once each,
      in first-appearance order, and each key's total is the sum of the scores
      of every (query-word occurrence, posting) pair with that key. */
  lemma ScoresOfSpec(store: Store, wordScore: WordScore, words: seq<string>)
    ensures ValidScores(ScoresOf(store, wordScore, words))
    ensures ScoresOf(store, wordScore, words).keys == Distinct(Firsts(QueryTerms(store, wordScore, words)))
    ensures forall key :: key in ScoresOf(store, wordScore, words).total ==>
              ScoresOf(store, wordScore, words).total[key] == SumFor(QueryTerms(store, wordScore, words), key)
  {
    var ts := QueryTerms(store, wordScore, words);
    AddAllSpec(NoScores, ts);
    NoteAllDistinct([], Firsts(ts));
  }

  lemma {:induction false} QueryTermsKeys(store: Store, wordScore: WordScore, words: seq<string>, key: Key)
    ensures key in Firsts(QueryTerms(store, wordScore, words)) <==>
              exists i :: 0 <= i < |words| && key in DocKeys(DocumentsForWord(store, words[i]))
  {
    if words != [] {
      var n := |words| - 1;
      QueryTermsKeys(store, wordScore, words[..n], key);
      var a := QueryTerms(store, wordScore, words[..n]);
      var b := WordTerms(DocumentsForWord(store, words[n]), words[n], wordScore);
      assert Firsts(a + b) == Firsts(a) + Firsts(b);
      assert Firsts(b) == DocKeys(DocumentsForWord(store, words[n]));
      if exists i :: 0 <= i < |words| && key in DocKeys(DocumentsForWord(store, words[i])) {
        var i :| 0 <= i < |words| && key in DocKeys(DocumentsForWord(store, words[i]));
        if i < n {
          assert words[..n][i] == words[i];
        }
      }
      if exists i :: 0 <= i < n && key in DocKeys(DocumentsForWord(store, words[..n][i])) {
        var i :| 0 <= i < n && key in DocKeys(DocumentsForWord(store, words[..n][i]));
        assert words[..n][i] == words[i];
      }
    }
  }

  /** A key is scored exactly when it is the key of a posting of at least one
      query word. */
  lemma ScoredKeys(store: Store, wordScore: WordScore, words: seq<string>, key: Key)
    ensures key in ScoresOf(store, wordScore, words).total <==>
              exists i :: 0 <= i < |words| && key in DocKeys(DocumentsForWord(store, words[i]))
  {
    ScoresOfSpec(store, wordScore, words);
    QueryTermsKeys(store, wordScore, words, key);
  }

  /** No key is scored exactly when no query word has a posting. */
  lemma NoScoresIffNoPostings(store: Store, wordScore: WordScore, words: seq<string>)
    ensures ScoresOf(store, wordScore, words).keys == [] <==>
              forall i :: 0 <= i < |words| ==> DocumentsForWord(store, words[i]) == []
  {
    var s := ScoresOf(store, wordScore, words);
    ScoresOfSpec(store, wordScore, words);
    if s.keys != [] {
      ScoredKeys(store, wordScore, words, s.keys[0]);
    } else {
      forall i | 0 <= i < |words|
        ensures DocumentsForWord(store, words[i]) == []
      {
        var docs := DocumentsForWord(store, words[i]);
        if docs != [] {
          ScoredKeys(store, wordScore, words, DocKeys(docs)[0]);
        }
      }
    }
  }

  /** The inner loop of the scoring: add one query word's terms to the dict. */
  method ScoreWord(docsScores0: Scores, documents: seq<DocumentInfo>, word: string, wordScore: WordScore)
    returns (docsScores: Scores)
    ensures docsScores == AddAll(docsScores0, WordTerms(documents, word, wordScore))
  {
    docsScores := docsScores0;
    ghost var terms := WordTerms(documents, word, wordScore);
    for j := 0 to |documents|
      invariant docsScores == AddAll(docsScores0, terms[..j])
    {
      var doc := documents[j];
      var score := wordScore(word, doc.wordFrequencyWithinDocument, doc.wordsLength);
      var key := (doc.collectionName, doc.index);
      assert terms[..j + 1][..j] == terms[..j];
      if key in docsScores.total {
        docsScores := docsScores.(total := docsScores.total[key := docsScores.total[key] + score]);
      } else {
        docsScores := Scores(docsScores.keys + [key], docsScores.total[key := score]);
      }
    }
    assert terms[..|documents|] == terms;
  }

  /** The scoring loop of `query_sources_documents`. */
  method AccumulateScores(store: Store, wordScore: WordScore, queryWords: seq<string>) returns (docsScores: Scores)
    ensures docsScores == ScoresOf(store, wordScore, queryWords)
  {
    docsScores := NoScores;
    for i := 0 to |queryWords|
      invariant docsScores == AddAll(NoScores, QueryTerms(store, wordScore, queryWords[..i]))
    {
      var word := queryWords[i];
      var documents := DocumentsForWord(store, word);
      assert queryWords[..i + 1][..i] == queryWords[..i];
      AddAllAppend(NoScores, QueryTerms(store, wordScore, queryWords[..i]), WordTerms(documents, word, wordScore));
      docsScores := ScoreWord(docsScores, documents, word, wordScore);
    }
    assert queryWords[..|queryWords|] == queryWords;
  }

  // ---------------------------------------------------------------------------
  // The bounded "top-K" list (`matches`)

  /** The inner `for i` loop from position `i` on: pass entries scoring more
      than `e`; at the first one scoring no more, write `e` there, shift the rest
      right by one and keep the displaced last entry only below capacity; when an
      entry scores more and the list is below capacity, append `e` instead. */
  function Slide(m: seq<Scored>, e: Scored, k: int, i: nat): seq<Scored>
    requires i <= |m|
    decreases |m| - i
  {
    if i == |m| then m
    else if m[i].1 > e.1 then
      if |m| < k then m + [e] else Slide(m, e, k, i + 1)
    else
      var shifted := m[..i] + [e] + m[i..|m| - 1];
      if |m| < k then shifted + [m[|m| - 1]] else shifted
  }

  /** One pass of the outer loop: an empty list first receives the entry, then
      the entry is placed as `Slide` describes. */
  function Place(m: seq<Scored>, e: Scored, k: int): seq<Scored> {
    Slide(if m == [] then [e] else m, e, k, 0)
  }

  /** `matches` after the outer loop over the scored items, in order. */
  function TopK(items: seq<Scored>, k: int): seq<Scored> {
    if items == [] then []
    else
      var n := |items| - 1;
      Place(TopK(items[..n], k), items[n], k)
  }

  function Capacity(k: int): nat {
    if k < 1 then 1 else k
  }

  lemma {:induction false} SlideLength(m: seq<Scored>, e: Scored, k: int, i: nat)
    requires i <= |m|
    ensures |Slide(m, e, k, i)| == if |m| < k && i < |m| then |m| + 1 else |m|
    decreases |m| - i
  {
    if i < |m| && m[i].1 > e.1 && |m| >= k {
      SlideLength(m, e, k, i + 1);
    }
  }

  /** The list grows by one below capacity and keeps its length at capacity. */
  lemma PlaceLength(m: seq<Scored>, e: Scored, k: int)
    ensures |Place(m, e, k)| == if m == [] then (if k >= 2 then 2 else 1) else if |m| < k then |m| + 1 else |m|
  {
    SlideLength(if m == [] then [e] else m, e, k, 0);
  }

  /** After `n >= 1` items the list holds min(n + 1, max(k, 1)) entries: never
      more than max(k, 1), the first item counting twice when k >= 2. */
  lemma {:induction false} TopKLength(items: seq<Scored>, k: int)
    ensures items == [] ==> TopK(items, k) == []
    ensures items != [] ==> |TopK(items, k)| == if |items| + 1 < Capacity(k) then |items| + 1 else Capacity(k)
  {
    if items != [] {
      var n := |items| - 1;
      TopKLength(items[..n], k);
      PlaceLength(TopK(items[..n], k), items[n], k);
    }
  }

  /** The first scored document goes in twice when k >= 2 (appended, then the
      slide writes it at position 0 and re-appends the displaced copy). */
  lemma FirstEntryTwice(e: Scored, k: int)
    ensures Place([], e, k) == if k >= 2 then [e, e] else [e]
  {
  }

  /** A full list whose every entry scores strictly more than the new entry is
      left unchanged. */
  lemma {:induction false} PlaceFullAllGreater(m: seq<Scored>, e: Scored, k: int)
    requires m != [] && |m| >= k
    requires forall t :: 0 <= t < |m| ==> m[t].1 > e.1
    ensures Place(m, e, k) == m
  {
    SlidePastGreater(m, e, k, 0, |m|);
  }

  lemma {:induction false} SlidePastGreater(m: seq<Scored>, e: Scored, k: int, i: nat, j: nat)
    requires i <= j <= |m| && |m| >= k
    requires forall t :: i <= t < j ==> m[t].1 > e.1
    ensures Slide(m, e, k, i) == Slide(m, e, k, j)
    decreases j - i
  {
    if i < j {
      SlidePastGreater(m, e, k, i + 1, j);
    }
  }

  /** On a full list the new entry is written at the first position whose score
      is at most its own, the later entries shift right by one and the last one
      drops out. */
  lemma PlaceFull(m: seq<Scored>, e: Scored, k: int, i: nat)
    requires m != [] && |m| >= k && i < |m|
    requires forall t :: 0 <= t < i ==> m[t].1 > e.1
    requires m[i].1 <= e.1
    ensures Place(m, e, k) == m[..i] + [e] + m[i..|m| - 1]
  {
    SlidePastGreater(m, e, k, 0, i);
  }

  /** Below capacity only the first entry is compared: if it scores more, the
      new entry is appended at the end (wherever it belongs), otherwise it goes
      in front. */
  lemma PlaceNotFull(m: seq<Scored>, e: Scored, k: int)
    requires m != [] && |m| < k
    ensures Place(m, e, k) == if m[0].1 > e.1 then m + [e] else [e] + m
  {
    if m[0].1 <= e.1 {
      assert m[..0] + [e] + m[0..|m| - 1] + [m[|m| - 1]] == [e] + m;
    }
  }

  /** The appended entry need not be in order: below capacity, a list whose
      first entry outscores the new one gets it at the end even when a later
      entry scores less. */
  lemma NotFullAppendUnsorted(a: Key, b: Key, c: Key)
    ensures Place([(a, 3.0), (b, 1.0)], (c, 2.0), 3) == [(a, 3.0), (b, 1.0), (c, 2.0)]
  {
    PlaceNotFull([(a, 3.0), (b, 1.0)], (c, 2.0), 3);
  }

  /** Every entry of the list is an item or the new entry: nothing is invented. */
  lemma {:induction false} SlideFrom(m: seq<Scored>, e: Scored, k: int, i: nat)
    requires i <= |m|
    ensures forall x :: x in Slide(m, e, k, i) ==> x in m || x == e
    decreases |m| - i
  {
    if i < |m| && m[i].1 > e.1 && |m| >= k {
      SlideFrom(m, e, k, i + 1);
    } else if i < |m| && m[i].1 <= e.1 {
      var shifted := m[..i] + [e] + m[i..|m| - 1];
      assert forall x :: x in shifted ==> x in m[..i] || x == e || x in m[i..|m| - 1];
    }
  }

  lemma {:induction false} TopKFrom(items: seq<Scored>, k: int)
    ensures forall x :: x in TopK(items, k) ==> x in items
  {
    if items != [] {
      var n := |items| - 1;
      TopKFrom(items[..n], k);
      var m := TopK(items[..n], k);
      SlideFrom(if m == [] then [items[n]] else m, items[n], k, 0);
    }
  }

  /** The slide of the inner loop: write `e` at position `i` and move each
      later entry one place right through `tmp`; the entry pushed off the end
      is returned in `tmp`. */
  method SlideIn(m: seq<Scored>, e: Scored, i: nat) returns (matches: seq<Scored>, tmp: Scored)
    requires i < |m|
    ensures matches == m[..i] + [e] + m[i..|m| - 1] && tmp == m[|m| - 1]
  {
    var n := |m|;
    tmp := m[i];
    matches := m[i := e];
    for j := i + 1 to n
      invariant |matches| == n && matches[i] == e && tmp == m[j - 1]
      invariant forall t :: 0 <= t < i ==> matches[t] == m[t]
      invariant forall t :: i < t < j ==> matches[t] == m[t - 1]
      invariant forall t :: j <= t < n ==> matches[t] == m[t]
    {
      var nextTmp := matches[j];
      matches := matches[j := tmp];
      tmp := nextTmp;
    }
  }

  /** One pass of the outer loop over `matches`, with its index loop and the
      `tmp` swap chain. */
  method PlaceMatch(matches0: seq<Scored>, e: Scored, k: int) returns (matches: seq<Scored>)
    ensures matches == Place(matches0, e, k)
  {
    matches := matches0;
    if |matches| == 0 {
      matches := matches + [e];
    }
    ghost var m := matches;
    var n := |matches|;
    for i := 0 to n
      invariant matches == m
      invariant Slide(m, e, k, i) == Place(matches0, e, k)
    {
      if matches[i].1 > e.1 {
        if |matches| < k {
          matches := matches + [e];
          return;
        }
        continue;
      }
      var tmp;
      matches, tmp := SlideIn(matches, e, i);
      if |matches| < k {
        matches := matches + [tmp];
      }
      return;
    }
  }

  /** The items of a dict, in key insertion order. */
  function Items(s: Scores): (r: seq<Scored>)
    requires forall key :: key in s.keys ==> key in s.total
    ensures |r| == |s.keys|
  {
    seq(|s.keys|, i requires 0 <= i < |s.keys| => (s.keys[i], s.total[s.keys[i]]))
  }

  /** The outer loop over `docs_scores.items()`. */
  method SelectMatches(items: seq<Scored>, k: int) returns (matches: seq<Scored>)
    ensures matches == TopK(items, k)
  {
    matches := [];
    for t := 0 to |items|
      invariant matches == TopK(items[..t], k)
    {
      assert items[..t + 1][..t] == items[..t];
      matches := PlaceMatch(matches, items[t], k);
    }
    assert items[..|items|] == items;
  }

  // ---------------------------------------------------------------------------
  // `get_collection_documents`

  function Names(indexes: seq<Scored>): (r: seq<string>)
    ensures |r| == |indexes| && forall i :: 0 <= i < |indexes| ==> r[i] == indexes[i].0.0
  {
    seq(|indexes|, i requires 0 <= i < |indexes| => indexes[i].0.0)
  }

  /** What slot `index` holds after reading the collections `names` in order:
      the document of the last collection long enough to have that index. */
  function SlotFrom(names: seq<string>, read: string -> seq<Document>, index: nat): Option<Document> {
    if names == [] then None
    else
      var n := |names| - 1;
      var collection := read(names[n]);
      if index < |collection| then Some(collection[index]) else SlotFrom(names[..n], read, index)
  }

  /** The documents `get_collection_documents` returns, slot by slot. */
  function CollectionDocuments(indexes: seq<Scored>, read: string -> seq<Document>): seq<Option<Document>> {
    var names := Distinct(Names(indexes));
    seq(|indexes|, i requires 0 <= i < |indexes| => SlotFrom(names, read, indexes[i].0.1))
  }

  /** A slot is filled from the last collection read whose length exceeds the
      index. */
  lemma {:induction false} SlotFromLast(names: seq<string>, read: string -> seq<Document>, index: nat, j: nat)
    requires j < |names| && index < |read(names[j])|
    requires forall t :: j < t < |names| ==> index >= |read(names[t])|
    ensures SlotFrom(names, read, index) == Some(read(names[j])[index])
  {
    var n := |names| - 1;
    if j < n {
      assert forall t :: j < t < n ==> names[..n][t] == names[t];
      SlotFromLast(names[..n], read, index, j);
    }
  }

  /** A slot stays None exactly when no collection read is long enough. */
  lemma {:induction false} SlotFromNone(names: seq<string>, read: string -> seq<Document>, index: nat)
    ensures SlotFrom(names, read, index) == None <==> forall t :: 0 <= t < |names| ==> index >= |read(names[t])|
  {
    if names != [] {
      var n := |names| - 1;
      SlotFromNone(names[..n], read, index);
      assert forall t :: 0 <= t < n ==> names[..n][t] == names[t];
    }
  }

  lemma TwoNamesDistinct()
    ensures Distinct(["a", "b"]) == ["a", "b"]
  {
    assert "a" != "b";
    assert DistinctFrom(["a", "b"], []) == ["a", "b"];
    assert DistinctFrom(["a"], ["b"]) == ["a", "b"];
  }

  /** The collection of a key is never checked: when another collection read
      later also has the index, its document fills the slot. */
  lemma LaterCollectionWins(read: string -> seq<Document>, a0: Document, a1: Document, b0: Document, b1: Document)
    requires read("a") == [a0, a1] && read("b") == [b0, b1] && a0 != b0
    ensures CollectionDocuments([(("a", 0), 2.0), (("b", 1), 1.0)], read) == [Some(b0), Some(b1)]
  {
    var indexes := [(("a", 0), 2.0), (("b", 1), 1.0)];
    assert Names(indexes) == ["a", "b"];
    TwoNamesDistinct();
    SlotFromLast(["a", "b"], read, 0, 1);
    SlotFromLast(["a", "b"], read, 1, 1);
  }

  /** The first loop of `get_collection_documents`: the collection names, once
      each, in order of first appearance. */
  method CollectionNames(indexes: seq<Scored>) returns (names: seq<string>)
    ensures names == Distinct(Names(indexes))
  {
    names := [];
    for i := 0 to |indexes|
      invariant names == NoteAll([], Names(indexes)[..i])
    {
      var collectionName := indexes[i].0.0;
      assert Names(indexes)[..i + 1] == Names(indexes)[..i] + [collectionName];
      if collectionName in names {
        continue;
      }
      names := names + [collectionName];
    }
    assert Names(indexes)[..|indexes|] == Names(indexes);
    NoteAllDistinct([], Names(indexes));
  }

  /** `get_collection_documents`: one slot per ranked key, filled collection by
      collection. */
  method GetCollectionDocuments(indexes: seq<Scored>, read: string -> seq<Document>)
    returns (documents: seq<Option<Document>>)
    ensures documents == CollectionDocuments(indexes, read)
  {
    var names := CollectionNames(indexes);
    documents := seq(|indexes|, _ => None);
    for c := 0 to |names|
      invariant |documents| == |indexes|
      invariant forall i :: 0 <= i < |indexes| ==> documents[i] == SlotFrom(names[..c], read, indexes[i].0.1)
    {
      var collection := read(names[c]);
      assert names[..c + 1][..c] == names[..c];
      for i := 0 to |indexes|
        invariant |documents| == |indexes|
        invariant forall t :: 0 <= t < i ==> documents[t] == SlotFrom(names[..c + 1], read, indexes[t].0.1)
        invariant forall t :: i <= t < |indexes| ==> documents[t] == SlotFrom(names[..c], read, indexes[t].0.1)
      {
        if indexes[i].0.1 < |collection| {
          documents := documents[i := Some(collection[indexes[i].0.1])];
        }
      }
    }
    assert names[..|names|] == names;
  }

  // ---------------------------------------------------------------------------
  // `query_sources_documents`

  /** The ranked documents: empty when nothing scored, else the documents of
      the top-K list. */
  function QueryResult(store: Store, wordScore: WordScore, read: string -> seq<Document>,
                       queryWords: seq<string>, k: int): seq<Option<Document>>
  {
    var s := ScoresOf(store, wordScore, queryWords);
    if s.keys == [] then []
    else
      ScoresOfSpec(store, wordScore, queryWords);
      CollectionDocuments(TopK(Items(s), k), read)
  }

  /** The result is empty exactly when no query word has a posting, and never
      longer than max(k, 1). */
  lemma QueryResultLength(store: Store, wordScore: WordScore, read: string -> seq<Document>,
                          queryWords: seq<string>, k: int)
    ensures QueryResult(store, wordScore, read, queryWords, k) == [] <==>
              forall i :: 0 <= i < |queryWords| ==> DocumentsForWord(store, queryWords[i]) == []
    ensures |QueryResult(store, wordScore, read, queryWords, k)| <= Capacity(k)
  {
    NoScoresIffNoPostings(store, wordScore, queryWords);
    var s := ScoresOf(store, wordScore, queryWords);
    if s.keys != [] {
      ScoresOfSpec(store, wordScore, queryWords);
      TopKLength(Items(s), k);
    }
  }

  /** `query_sources_documents`: score, keep the best `k`, read them back. */
  method QuerySourcesDocuments(store: Store, wordScore: WordScore, read: string -> seq<Document>,
                               queryWords: seq<string>, numberReturnedDocuments: int)
    returns (documents: seq<Option<Document>>)
    ensures documents == QueryResult(store, wordScore, read, queryWords, numberReturnedDocuments)
  {
    var docsScores := AccumulateScores(store, wordScore, queryWords);
    if |docsScores.keys| == 0 {
      return [];
    }
    ScoresOfSpec(store, wordScore, queryWords);
    var matches := SelectMatches(Items(docsScores), numberReturnedDocuments);
    documents := GetCollectionDocuments(matches, read);
  }
}
