/** The text normaliser of app/engine/parser.py: tokenise, drop stopwords, stem.
    The stopword list and the stemmer are parameters (NLTK's English list and
    the Porter stemmer in the application). */
module Parser {
  import opened Text
  import Seqs

  /** What the parser needs from outside: the stop set and the stemmer. */
  datatype Config = Config(stopwords: set<string>, stem: string -> string)

  /** Concatenation of a sequence of strings. */
  function Flatten(ss: seq<string>): string {
    if ss == [] then [] else ss[0] + Flatten(ss[1..])
  }

  lemma {:induction false} FlattenAppend(a: seq<string>, b: seq<string>)
    ensures Flatten(a + b) == Flatten(a) + Flatten(b)
  {
    if a == [] {
      assert a + b == b;
    } else {
      assert (a + b)[1..] == a[1..] + b;
      FlattenAppend(a[1..], b);
    }
  }

  /** The text with every ASCII punctuation character deleted. */
  function RemovePunctuation(s: string): (r: string)
    ensures |r| <= |s|
    ensures forall i :: 0 <= i < |r| ==> !IsPunctuation(r[i]) && r[i] in s
  {
    if s == [] then []
    else if IsPunctuation(s[0]) then RemovePunctuation(s[1..])
    else [s[0]] + RemovePunctuation(s[1..])
  }

  /** The characters of `s` that are neither punctuation nor whitespace, in order. */
  function Letters(s: string): string {
    if s == [] then []
    else if IsPunctuation(s[0]) || IsSpace(s[0]) then Letters(s[1..])
    else [s[0]] + Letters(s[1..])
  }

  /** The non-whitespace characters of `s`, in order. */
  function NonSpace(s: string): string {
    if s == [] then [] else (if IsSpace(s[0]) then [] else [s[0]]) + NonSpace(s[1..])
  }

  predicate IsToken(w: string) {
    |w| > 0 && forall i :: 0 <= i < |w| ==> !IsSpace(w[i])
  }

  /** `s.split()` continuing a word `cur` already begun: the maximal runs of
      non-whitespace characters. Every piece is non-empty and free of
      whitespace, and the pieces put together give back the non-whitespace
      characters in order. */
  function SplitFrom(s: string, cur: string): (r: seq<string>)
    requires forall i :: 0 <= i < |cur| ==> !IsSpace(cur[i])
    ensures forall k :: 0 <= k < |r| ==> IsToken(r[k])
    ensures Flatten(r) == cur + NonSpace(s)
    decreases |s|
  {
    if s == [] then
      if cur == [] then [] else FlattenOne(cur); [cur]
    else if IsSpace(s[0]) then
      var rest := SplitFrom(s[1..], []);
      if cur == [] then rest
      else
        FlattenAppend([cur], rest);
        FlattenOne(cur);
        [cur] + rest
    else
      var rest := SplitFrom(s[1..], cur + [s[0]]);
      assert NonSpace(s) == [s[0]] + NonSpace(s[1..]);
      rest
  }

  lemma FlattenOne(w: string)
    ensures Flatten([w]) == w
  {
    assert [w][1..] == [];
  }

  /** Every character of a piece occurs in the concatenation of the pieces. */
  lemma {:induction false} InFlatten(r: seq<string>, k: nat, i: nat)
    requires k < |r| && i < |r[k]|
    ensures r[k][i] in Flatten(r)
  {
    if k > 0 {
      InFlatten(r[1..], k - 1, i);
    }
  }

  lemma {:induction false} InNonSpace(s: string, c: char)
    requires c in NonSpace(s)
    ensures c in s
  {
    if s != [] && c !in (if IsSpace(s[0]) then [] else [s[0]]) {
      InNonSpace(s[1..], c);
    }
  }

  /** Deleting punctuation works character by character: a text splits into
      parts that lose their punctuation separately. */
  lemma {:induction false} RemovePunctuationAppend(a: string, b: string)
    ensures RemovePunctuation(a + b) == RemovePunctuation(a) + RemovePunctuation(b)
  {
    if a == [] {
      assert a + b == b;
    } else {
      assert (a + b)[1..] == a[1..] + b;
      RemovePunctuationAppend(a[1..], b);
    }
  }

  /** One character is deleted exactly when it is punctuation; every other
      character, whitespace included, is kept. */
  lemma RemovePunctuationChar(c: char)
    ensures RemovePunctuation([c]) == if IsPunctuation(c) then [] else [c]
  {
    assert [c][1..] == [];
  }

  /** Python's `str.split()` with no argument. */
  function Split(s: string): (r: seq<string>)
    ensures forall k :: 0 <= k < |r| ==> IsToken(r[k])
    ensures Flatten(r) == NonSpace(s)
  {
    SplitFrom(s, [])
  }

  /** A word already begun, continued by whitespace-free characters, stays
      one piece. */
  lemma {:induction false} SplitFromWord(w: string, cur: string)
    requires forall i :: 0 <= i < |cur| ==> !IsSpace(cur[i])
    requires forall i :: 0 <= i < |w| ==> !IsSpace(w[i])
    ensures SplitFrom(w, cur) == if cur + w == [] then [] else [cur + w]
    decreases |w|
  {
    if w == [] {
      assert cur + w == cur;
    } else {
      assert cur + w == (cur + [w[0]]) + w[1..];
      SplitFromWord(w[1..], cur + [w[0]]);
    }
  }

  /** A whitespace character ends the current piece: what comes after it is
      split afresh. */
  lemma {:induction false} SplitFromSpace(a: string, c: char, b: string, cur: string)
    requires forall i :: 0 <= i < |cur| ==> !IsSpace(cur[i])
    requires IsSpace(c)
    ensures SplitFrom(a + [c] + b, cur) == SplitFrom(a, cur) + SplitFrom(b, [])
    decreases |a|
  {
    var s := a + [c] + b;
    if a == [] {
      assert s == [c] + b && s[1..] == b;
    } else {
      assert s[0] == a[0] && s[1..] == a[1..] + [c] + b;
      if IsSpace(a[0]) {
        SplitFromSpace(a[1..], c, b, []);
      } else {
        SplitFromSpace(a[1..], c, b, cur + [a[0]]);
      }
    }
  }

  /** A non-empty word without whitespace splits into itself alone. */
  lemma SplitWord(w: string)
    requires IsToken(w)
    ensures Split(w) == [w]
  {
    SplitFromWord(w, []);
    assert [] + w == w;
  }

  /** The pieces on either side of a whitespace character are split apart:
      no piece crosses whitespace, and the pieces keep their order. */
  lemma SplitAtSpace(a: string, c: char, b: string)
    requires IsSpace(c)
    ensures Split(a + [c] + b) == Split(a) + Split(b)
  {
    SplitFromSpace(a, c, b, []);
  }

  /** `tokenizer`: strip punctuation, split on whitespace, lowercase each word. */
  function Tokenize(text: string): seq<string> {
    LowerEach(Split(RemovePunctuation(text)))
  }

  /** Each word lower-cased. */
  function LowerEach(words: seq<string>): (r: seq<string>)
    ensures |r| == |words| && forall k :: 0 <= k < |words| ==> r[k] == Lower(words[k])
  {
    seq(|words|, k requires 0 <= k < |words| => Lower(words[k]))
  }

  /** The tokenizer's contract: every token is non-empty, lower-case and free of
      whitespace and punctuation, and the tokens put together are the
      lower-cased letters of the text, in order. */
  lemma TokenizeSpec(text: string)
    ensures var r := Tokenize(text);
      && (forall k :: 0 <= k < |r| ==> IsToken(r[k]) && IsLower(r[k]))
      && (forall k, i :: 0 <= k < |r| && 0 <= i < |r[k]| ==> !IsPunctuation(r[k][i]))
      && Flatten(r) == Lower(Letters(text))
  {
    var stripped := RemovePunctuation(text);
    var words := Split(stripped);
    var r := Tokenize(text);
    forall k, i | 0 <= k < |r| && 0 <= i < |r[k]|
      ensures !IsPunctuation(r[k][i]) && !IsSpace(r[k][i])
    {
      InFlatten(words, k, i);
      InNonSpace(stripped, words[k][i]);
      LowerKeepsClass(words[k][i]);
    }
    FlattenLower(words);
    NonSpaceOfStripped(text);
  }

  /** Lower-casing each piece of a concatenation of piece lists. */
  lemma LowerEachAppend(a: seq<string>, b: seq<string>)
    ensures LowerEach(a + b) == LowerEach(a) + LowerEach(b)
  {
  }

  /** The tokens on either side of a whitespace character are tokenised
      apart and kept in text order. */
  lemma TokenizeAtSpace(a: string, c: char, b: string)
    requires IsSpace(c)
    ensures Tokenize(a + [c] + b) == Tokenize(a) + Tokenize(b)
  {
    assert !IsPunctuation(c);
    RemovePunctuationAppend(a + [c], b);
    RemovePunctuationAppend(a, [c]);
    RemovePunctuationChar(c);
    SplitAtSpace(RemovePunctuation(a), c, RemovePunctuation(b));
    LowerEachAppend(Split(RemovePunctuation(a)), Split(RemovePunctuation(b)));
  }

  /** A whitespace-free piece of text is one token, lower-cased with its
      punctuation deleted, unless it is all punctuation. */
  lemma TokenizeWord(w: string)
    requires forall i :: 0 <= i < |w| ==> !IsSpace(w[i])
    ensures Tokenize(w) == if RemovePunctuation(w) == [] then [] else [Lower(RemovePunctuation(w))]
  {
    var stripped := RemovePunctuation(w);
    StrippedWord(w);
    SplitWordOrNone(stripped);
    if stripped != [] {
      LowerEachOne(stripped);
    }
  }

  lemma LowerEachOne(x: string)
    ensures LowerEach([x]) == [Lower(x)]
  {
  }

  /** Deleting punctuation creates no whitespace. */
  lemma StrippedWord(w: string)
    requires forall i :: 0 <= i < |w| ==> !IsSpace(w[i])
    ensures forall i :: 0 <= i < |RemovePunctuation(w)| ==> !IsSpace(RemovePunctuation(w)[i])
  {
    var stripped := RemovePunctuation(w);
    forall i | 0 <= i < |stripped| ensures !IsSpace(stripped[i]) {
      assert stripped[i] in w;
    }
  }

  /** A whitespace-free text splits into itself, or nothing when empty. */
  lemma SplitWordOrNone(w: string)
    requires forall i :: 0 <= i < |w| ==> !IsSpace(w[i])
    ensures Split(w) == if w == [] then [] else [w]
  {
    SplitFromWord(w, []);
    assert [] + w == w;
  }

  /** Lowercasing maps letters to letters: it never creates whitespace or punctuation. */
  lemma LowerKeepsClass(c: char)
    requires !IsPunctuation(c) && !IsSpace(c)
    ensures !IsPunctuation(LowerChar(c)) && !IsSpace(LowerChar(c))
  {
  }

  lemma {:induction false} FlattenLower(words: seq<string>)
    ensures Flatten(LowerEach(words)) == Lower(Flatten(words))
  {
    if words != [] {
      assert LowerEach(words)[1..] == LowerEach(words[1..]);
      FlattenLower(words[1..]);
      LowerAppend(words[0], Flatten(words[1..]));
    }
  }

  lemma LowerAppend(a: string, b: string)
    ensures Lower(a + b) == Lower(a) + Lower(b)
  {
  }

  lemma {:induction false} NonSpaceOfStripped(s: string)
    ensures NonSpace(RemovePunctuation(s)) == Letters(s)
  {
    if s != [] {
      NonSpaceOfStripped(s[1..]);
      if !IsPunctuation(s[0]) {
        assert RemovePunctuation(s) == [s[0]] + RemovePunctuation(s[1..]);
        assert ([s[0]] + RemovePunctuation(s[1..]))[1..] == RemovePunctuation(s[1..]);
      }
    }
  }

  /** `stopwords_removal`: the words not in the stop set, in their order. */
  function RemoveStopwords(words: seq<string>, stop: set<string>): (r: seq<string>)
    ensures |r| <= |words|
    ensures forall i :: 0 <= i < |r| ==> r[i] !in stop && r[i] in words
    ensures forall i :: 0 <= i < |words| && words[i] !in stop ==> words[i] in r
  {
    if words == [] then []
    else if words[0] in stop then RemoveStopwords(words[1..], stop)
    else [words[0]] + RemoveStopwords(words[1..], stop)
  }

  /** Removing stopwords twice is the same as removing them once. */
  lemma {:induction false} RemoveStopwordsIdempotent(words: seq<string>, stop: set<string>)
    ensures RemoveStopwords(RemoveStopwords(words, stop), stop) == RemoveStopwords(words, stop)
  {
    if words != [] {
      RemoveStopwordsIdempotent(words[1..], stop);
      if words[0] !in stop {
        assert ([words[0]] + RemoveStopwords(words[1..], stop))[1..] == RemoveStopwords(words[1..], stop);
      }
    }
  }

  /** The filter works word by word: the kept words of a concatenation are
      the kept words of each part, in order. */
  lemma {:induction false} RemoveStopwordsAppend(a: seq<string>, b: seq<string>, stop: set<string>)
    ensures RemoveStopwords(a + b, stop) == RemoveStopwords(a, stop) + RemoveStopwords(b, stop)
  {
    if a == [] {
      assert a + b == b;
    } else {
      assert (a + b)[1..] == a[1..] + b;
      RemoveStopwordsAppend(a[1..], b, stop);
    }
  }

  /** One word is kept exactly when it is not a stopword. */
  lemma RemoveStopwordsOne(w: string, stop: set<string>)
    ensures RemoveStopwords([w], stop) == if w in stop then [] else [w]
  {
    assert [w][1..] == [];
  }

  /** Every word outside the stop set keeps all its occurrences; stopwords keep none. */
  lemma {:induction false} RemoveStopwordsCount(words: seq<string>, stop: set<string>, w: string)
    ensures Seqs.Count(RemoveStopwords(words, stop), w) == if w in stop then 0 else Seqs.Count(words, w)
  {
    if words != [] {
      RemoveStopwordsCount(words[1..], stop, w);
      if words[0] !in stop {
        assert ([words[0]] + RemoveStopwords(words[1..], stop))[1..] == RemoveStopwords(words[1..], stop);
      }
    }
  }

  /** `stemming`: the stemmer applied to each word. */
  function Stem(words: seq<string>, stem: string -> string): (r: seq<string>)
    ensures |r| == |words|
    ensures forall i :: 0 <= i < |words| ==> r[i] == stem(words[i])
  {
    seq(|words|, i requires 0 <= i < |words| => stem(words[i]))
  }

  /** Stemming commutes with concatenation: it works word by word. */
  lemma StemAppend(a: seq<string>, b: seq<string>, stem: string -> string)
    ensures Stem(a + b, stem) == Stem(a, stem) + Stem(b, stem)
  {
  }

  /** `parse_text_to_words`: tokenise, remove stopwords, stem. */
  function ParseTextToWords(text: string, cfg: Config): seq<string> {
    Stem(RemoveStopwords(Tokenize(text), cfg.stopwords), cfg.stem)
  }

  /** Each parsed word is the stem of a token outside the stop set, and there
      are no more words than tokens. */
  lemma ParseTextToWordsSpec(text: string, cfg: Config)
    ensures var r := ParseTextToWords(text, cfg); var t := Tokenize(text);
      && |r| <= |t|
      && forall i :: 0 <= i < |r| ==> exists j :: 0 <= j < |t| && t[j] !in cfg.stopwords && r[i] == cfg.stem(t[j])
  {
    var t := Tokenize(text);
    var kept := RemoveStopwords(t, cfg.stopwords);
    var r := ParseTextToWords(text, cfg);
    forall i | 0 <= i < |r|
      ensures exists j :: 0 <= j < |t| && t[j] !in cfg.stopwords && r[i] == cfg.stem(t[j])
    {
      assert r[i] == cfg.stem(kept[i]) && kept[i] in t && kept[i] !in cfg.stopwords;
      var j :| 0 <= j < |t| && t[j] == kept[i];
    }
  }

  /** The parse works piece by piece: the words on either side of a
      whitespace character are parsed apart and kept in text order. */
  lemma ParseTextToWordsAtSpace(a: string, c: char, b: string, cfg: Config)
    requires IsSpace(c)
    ensures ParseTextToWords(a + [c] + b, cfg) == ParseTextToWords(a, cfg) + ParseTextToWords(b, cfg)
  {
    TokenizeAtSpace(a, c, b);
    RemoveStopwordsAppend(Tokenize(a), Tokenize(b), cfg.stopwords);
    StemAppend(RemoveStopwords(Tokenize(a), cfg.stopwords), RemoveStopwords(Tokenize(b), cfg.stopwords), cfg.stem);
  }

  /** A whitespace-free piece of text gives at most one word: the stem of
      its lower-cased letters, unless they are empty or a stopword. */
  lemma ParseWord(w: string, cfg: Config)
    requires forall i :: 0 <= i < |w| ==> !IsSpace(w[i])
    ensures var t := Lower(RemovePunctuation(w));
            ParseTextToWords(w, cfg) == if RemovePunctuation(w) == [] || t in cfg.stopwords then [] else [cfg.stem(t)]
  {
    TokenizeWord(w);
    if RemovePunctuation(w) != [] {
      RemoveStopwordsOne(Lower(RemovePunctuation(w)), cfg.stopwords);
    }
  }

  /** Text without any letter (empty, or only punctuation and whitespace) yields no words. */
  lemma {:induction false} NoLettersNoWords(text: string, cfg: Config)
    requires Letters(text) == []
    ensures Tokenize(text) == [] && ParseTextToWords(text, cfg) == []
  {
    TokenizeSpec(text);
    FlattenLength(Tokenize(text));
  }

  /** Non-empty tokens: the concatenation is at least as long as the token count. */
  lemma {:induction false} FlattenLength(r: seq<string>)
    requires forall k :: 0 <= k < |r| ==> IsToken(r[k])
    ensures |Flatten(r)| >= |r|
  {
    if r != [] { FlattenLength(r[1..]); }
  }
}
