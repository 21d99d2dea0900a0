/** The Game Jolt scraper's derivations from a parsed game page: hashtags
    into tags, genre and category; package cards into one price entry each
    and a deduplicated platform list; screenshot and game-link URL fixes.
    The CSS/XPath selection itself is left out: each page element arrives
    as the optional text or attribute the selector would have returned. */
module Gamejolt {
  import opened Wrappers
  import opened Text
  import opened Seqs

  /** Python truthiness of an optional string: present and non-empty. */
  predicate Truthy(o: Option<string>) {
    o.Some? && o.value != []
  }

  // ---------------------------------------------------------------------------
  // Substrings under `strip()` and `lower()`

  /** An occurrence in `s` is one in `p + s`, shifted by `|p|`. */
  lemma OccursShift(p: string, s: string, w: string, i: int)
    requires OccursAt(s, w, i)
    ensures OccursAt(p + s, w, |p| + i)
  {
    assert (p + s)[|p| + i..|p| + i + |w|] == s[i..i + |w|];
  }

  /** An occurrence after the first `a` characters is one in `s[a..]`, and
      conversely. */
  lemma OccursInDrop(s: string, a: int, w: string, i: int)
    requires 0 <= a <= i <= |s|
    ensures OccursAt(s, w, i) <==> OccursAt(s[a..], w, i - a)
  {
    if i + |w| <= |s| {
      assert s[a..][i - a..i - a + |w|] == s[i..i + |w|];
    }
  }

  /** An occurrence ending by `m` is one in `s[..m]`, and conversely. */
  lemma OccursInTake(s: string, m: int, w: string, j: int)
    requires 0 <= j && j + |w| <= m <= |s|
    ensures OccursAt(s, w, j) <==> OccursAt(s[..m], w, j)
  {
    assert s[..m][j..j + |w|] == s[j..j + |w|];
  }

  /** `strip()` drops the leading blanks, then the trailing ones. */
  lemma StripWindow(s: string)
    ensures Strip(s) == s[LeadingSpace(s)..][..|s[LeadingSpace(s)..]| - TrailingSpace(s[LeadingSpace(s)..])]
  {
  }

  lemma LeadingBound(s: string, i: int)
    requires 0 <= i < |s| && !IsSpace(s[i])
    ensures LeadingSpace(s) <= i
  {
  }

  lemma TrailingBound(t: string, e: int)
    requires 0 <= e < |t| && !IsSpace(t[e])
    ensures e < |t| - TrailingSpace(t)
  {
  }

  lemma OccursEnds(s: string, w: string, i: int)
    requires OccursAt(s, w, i) && w != []
    ensures s[i] == w[0] && s[i + |w| - 1] == w[|w| - 1]
  {
    assert s[i..i + |w|][0] == s[i];
    assert s[i..i + |w|][|w| - 1] == s[i + |w| - 1];
  }

  /** Dropping the leading blanks keeps an occurrence of a word that does not
      start with a blank. */
  lemma LeadingKeepsWord(s: string, w: string, i: int)
    requires OccursAt(s, w, i) && w != [] && !IsSpace(w[0])
    ensures LeadingSpace(s) <= i && OccursAt(s[LeadingSpace(s)..], w, i - LeadingSpace(s))
  {
    OccursEnds(s, w, i);
    LeadingBound(s, i);
    OccursInDrop(s, LeadingSpace(s), w, i);
  }

  /** Dropping the trailing blanks keeps an occurrence of a word that does not
      end with a blank. */
  lemma TrailingKeepsWord(t: string, w: string, j: int)
    requires OccursAt(t, w, j) && w != [] && !IsSpace(w[|w| - 1])
    ensures OccursAt(t[..|t| - TrailingSpace(t)], w, j)
  {
    OccursEnds(t, w, j);
    TrailingBound(t, j + |w| - 1);
    OccursInTake(t, |t| - TrailingSpace(t), w, j);
  }

  /** `strip()` keeps every occurrence of a word that neither starts nor
      ends with whitespace. */
  lemma StripKeepsWord(s: string, w: string, i: int)
    requires OccursAt(s, w, i) && w != [] && !IsSpace(w[0]) && !IsSpace(w[|w| - 1])
    ensures OccursAt(Strip(s), w, i - LeadingSpace(s))
  {
    var a := LeadingSpace(s);
    var t := s[a..];
    var n := TrailingSpace(t);
    StripBy(s, a, n);
    LeadingKeepsWord(s, w, i);
    TrailingKeepsWord(t, w, i - a);
  }

  lemma StripContains(s: string, w: string)
    requires w != [] && !IsSpace(w[0]) && !IsSpace(w[|w| - 1])
    ensures Contains(Strip(s), w) <==> Contains(s, w)
  {
    if Contains(s, w) {
      var i :| 0 <= i <= |s| - |w| && OccursAt(s, w, i);
      StripKeepsWord(s, w, i);
    }
    if Contains(Strip(s), w) {
      StripContainsBack(s, w);
    }
  }

  lemma StripContainsBack(s: string, w: string)
    requires Contains(Strip(s), w)
    ensures Contains(s, w)
  {
    var a := LeadingSpace(s);
    var t := s[a..];
    StripWindow(s);
    var j :| 0 <= j <= |Strip(s)| - |w| && OccursAt(Strip(s), w, j);
    OccursInTake(t, |t| - TrailingSpace(t), w, j);
    OccursInDrop(s, a, w, a + j);
  }

  lemma {:induction false} LeadingSpaceLower(s: string)
    ensures LeadingSpace(Lower(s)) == LeadingSpace(s)
    decreases |s|
  {
    if s != [] {
      assert Lower(s)[1..] == Lower(s[1..]);
      LeadingSpaceLower(s[1..]);
    }
  }

  lemma {:induction false} TrailingSpaceLower(s: string)
    ensures TrailingSpace(Lower(s)) == TrailingSpace(s)
    decreases |s|
  {
    if s != [] {
      var n := |s| - 1;
      assert Lower(s)[..n] == Lower(s[..n]);
      TrailingSpaceLower(s[..n]);
    }
  }

  lemma LowerDrop(s: string, k: nat)
    requires k <= |s|
    ensures Lower(s[k..]) == Lower(s)[k..]
  {
  }

  lemma LowerWindow(s: string, a: nat, m: nat)
    requires a + m <= |s|
    ensures Lower(s[a..][..m]) == Lower(s)[a..][..m]
  {
  }

  /** Lower-casing leaves whitespace where it is, so it commutes with `strip()`. */
  lemma LowerStrip(s: string)
    ensures Lower(Strip(s)) == Strip(Lower(s))
  {
    var a := LeadingSpace(s);
    var t := s[a..];
    var n := TrailingSpace(t);
    StripBy(s, a, n);
    LeadingSpaceLower(s);
    TrailingSpaceLower(t);
    LowerDrop(s, a);
    StripBy(Lower(s), a, n);
    LowerWindow(s, a, |s| - a - n);
  }

  /** `strip()` given the lengths of the leading and trailing runs. */
  lemma StripBy(x: string, a: nat, n: nat)
    requires a == LeadingSpace(x) && n == TrailingSpace(x[a..])
    ensures Strip(x) == x[a..][..|x| - a - n]
  {
  }

  /** For a word without blanks at its ends, occurring in the stripped,
      lower-cased text is occurring in the lower-cased text. */
  lemma LowerStripContains(s: string, w: string)
    requires w != [] && !IsSpace(w[0]) && !IsSpace(w[|w| - 1])
    ensures Contains(Lower(Strip(s)), w) <==> Contains(Lower(s), w)
  {
    LowerStrip(s);
    StripContains(Lower(s), w);
  }

  // ---------------------------------------------------------------------------
  // Hashtags: tags, genre, category

  predicate NoSpace(w: string) {
    forall i :: 0 <= i < |w| ==> !IsSpace(w[i])
  }

  /** Length of the leading run of non-whitespace characters (`\S+`). */
  function NonSpaceRun(s: string): (n: nat)
    ensures n <= |s|
    ensures NoSpace(s[..n])
    ensures n < |s| ==> IsSpace(s[n])
  {
    if s == [] || IsSpace(s[0]) then 0
    else
      var n := NonSpaceRun(s[1..]);
      assert s[..n + 1] == [s[0]] + s[1..][..n];
      n + 1
  }

  /** The hashtag words of a text, without their `#`: scanning left to right,
      a `#` followed by at least one non-whitespace character starts a match
      that runs to the next whitespace; the scan resumes after it. */
  function HashWords(s: string): (r: seq<string>)
    ensures forall k :: 0 <= k < |r| ==> r[k] != [] && NoSpace(r[k])
    decreases |s|
  {
    if s == [] then []
    else if s[0] == '#' && NonSpaceRun(s[1..]) > 0 then
      var n := NonSpaceRun(s[1..]);
      [s[1..][..n]] + HashWords(s[1 + n..])
    else HashWords(s[1..])
  }

  lemma {:induction false} NonSpaceRunAll(w: string)
    requires NoSpace(w)
    ensures NonSpaceRun(w) == |w|
    decreases |w|
  {
    if w != [] {
      assert !IsSpace(w[0]);
      NonSpaceRunAll(w[1..]);
    }
  }

  /** A single hashtag yields its word. */
  lemma HashWordsSingle(w: string)
    requires w != [] && NoSpace(w)
    ensures HashWords(['#'] + w) == [w]
  {
    var s := ['#'] + w;
    assert s[0] == '#' && s[1..] == w;
    NonSpaceRunAll(w);
    assert s[1..][..|w|] == w;
    assert s[1 + |w|..] == [];
  }

  /** Matches never cross whitespace, so the text can be scanned in the
      pieces on either side of a blank. */
  lemma {:induction false} HashWordsSplit(a: string, c: char, b: string)
    requires IsSpace(c)
    ensures HashWords(a + [c] + b) == HashWords(a) + HashWords(b)
    decreases |a|
  {
    if a == [] {
      assert (a + [c] + b)[1..] == b;
    } else if a[0] == '#' && NonSpaceRun(a[1..]) > 0 {
      var n := NonSpaceRun(a[1..]);
      HashWordsSplit(a[1 + n..], c, b);
      HashWordsSplitMatch(a, c, b, n);
    } else {
      HashWordsSplit(a[1..], c, b);
      HashWordsSplitSkip(a, c, b);
    }
  }

  /** The step of `HashWordsSplit` when `a` starts with a hashtag. */
  lemma HashWordsSplitMatch(a: string, c: char, b: string, n: nat)
    requires IsSpace(c) && a != [] && a[0] == '#' && n == NonSpaceRun(a[1..]) && n > 0
    requires HashWords(a[1 + n..] + [c] + b) == HashWords(a[1 + n..]) + HashWords(b)
    ensures HashWords(a + [c] + b) == HashWords(a) + HashWords(b)
  {
    var s := a + [c] + b;
    SplitSlices(a, c, b, n);
    NonSpaceRunExtends(a[1..], [c] + b);
    HashWordsMatch(s, n);
    HashWordsMatch(a, n);
    AppendAssoc([a[1..][..n]], HashWords(a[1 + n..]), HashWords(b));
  }

  lemma AppendAssoc<T>(x: seq<T>, p: seq<T>, q: seq<T>)
    ensures x + (p + q) == (x + p) + q
  {
  }

  lemma SplitSlices(a: string, c: char, b: string, n: nat)
    requires a != [] && n < |a|
    ensures (a + [c] + b)[0] == a[0]
    ensures (a + [c] + b)[1..] == a[1..] + ([c] + b)
    ensures (a + [c] + b)[1..][..n] == a[1..][..n]
    ensures (a + [c] + b)[1 + n..] == a[1 + n..] + [c] + b
  {
  }

  /** `HashWords` on a text that starts with a hashtag of length `n`. */
  lemma HashWordsMatch(s: string, n: nat)
    requires s != [] && s[0] == '#' && n == NonSpaceRun(s[1..]) && n > 0
    ensures HashWords(s) == [s[1..][..n]] + HashWords(s[1 + n..])
  {
  }

  /** The step of `HashWordsSplit` when `a` does not start with a hashtag. */
  lemma HashWordsSplitSkip(a: string, c: char, b: string)
    requires IsSpace(c) && a != [] && !(a[0] == '#' && NonSpaceRun(a[1..]) > 0)
    requires HashWords(a[1..] + [c] + b) == HashWords(a[1..]) + HashWords(b)
    ensures HashWords(a + [c] + b) == HashWords(a) + HashWords(b)
  {
    var s := a + [c] + b;
    assert s[1..] == a[1..] + ([c] + b) == a[1..] + [c] + b;
    NonSpaceRunExtends(a[1..], [c] + b);
  }

  /** A run that stops inside `a` (or at its end, before a blank) is the same
      in `a + b`. */
  lemma {:induction false} NonSpaceRunExtends(a: string, b: string)
    requires b != [] && IsSpace(b[0])
    ensures NonSpaceRun(a + b) == NonSpaceRun(a)
    decreases |a|
  {
    if a == [] {
      assert (a + b)[0] == b[0];
    } else {
      assert (a + b)[1..] == a[1..] + b;
      if !IsSpace(a[0]) {
        NonSpaceRunExtends(a[1..], b);
      }
    }
  }

  /** The hashtag words without repeats, in order of first appearance. */
  function Tags(text: string): (r: seq<string>)
    ensures NoDuplicates(r)
    ensures forall w :: w in r <==> w in HashWords(text)
  {
    Distinct(HashWords(text))
  }

  /** The first `min(3, len(tags))` tags. */
  function FirstThree(tags: seq<string>): seq<string> {
    tags[..if |tags| < 3 then |tags| else 3]
  }

  /** The `for i in range(3)` loop that builds `genre`. */
  method Genre(tags: seq<string>) returns (genre: seq<string>)
    ensures genre == FirstThree(tags)
  {
    genre := [];
    for i := 0 to 3
      invariant genre == tags[..if |tags| < i then |tags| else i]
    {
      if |tags| > i {
        assert tags[..i + 1] == tags[..i] + [tags[i]];
        genre := genre + [tags[i]];
      }
    }
  }

  /** The first tag, if there is one. */
  function Category(tags: seq<string>): (r: Option<string>)
    ensures r.Some? <==> tags != []
    ensures r.Some? ==> r.value == tags[0]
  {
    if |tags| > 0 then Some(tags[0]) else None
  }

  /** The category is the first genre, and both exist exactly when a tag does. */
  lemma CategoryIsFirstGenre(tags: seq<string>)
    ensures FirstThree(tags) == [] <==> Category(tags) == None
    ensures FirstThree(tags) != [] ==> Category(tags) == Some(FirstThree(tags)[0])
    ensures |FirstThree(tags)| <= 3
    ensures forall k :: 0 <= k < |FirstThree(tags)| ==> FirstThree(tags)[k] == tags[k]
  {
  }

  // ---------------------------------------------------------------------------
  // Prices

  /** What a card's price becomes: None, a float, or a string. */
  datatype Price = NoPrice | Number(amount: real) | Label(text: string)

  /** The texts a pricing block offers: the old (struck-through) price, the
      amount's inner span, the amount's own text, and the tag. */
  datatype Pricing = Pricing(oldPrice: Option<string>, amountSpan: Option<string>,
                             amountText: Option<string>, tag: Option<string>)

  /** A package card: its title text, its pricing block if any, and the class
      attributes of its platform icons. */
  datatype Card = Card(title: Option<string>, pricing: Option<Pricing>, icons: seq<string>)

  /** Length of the leading run of digits. */
  function DigitRun(s: string): (n: nat)
    ensures n <= |s|
    ensures AllDigits(s[..n])
    ensures n < |s| ==> !IsDigit(s[n])
  {
    if s == [] || !IsDigit(s[0]) then 0
    else
      var n := DigitRun(s[1..]);
      assert s[..n + 1] == [s[0]] + s[1..][..n];
      n + 1
  }

  /** Digits, or digits, a dot and digits. */
  predicate IsNumeral(t: string) {
    t != [] &&
    (AllDigits(t) ||
     exists a :: 0 < a < |t| - 1 && t[a] == '.' && AllDigits(t[..a]) && AllDigits(t[a + 1..]))
  }

  /** The match of `\d+(?:\.\d+)?` that starts at the first character, a
      digit: greedy digits, then a dot and digits if a digit follows the dot. */
  function NumeralAt(s: string): (r: string)
    requires s != [] && IsDigit(s[0])
    ensures IsNumeral(r) && StartsWith(s, r)
    ensures |r| < |s| ==> !IsDigit(s[|r|])
    ensures AllDigits(r) && |r| + 1 < |s| ==> !(s[|r|] == '.' && IsDigit(s[|r| + 1]))
  {
    var a := DigitRun(s);
    if a + 1 < |s| && s[a] == '.' && IsDigit(s[a + 1]) then
      var b := DigitRun(s[a + 1..]);
      var r := s[..a + 1 + b];
      assert r[..a] == s[..a] && r[a + 1..] == s[a + 1..][..b];
      assert !AllDigits(r) by { assert !IsDigit(r[a]); }
      r
    else
      s[..a]
  }

  /** The first match of the number pattern: the numeral starting at the first
      digit, or None when there is no digit. */
  function FirstNumeral(s: string): (r: Option<string>)
    ensures r.None? <==> (forall i :: 0 <= i < |s| ==> !IsDigit(s[i]))
    ensures r.Some? ==> IsNumeral(r.value) && Contains(s, r.value)
  {
    if s == [] then None
    else if IsDigit(s[0]) then
      var r := NumeralAt(s);
      assert OccursAt(s, r, 0);
      Some(r)
    else
      var r := FirstNumeral(s[1..]);
      if r.Some? then
        var i :| 0 <= i <= |s[1..]| - |r.value| && OccursAt(s[1..], r.value, i);
        assert s == [s[0]] + s[1..];
        OccursShift([s[0]], s[1..], r.value, i);
        r
      else
        assert forall i :: 1 <= i < |s| ==> s[i] == s[1..][i - 1];
        r
  }

  /** A price found by the number pattern and read by `float`. */
  function NumberIn(s: string, parseFloat: string -> real): Option<real> {
    match FirstNumeral(s)
    case Some(n) => Some(parseFloat(n))
    case None => None
  }

  /** The classification of a chosen price text. */
  function Classify(text: string, parseFloat: string -> real): (r: Price)
    ensures r != NoPrice
  {
    var txt := Lower(Strip(text));
    if Contains(txt, "free") then Label("Free")
    else if Contains(txt, "name") then Label("Name Your Price")
    else match NumberIn(text, parseFloat)
      case Some(x) => Number(x)
      case None => Label(Strip(text))
  }

  /** The tests are case-insensitive substring tests on the text as given:
      "free" wins over "name", which wins over the first number; a text with
      none of them is kept, stripped. */
  lemma ClassifySpec(text: string, parseFloat: string -> real)
    ensures Contains(Lower(text), "free") ==> Classify(text, parseFloat) == Label("Free")
    ensures !Contains(Lower(text), "free") && Contains(Lower(text), "name")
            ==> Classify(text, parseFloat) == Label("Name Your Price")
    ensures !Contains(Lower(text), "free") && !Contains(Lower(text), "name")
            ==> Classify(text, parseFloat)
                == if NumberIn(text, parseFloat).Some? then Number(NumberIn(text, parseFloat).value)
                   else Label(Strip(text))
  {
    LowerStripContains(text, "free");
    LowerStripContains(text, "name");
  }

  /** A text without letters is never taken for "Free" or "Name Your Price". */
  lemma ClassifyWithoutLetters(text: string, parseFloat: string -> real)
    requires forall i :: 0 <= i < |text| ==> !('a' <= text[i] <= 'z') && !('A' <= text[i] <= 'Z')
    ensures Classify(text, parseFloat).Label? ==> NumberIn(text, parseFloat).None?
  {
    NoLetterNoWord(text, "free");
    NoLetterNoWord(text, "name");
    ClassifySpec(text, parseFloat);
  }

  lemma NoLetterNoWord(text: string, w: string)
    requires forall i :: 0 <= i < |text| ==> !('a' <= text[i] <= 'z') && !('A' <= text[i] <= 'Z')
    requires w != [] && 'a' <= w[0] <= 'z'
    ensures !Contains(Lower(text), w)
  {
    var l := Lower(text);
    forall i | 0 <= i <= |text| - |w|
      ensures !OccursAt(l, w, i)
    {
      assert l[i] == LowerChar(text[i]) == text[i];
      assert l[i..i + |w|][0] != w[0];
    }
  }

  /** The text a pricing block is classified by: the amount span wins over
      the amount text, which wins over the tag; empty texts do not count. */
  function PriceText(p: Pricing): (r: Option<string>)
    ensures r.None? <==> !Truthy(p.amountSpan) && !Truthy(p.amountText) && !Truthy(p.tag)
    ensures r.Some? ==> r.value != []
  {
    if Truthy(p.amountSpan) then p.amountSpan
    else if Truthy(p.amountText) then p.amountText
    else if Truthy(p.tag) then p.tag
    else None
  }

  /** The step-by-step reassignment of `price_text`: later truthy texts
      overwrite earlier ones. */
  method ChoosePriceText(p: Pricing) returns (priceText: Option<string>)
    ensures priceText == PriceText(p)
  {
    priceText := None;
    if Truthy(p.tag) {
      priceText := p.tag;
    }
    if Truthy(p.amountText) {
      priceText := p.amountText;
    }
    if Truthy(p.amountSpan) {
      priceText := p.amountSpan;
    }
  }

  /** A card's price: an old price, when present, is read as a number (or
      nothing); otherwise the chosen price text is classified. */
  function CardPrice(pricing: Option<Pricing>, parseFloat: string -> real): Price {
    match pricing
    case None => NoPrice
    case Some(p) =>
      if Truthy(p.oldPrice) then
        (match NumberIn(p.oldPrice.value, parseFloat)
         case Some(x) => Number(x)
         case None => NoPrice)
      else
        (match PriceText(p)
         case Some(t) => Classify(t, parseFloat)
         case None => NoPrice)
  }

  /** A card has no price exactly when it has no pricing block, or an old
      price without digits, or no usable price text. */
  lemma CardPriceNone(pricing: Option<Pricing>, parseFloat: string -> real)
    ensures CardPrice(pricing, parseFloat) == NoPrice <==>
            pricing.None?
            || (Truthy(pricing.value.oldPrice)
                && forall i :: 0 <= i < |pricing.value.oldPrice.value| ==> !IsDigit(pricing.value.oldPrice.value[i]))
            || (!Truthy(pricing.value.oldPrice) && !Truthy(pricing.value.amountSpan)
                && !Truthy(pricing.value.amountText) && !Truthy(pricing.value.tag))
  {
  }

  /** An old price hides every other text of the block. */
  lemma OldPriceWins(p: Pricing, q: Pricing, parseFloat: string -> real)
    requires Truthy(p.oldPrice) && q.oldPrice == p.oldPrice
    ensures CardPrice(Some(p), parseFloat) == CardPrice(Some(q), parseFloat)
    ensures CardPrice(Some(p), parseFloat).Label? == false
  {
  }

  /** A card title: stripped when present and non-empty, else None. */
  function CardTitle(title: Option<string>): Option<string> {
    if Truthy(title) then Some(Strip(title.value)) else None
  }

  // ---------------------------------------------------------------------------
  // Platforms

  const PlatformNames: seq<string> := ["windows", "mac", "linux", "html5"]

  function IconClass(name: string): string {
    "jolticon-" + name
  }

  /** The platform names, in the order of `PlatformNames`, whose icon class
      occurs in the class attribute `cls`. */
  function IconPlatforms(cls: string): (r: seq<string>)
    ensures forall p :: p in r <==> p in PlatformNames && Contains(cls, IconClass(p))
  {
    (if Contains(cls, IconClass("windows")) then ["windows"] else [])
    + (if Contains(cls, IconClass("mac")) then ["mac"] else [])
    + (if Contains(cls, IconClass("linux")) then ["linux"] else [])
    + (if Contains(cls, IconClass("html5")) then ["html5"] else [])
  }

  /** The platform names of a sequence of icons, icon by icon. */
  function IconNames(icons: seq<string>): seq<string> {
    if icons == [] then []
    else IconNames(icons[..|icons| - 1]) + IconPlatforms(icons[|icons| - 1])
  }

  /** Some icon of `icons` carries the class of platform `p`. */
  predicate CarriesIcon(icons: seq<string>, p: string) {
    exists k :: 0 <= k < |icons| && Contains(icons[k], IconClass(p))
  }

  lemma CarriesIconSnoc(icons: seq<string>, p: string)
    requires icons != []
    ensures CarriesIcon(icons, p) <==> CarriesIcon(icons[..|icons| - 1], p) || Contains(icons[|icons| - 1], IconClass(p))
  {
    var n := |icons| - 1;
    if CarriesIcon(icons, p) {
      var k :| 0 <= k < |icons| && Contains(icons[k], IconClass(p));
      if k < n {
        assert icons[..n][k] == icons[k];
      }
    }
    if CarriesIcon(icons[..n], p) {
      var k :| 0 <= k < n && Contains(icons[..n][k], IconClass(p));
      assert icons[..n][k] == icons[k];
    }
  }

  lemma {:induction false} IconNamesMembers(icons: seq<string>)
    ensures forall p :: p in IconNames(icons) <==> p in PlatformNames && CarriesIcon(icons, p)
  {
    if icons != [] {
      var n := |icons| - 1;
      IconNamesMembers(icons[..n]);
      forall p
        ensures p in IconNames(icons) <==> p in PlatformNames && CarriesIcon(icons, p)
      {
        CarriesIconSnoc(icons, p);
      }
    }
  }

  /** One icon's four membership-checked appends. */
  function NoteIcon(platforms: seq<string>, cls: string): seq<string> {
    var p1 := if Contains(cls, IconClass("windows")) then Note(platforms, "windows") else platforms;
    var p2 := if Contains(cls, IconClass("mac")) then Note(p1, "mac") else p1;
    var p3 := if Contains(cls, IconClass("linux")) then Note(p2, "linux") else p2;
    if Contains(cls, IconClass("html5")) then Note(p3, "html5") else p3
  }

  /** The platform list after a sequence of icons, from an empty list. */
  function Platforms(icons: seq<string>): seq<string> {
    if icons == [] then []
    else NoteIcon(Platforms(icons[..|icons| - 1]), icons[|icons| - 1])
  }

  lemma NoteSingle(seen: seq<string>, x: string)
    ensures NoteAll(seen, [x]) == Note(seen, x)
  {
    assert [x][..0] == [];
  }

  /** One icon notes its platform names in the order of `PlatformNames`. */
  lemma NoteIconSpec(platforms: seq<string>, cls: string)
    ensures NoteIcon(platforms, cls) == NoteAll(platforms, IconPlatforms(cls))
  {
    var w := if Contains(cls, IconClass("windows")) then ["windows"] else [];
    var m := if Contains(cls, IconClass("mac")) then ["mac"] else [];
    var l := if Contains(cls, IconClass("linux")) then ["linux"] else [];
    var h := if Contains(cls, IconClass("html5")) then ["html5"] else [];
    assert IconPlatforms(cls) == w + (m + (l + h));
    NoteAllAppend(platforms, w, m + (l + h));
    NoteAllAppend(NoteAll(platforms, w), m, l + h);
    NoteAllAppend(NoteAll(NoteAll(platforms, w), m), l, h);
    NoteSingle(platforms, "windows");
    NoteSingle(NoteAll(platforms, w), "mac");
    NoteSingle(NoteAll(NoteAll(platforms, w), m), "linux");
    NoteSingle(NoteAll(NoteAll(NoteAll(platforms, w), m), l), "html5");
  }

  lemma {:induction false} PlatformsNoteAll(icons: seq<string>)
    ensures Platforms(icons) == NoteAll([], IconNames(icons))
  {
    if icons != [] {
      var n := |icons| - 1;
      PlatformsNoteAll(icons[..n]);
      NoteIconSpec(Platforms(icons[..n]), icons[n]);
      NoteAllAppend([], IconNames(icons[..n]), IconPlatforms(icons[n]));
    }
  }

  /** The platform list is the icons' platform names without repeats, in
      order of first appearance: each known platform at most once, present
      exactly when one of the icons carries its class. */
  lemma PlatformsSpec(icons: seq<string>)
    ensures Platforms(icons) == Distinct(IconNames(icons))
    ensures NoDuplicates(Platforms(icons))
    ensures forall p :: p in Platforms(icons) <==> p in PlatformNames && CarriesIcon(icons, p)
  {
    PlatformsNoteAll(icons);
    NoteAllDistinct([], IconNames(icons));
    IconNamesMembers(icons);
  }

  /** All icons of a sequence of cards, card by card. */
  function AllIcons(cards: seq<Card>): seq<string> {
    if cards == [] then [] else AllIcons(cards[..|cards| - 1]) + cards[|cards| - 1].icons
  }

  lemma AllIconsSnoc(cards: seq<Card>, i: nat)
    requires i < |cards|
    ensures AllIcons(cards[..i + 1]) == AllIcons(cards[..i]) + cards[i].icons
  {
    assert cards[..i + 1][..i] == cards[..i];
  }

  /** A card's `{card_title: price}` entry. */
  function CardEntry(card: Card, parseFloat: string -> real): (Option<string>, Price) {
    (CardTitle(card.title), CardPrice(card.pricing, parseFloat))
  }

  /** The card loop: one `{card_title: price}` entry per card, and the
      platform list grown icon by icon with membership checks. */
  method ScrapeCards(cards: seq<Card>, parseFloat: string -> real)
    returns (prices: seq<(Option<string>, Price)>, platforms: seq<string>)
    ensures |prices| == |cards|
    ensures forall k :: 0 <= k < |cards| ==> prices[k] == CardEntry(cards[k], parseFloat)
    ensures platforms == Platforms(AllIcons(cards))
  {
    prices := [];
    platforms := [];
    for i := 0 to |cards|
      invariant |prices| == i
      invariant forall k :: 0 <= k < i ==> prices[k] == CardEntry(cards[k], parseFloat)
      invariant platforms == Platforms(AllIcons(cards[..i]))
    {
      var card := cards[i];
      var price := ReadCardPrice(card.pricing, parseFloat);
      prices := prices + [(CardTitle(card.title), price)];
      platforms := NoteCardIcons(platforms, AllIcons(cards[..i]), card.icons);
      AllIconsSnoc(cards, i);
    }
    assert cards[..|cards|] == cards;
  }

  /** The price of one card, with `price_text` chosen step by step. */
  method ReadCardPrice(pricing: Option<Pricing>, parseFloat: string -> real) returns (price: Price)
    ensures price == CardPrice(pricing, parseFloat)
  {
    price := NoPrice;
    if pricing.Some? {
      var p := pricing.value;
      if Truthy(p.oldPrice) {
        var m := FirstNumeral(p.oldPrice.value);
        if m.Some? {
          price := Number(parseFloat(m.value));
        }
      } else {
        var priceText := ChoosePriceText(p);
        if Truthy(priceText) {
          price := Classify(priceText.value, parseFloat);
        }
      }
    }
  }

  /** The inner loop over one card's icons. */
  method NoteCardIcons(platforms0: seq<string>, before: seq<string>, icons: seq<string>)
    returns (platforms: seq<string>)
    requires platforms0 == Platforms(before)
    ensures platforms == Platforms(before + icons)
  {
    platforms := platforms0;
    var j := 0;
    assert before + icons[..j] == before;
    while j < |icons|
      invariant 0 <= j <= |icons|
      invariant platforms == Platforms(before + icons[..j])
    {
      platforms := NoteIconStep(platforms, icons[j]);
      assert (before + icons[..j + 1])[..|before + icons[..j + 1]| - 1] == before + icons[..j];
      j := j + 1;
    }
    assert icons[..j] == icons;
  }

  /** The four checks of one icon's class attribute. */
  method NoteIconStep(platforms0: seq<string>, cls: string) returns (platforms: seq<string>)
    ensures platforms == NoteIcon(platforms0, cls)
  {
    platforms := platforms0;
    if Contains(cls, IconClass("windows")) && "windows" !in platforms {
      platforms := platforms + ["windows"];
    }
    if Contains(cls, IconClass("mac")) && "mac" !in platforms {
      platforms := platforms + ["mac"];
    }
    if Contains(cls, IconClass("linux")) && "linux" !in platforms {
      platforms := platforms + ["linux"];
    }
    if Contains(cls, IconClass("html5")) && "html5" !in platforms {
      platforms := platforms + ["html5"];
    }
  }

  // ---------------------------------------------------------------------------
  // URLs

  /** A media-bar item: whether it shows the play icon, and its image source. */
  datatype MediaItem = MediaItem(isVideo: bool, src: Option<string>)

  const ScreenshotMarker := "game-screenshot"

  /** A kept image source, stripped, with `https:` in front of a
      protocol-relative URL. */
  function ScreenshotUrl(src: string): string {
    var s := Strip(src);
    if StartsWith(s, "//") then "https:" + s else s
  }

  lemma PrefixKeepsContains(p: string, s: string, w: string)
    requires Contains(s, w)
    ensures Contains(p + s, w)
  {
    var i :| 0 <= i <= |s| - |w| && OccursAt(s, w, i);
    OccursShift(p, s, w, i);
  }

  lemma ScreenshotUrlSpec(src: string)
    requires Contains(src, ScreenshotMarker)
    ensures Contains(ScreenshotUrl(src), ScreenshotMarker)
    ensures !StartsWith(ScreenshotUrl(src), "//")
  {
    StripContains(src, ScreenshotMarker);
    var s := Strip(src);
    if StartsWith(s, "//") {
      var u := "https:" + s;
      assert ScreenshotUrl(src) == u;
      PrefixKeepsContains("https:", s, ScreenshotMarker);
      assert u[..2][0] == 'h';
    } else {
      assert ScreenshotUrl(src) == s;
    }
  }

  predicate KeepsImage(item: MediaItem) {
    !item.isVideo && Truthy(item.src) && Contains(item.src.value, ScreenshotMarker)
  }

  /** The images of the media bar, in order. */
  function Screenshots(items: seq<MediaItem>): (r: seq<string>)
    ensures |r| <= |items|
    ensures forall k :: 0 <= k < |r| ==> Contains(r[k], ScreenshotMarker) && !StartsWith(r[k], "//")
  {
    if items == [] then []
    else
      var n := |items| - 1;
      var r := Screenshots(items[..n]);
      if KeepsImage(items[n]) then
        ScreenshotUrlSpec(items[n].src.value);
        r + [ScreenshotUrl(items[n].src.value)]
      else r
  }

  /** The number of items whose image is kept, counted from the front. */
  function KeptImageCount(items: seq<MediaItem>): nat {
    if items == [] then 0
    else (if KeepsImage(items[0]) then 1 else 0) + KeptImageCount(items[1..])
  }

  lemma {:induction false} KeptImageCountSnoc(items: seq<MediaItem>, x: MediaItem)
    ensures KeptImageCount(items + [x]) == KeptImageCount(items) + (if KeepsImage(x) then 1 else 0)
  {
    if items != [] {
      assert (items + [x])[1..] == items[1..] + [x];
      KeptImageCountSnoc(items[1..], x);
    }
  }

  /** Every marked non-video image adds exactly one entry. */
  lemma {:induction false} ScreenshotsCount(items: seq<MediaItem>)
    ensures |Screenshots(items)| == KeptImageCount(items)
  {
    if items != [] {
      var n := |items| - 1;
      ScreenshotsCount(items[..n]);
      assert items == items[..n] + [items[n]];
      KeptImageCountSnoc(items[..n], items[n]);
    }
  }

  /** The image of every marked non-video item is in the result. */
  lemma {:induction false} ScreenshotsComplete(items: seq<MediaItem>, k: int)
    requires 0 <= k < |items| && KeepsImage(items[k])
    ensures ScreenshotUrl(items[k].src.value) in Screenshots(items)
  {
    var n := |items| - 1;
    if k < n {
      assert items[..n][k] == items[k];
      ScreenshotsComplete(items[..n], k);
    }
  }

  method CollectScreenshots(items: seq<MediaItem>) returns (images: seq<string>)
    ensures images == Screenshots(items)
  {
    images := [];
    for i := 0 to |items|
      invariant images == Screenshots(items[..i])
    {
      var item := items[i];
      assert items[..i + 1][..i] == items[..i];
      if !item.isVideo {
        var src := item.src;
        if Truthy(src) && Contains(src.value, ScreenshotMarker) {
          var s := Strip(src.value);
          if StartsWith(s, "//") {
            s := "https:" + s;
          }
          images := images + [s];
        }
      }
    }
    assert items[..|items|] == items;
  }

  const BaseUrl := "https://gamejolt.com"

  /** A `/`-rooted game link with the site base in front; any other link
      is kept as it is. */
  function FixGameUrl(u: string): (r: string)
    ensures EndsWith(r, u)
    ensures !StartsWith(r, "/")
    ensures StartsWith(u, "/") ==> StartsWith(r, BaseUrl)
  {
    if StartsWith(u, "/") then
      assert (BaseUrl + u)[|BaseUrl + u| - |u|..] == u;
      assert (BaseUrl + u)[0] == 'h' && (BaseUrl + u)[..|BaseUrl|] == BaseUrl;
      BaseUrl + u
    else u
  }

  lemma FixGameUrlIdempotent(u: string)
    ensures FixGameUrl(FixGameUrl(u)) == FixGameUrl(u)
  {
  }

  /** A game-list item: its title link and its thumbnail source. */
  datatype GameItem = GameItem(url: Option<string>, thumbnail: Option<string>)

  datatype Game = Game(url: string, thumbnail: string)

  /** The games of a list page: items without a link or a thumbnail are
      skipped; a `/`-rooted link gets the site base. */
  function ListedGames(items: seq<GameItem>): (r: seq<Game>)
    ensures |r| <= |items|
    ensures forall k :: 0 <= k < |r| ==> r[k].url != [] && !StartsWith(r[k].url, "/") && r[k].thumbnail != []
  {
    if items == [] then []
    else
      var n := |items| - 1;
      var r := ListedGames(items[..n]);
      var item := items[n];
      if KeepsGame(item) then r + [Game(FixGameUrl(item.url.value), item.thumbnail.value)]
      else r
  }

  predicate KeepsGame(item: GameItem) {
    Truthy(item.url) && Truthy(item.thumbnail)
  }

  /** The number of items with a link and a thumbnail, counted from the front. */
  function KeptGameCount(items: seq<GameItem>): nat {
    if items == [] then 0
    else (if KeepsGame(items[0]) then 1 else 0) + KeptGameCount(items[1..])
  }

  lemma {:induction false} KeptGameCountSnoc(items: seq<GameItem>, x: GameItem)
    ensures KeptGameCount(items + [x]) == KeptGameCount(items) + (if KeepsGame(x) then 1 else 0)
  {
    if items != [] {
      assert (items + [x])[1..] == items[1..] + [x];
      KeptGameCountSnoc(items[1..], x);
    }
  }

  /** Every item with a truthy link and thumbnail adds exactly one game. */
  lemma {:induction false} ListedGamesCount(items: seq<GameItem>)
    ensures |ListedGames(items)| == KeptGameCount(items)
  {
    if items != [] {
      var n := |items| - 1;
      ListedGamesCount(items[..n]);
      assert items == items[..n] + [items[n]];
      KeptGameCountSnoc(items[..n], items[n]);
    }
  }

  /** The game of every item with a link and a thumbnail is in the result. */
  lemma {:induction false} ListedGamesComplete(items: seq<GameItem>, k: int)
    requires 0 <= k < |items| && KeepsGame(items[k])
    ensures Game(FixGameUrl(items[k].url.value), items[k].thumbnail.value) in ListedGames(items)
  {
    var n := |items| - 1;
    if k < n {
      assert items[..n][k] == items[k];
      ListedGamesComplete(items[..n], k);
    }
  }

  method CollectGames(items: seq<GameItem>) returns (games: seq<Game>)
    ensures games == ListedGames(items)
  {
    games := [];
    for i := 0 to |items|
      invariant games == ListedGames(items[..i])
    {
      var item := items[i];
      assert items[..i + 1][..i] == items[..i];
      if !Truthy(item.url) {
        continue;
      }
      var url := item.url.value;
      if StartsWith(url, "/") {
        url := BaseUrl + url;
      }
      if !Truthy(item.thumbnail) {
        continue;
      }
      games := games + [Game(url, item.thumbnail.value)];
    }
    assert items[..|items|] == items;
  }
}
