/** Option type standing for Python's `None`-or-value. */
module Wrappers {
  datatype Option<+T> = None | Some(value: T)
}

/** Character classes and string helpers shared by the parser and the scrapers.
    Strings are sequences of characters; only the ASCII part of Python's and
    JavaScript's case mapping and whitespace classes is modelled. */
module Text {

  /** Whitespace as Python's `str.split()` and `str.strip()` see it (ASCII range). */
  predicate IsSpace(c: char) {
    c == ' ' || c == '\t' || c == '\n' || c == '\r'
    || c as int == 0x0b || c as int == 0x0c || 0x1c <= c as int <= 0x1f
  }

  /** The characters of Python's `string.punctuation`. */
  const Punctuation: string := "!\"#$%&'()*+,-./:;<=>?@[\\]^_`{|}~"

  predicate IsPunctuation(c: char) {
    c in Punctuation
  }

  predicate IsDigit(c: char) {
    '0' <= c <= '9'
  }

  predicate AllDigits(s: string) {
    forall i :: 0 <= i < |s| ==> IsDigit(s[i])
  }

  function LowerChar(c: char): (r: char)
    ensures 'A' <= c <= 'Z' ==> r as int == c as int + 32
    ensures !('A' <= c <= 'Z') ==> r == c
  {
    if 'A' <= c <= 'Z' then (c as int + 32) as char else c
  }

  predicate IsLower(s: string) {
    forall i :: 0 <= i < |s| ==> !('A' <= s[i] <= 'Z')
  }

  /** `str.lower()` / `String.prototype.toLowerCase()` on ASCII letters. */
  function Lower(s: string): (r: string)
    ensures |r| == |s|
    ensures forall i :: 0 <= i < |s| ==> r[i] == LowerChar(s[i])
    ensures IsLower(r)
  {
    seq(|s|, i requires 0 <= i < |s| => LowerChar(s[i]))
  }

  predicate StartsWith(s: string, prefix: string) {
    |prefix| <= |s| && s[..|prefix|] == prefix
  }

  predicate EndsWith(s: string, suffix: string) {
    |suffix| <= |s| && s[|s| - |suffix|..] == suffix
  }

  /** `sub` occurs in `s` starting at position `i`. */
  predicate OccursAt(s: string, sub: string, i: int) {
    0 <= i && i + |sub| <= |s| && s[i..i + |sub|] == sub
  }

  /** `sub in s` for strings: `sub` occurs at some position of `s`. */
  predicate Contains(s: string, sub: string) {
    exists i :: 0 <= i <= |s| - |sub| && OccursAt(s, sub, i)
  }

  /** A computable test equivalent to `Contains`. */
  function ContainsAt(s: string, sub: string, from: nat): (r: bool)
    requires from <= |s|
    ensures r <==> exists i :: from <= i && OccursAt(s, sub, i)
    decreases |s| - from
  {
    if |s| - from < |sub| then false
    else if s[from..from + |sub|] == sub then assert OccursAt(s, sub, from); true
    else ContainsAt(s, sub, from + 1)
  }

  /** Number of leading whitespace characters of `s`. */
  function LeadingSpace(s: string): (n: nat)
    ensures n <= |s|
    ensures forall i :: 0 <= i < n ==> IsSpace(s[i])
    ensures n < |s| ==> !IsSpace(s[n])
  {
    if |s| == 0 || !IsSpace(s[0]) then 0 else 1 + LeadingSpace(s[1..])
  }

  /** Number of trailing whitespace characters of `s`. */
  function TrailingSpace(s: string): (n: nat)
    ensures n <= |s|
    ensures forall i :: |s| - n <= i < |s| ==> IsSpace(s[i])
    ensures n < |s| ==> !IsSpace(s[|s| - n - 1])
  {
    if |s| == 0 || !IsSpace(s[|s| - 1]) then 0 else 1 + TrailingSpace(s[..|s| - 1])
  }

  /** Python's `str.strip()`: drop leading and trailing whitespace. */
  function Strip(s: string): (r: string)
    ensures |r| <= |s|
    ensures r == [] || (!IsSpace(r[0]) && !IsSpace(r[|r| - 1]))
  {
    var t := s[LeadingSpace(s)..];
    t[..|t| - TrailingSpace(t)]
  }

  /** Python's `str.split(sep)` for a single-character separator: the pieces
      between consecutive separators (empty pieces included). */
  function SplitOn(s: string, sep: char): (r: seq<string>)
    ensures |r| >= 1
    ensures forall k :: 0 <= k < |r| ==> sep !in r[k]
    ensures sep !in s ==> r == [s]
  {
    if sep !in s then [s]
    else
      var i := IndexOf(s, sep);
      [s[..i]] + SplitOn(s[i + 1..], sep)
  }

  /** Position of the first occurrence of `c` in `s`. */
  function IndexOf(s: string, c: char): (i: nat)
    requires c in s
    ensures i < |s| && s[i] == c && c !in s[..i]
  {
    if s[0] == c then 0 else 1 + IndexOf(s[1..], c)
  }

  /** The part of `s` before the first `sep`, i.e. `s.split(sep, 1)[0]`. */
  function Before(s: string, sep: char): (r: string)
    ensures sep !in r
    ensures StartsWith(s, r)
    ensures |r| < |s| ==> s[|r|] == sep
    ensures sep !in s ==> r == s
  {
    if sep in s then s[..IndexOf(s, sep)] else s
  }

  /** Python's `sep.join(parts)`. */
  function Join(parts: seq<string>, sep: string): (r: string)
    ensures parts == [] ==> r == []
    ensures |parts| == 1 ==> r == parts[0]
  {
    if |parts| == 0 then []
    else if |parts| == 1 then parts[0]
    else parts[0] + sep + Join(parts[1..], sep)
  }

  /** `Join` is empty exactly when every part is empty, for a non-empty separator. */
  lemma {:induction false} JoinEmpty(parts: seq<string>, sep: string)
    requires sep != []
    ensures Join(parts, sep) == [] <==> (|parts| <= 1 && forall k :: 0 <= k < |parts| ==> parts[k] == [])
  {
    if |parts| > 1 {
      assert |Join(parts, sep)| >= |sep|;
    }
  }

  /** `s.replace(x, y)` for single characters. */
  function ReplaceChar(s: string, x: char, y: char): (r: string)
    ensures |r| == |s|
    ensures forall i :: 0 <= i < |s| ==> r[i] == if s[i] == x then y else s[i]
  {
    seq(|s|, i requires 0 <= i < |s| => if s[i] == x then y else s[i])
  }
}

/** Order-preserving sequence utilities: deduplication, counting, sums. */
module Seqs {

  /** The first component of each pair, in order. */
  function Firsts<A, B>(ps: seq<(A, B)>): (r: seq<A>)
    ensures |r| == |ps| && forall i :: 0 <= i < |ps| ==> r[i] == ps[i].0
  {
    seq(|ps|, i requires 0 <= i < |ps| => ps[i].0)
  }

  /** The elements of `s` without repeats, in order of first appearance
      (Python's `list(dict.fromkeys(s))`). */
  function Distinct<T(==,!new)>(s: seq<T>): (r: seq<T>)
    ensures forall x :: x in r <==> x in s
    ensures NoDuplicates(r)
    ensures |r| <= |s|
  {
    DistinctFrom([], s)
  }

  /** `seen` extended by the elements of `s` not yet in it, in first-appearance order. */
  function DistinctFrom<T(==,!new)>(seen: seq<T>, s: seq<T>): (r: seq<T>)
    requires NoDuplicates(seen)
    ensures forall x :: x in r <==> x in seen || x in s
    ensures NoDuplicates(r)
    ensures |seen| <= |r| <= |seen| + |s| && r[..|seen|] == seen
    decreases |s|
  {
    if s == [] then seen
    else if s[0] in seen then
      var r := DistinctFrom(seen, s[1..]);
      assert forall x :: x in s <==> x == s[0] || x in s[1..];
      r
    else
      var seen' := seen + [s[0]];
      var r := DistinctFrom(seen', s[1..]);
      assert r[..|seen|] == r[..|seen'|][..|seen|];
      assert r[|seen|] == s[0];
      assert forall x :: x in s <==> x == s[0] || x in s[1..];
      r
  }

  /** Append `x` unless it is already there: one step of first-appearance
      deduplication. */
  function Note<T(==)>(s: seq<T>, x: T): seq<T> {
    if x in s then s else s + [x]
  }

  /** `Note` applied to each element of `s` in turn, starting from `seen`. */
  function NoteAll<T(==)>(seen: seq<T>, s: seq<T>): seq<T> {
    if s == [] then seen else Note(NoteAll(seen, s[..|s| - 1]), s[|s| - 1])
  }

  lemma {:induction false} NoteAllAppend<T>(seen: seq<T>, a: seq<T>, b: seq<T>)
    ensures NoteAll(seen, a + b) == NoteAll(NoteAll(seen, a), b)
    decreases |b|
  {
    if b == [] {
      assert a + b == a;
    } else {
      assert (a + b)[..|a + b| - 1] == a + b[..|b| - 1];
      NoteAllAppend(seen, a, b[..|b| - 1]);
    }
  }

  /** `DistinctFrom` grows one element at a time. */
  lemma {:induction false} DistinctFromSnoc<T(!new)>(seen: seq<T>, a: seq<T>, x: T)
    requires NoDuplicates(seen)
    ensures DistinctFrom(seen, a + [x]) == Note(DistinctFrom(seen, a), x)
    decreases |a|
  {
    if a == [] {
      assert [x][1..] == [];
    } else {
      assert (a + [x])[1..] == a[1..] + [x];
      if a[0] in seen {
        DistinctFromSnoc(seen, a[1..], x);
      } else {
        DistinctFromSnoc(seen + [a[0]], a[1..], x);
      }
    }
  }

  /** Noting elements one by one is first-appearance deduplication. */
  lemma {:induction false} NoteAllDistinct<T(!new)>(seen: seq<T>, s: seq<T>)
    requires NoDuplicates(seen)
    ensures NoteAll(seen, s) == DistinctFrom(seen, s)
    decreases |s|
  {
    if s != [] {
      var n := |s| - 1;
      NoteAllDistinct(seen, s[..n]);
      assert s == s[..n] + [s[n]];
      DistinctFromSnoc(seen, s[..n], s[n]);
    }
  }

  /** No element occurs twice: each element is absent from the part before it.
      Stated recursively so that it does not unfold into a pairwise quantifier
      wherever it is known; `NoDuplicatesAt` gives the pairwise reading. */
  predicate NoDuplicates<T(==)>(s: seq<T>) {
    s == [] || (s[|s| - 1] !in s[..|s| - 1] && NoDuplicates(s[..|s| - 1]))
  }

  lemma {:induction false} NoDuplicatesAt<T>(s: seq<T>, i: int, j: int)
    requires NoDuplicates(s) && 0 <= i < j < |s|
    ensures s[i] != s[j]
  {
    var n := |s| - 1;
    if j == n {
      assert s[i] == s[..n][i];
    } else {
      NoDuplicatesAt(s[..n], i, j);
    }
  }

  /** A duplicate-free sequence shares no element between its two parts. */
  lemma NoDuplicatesSplit<T>(s: seq<T>, k: int, x: T)
    requires NoDuplicates(s) && 0 <= k <= |s| && x in s[..k]
    ensures x !in s[k..]
  {
    var i :| 0 <= i < k && s[..k][i] == x;
    if x in s[k..] {
      var j :| 0 <= j < |s| - k && s[k..][j] == x;
      NoDuplicatesAt(s, i, k + j);
    }
  }

  /** The concatenation of the sequences of `xss`, in order. */
  function Concat<T>(xss: seq<seq<T>>): seq<T> {
    if xss == [] then [] else Concat(xss[..|xss| - 1]) + xss[|xss| - 1]
  }

  /** Number of occurrences of `x` in `s` (Python's `Counter(s)[x]`). */
  function Count<T(==)>(s: seq<T>, x: T): (n: nat)
    ensures n <= |s|
    ensures n == 0 <==> x !in s
  {
    if s == [] then 0 else (if s[0] == x then 1 else 0) + Count(s[1..], x)
  }

  lemma {:induction false} CountAppend<T>(a: seq<T>, b: seq<T>, x: T)
    ensures Count(a + b, x) == Count(a, x) + Count(b, x)
  {
    if a != [] {
      assert (a + b)[1..] == a[1..] + b;
      CountAppend(a[1..], b, x);
    } else {
      assert a + b == b;
    }
  }

  function Sum(s: seq<int>): int {
    if s == [] then 0 else s[0] + Sum(s[1..])
  }

  lemma {:induction false} SumAppend(a: seq<int>, b: seq<int>)
    ensures Sum(a + b) == Sum(a) + Sum(b)
  {
    if a != [] {
      assert (a + b)[1..] == a[1..] + b;
      SumAppend(a[1..], b);
    } else {
      assert a + b == b;
    }
  }

  /** The counts of the distinct elements of `s` add up to `|s|`: the per-document
      frequencies that a word counter produces sum to the document's length. */
  lemma {:induction false} CountsSumToLength<T(!new)>(s: seq<T>)
    ensures Sum(Counts(Distinct(s), s)) == |s|
  {
    CountsOverDistinctFrom([], s);
    CountInNone(s);
    assert DistinctFrom([], s)[0..] == Distinct(s);
  }

  lemma {:induction false} CountInNone<T>(s: seq<T>)
    ensures CountIn(s, []) == 0
  {
    if s != [] { CountInNone(s[1..]); }
  }

  function Counts<T(==)>(keys: seq<T>, s: seq<T>): (r: seq<int>)
    ensures |r| == |keys|
    ensures forall i :: 0 <= i < |keys| ==> r[i] == Count(s, keys[i])
  {
    if keys == [] then [] else [Count(s, keys[0])] + Counts(keys[1..], s)
  }

  /** Counting over `DistinctFrom(seen, s)`: the keys beyond `seen` account for
      exactly the elements of `s` not already in `seen`. */
  lemma {:induction false} CountsOverDistinctFrom<T(!new)>(seen: seq<T>, s: seq<T>)
    requires NoDuplicates(seen)
    ensures var r := DistinctFrom(seen, s);
      Sum(Counts(r[|seen|..], s)) == |s| - CountIn(s, seen)
    decreases |s|
  {
    var r := DistinctFrom(seen, s);
    if s == [] {
    } else if s[0] in seen {
      CountsOverDistinctFrom(seen, s[1..]);
      CountsShift(r[|seen|..], s);
      NoDuplicatesSplit(r, |seen|, s[0]);
    } else {
      var seen' := seen + [s[0]];
      CountsOverDistinctFrom(seen', s[1..]);
      assert r == DistinctFrom(seen', s[1..]);
      assert r[..|seen'|] == seen';
      var tail := r[|seen'|..];
      assert r[|seen|..] == [s[0]] + tail;
      NoDuplicatesSplit(r, |seen'|, s[0]);
      CountsFreshHead(tail, s);
      CountInExtend(s[1..], seen, s[0]);
      assert Count(s, s[0]) == 1 + Count(s[1..], s[0]);
    }
  }

  lemma CountsFreshHead<T>(tail: seq<T>, s: seq<T>)
    requires s != [] && s[0] !in tail
    ensures Sum(Counts([s[0]] + tail, s)) == Count(s, s[0]) + Sum(Counts(tail, s[1..]))
  {
    assert ([s[0]] + tail)[1..] == tail;
    CountsShift(tail, s);
  }

  /** Number of elements of `s` that belong to `keys`. */
  function CountIn<T(==)>(s: seq<T>, keys: seq<T>): nat {
    if s == [] then 0 else (if s[0] in keys then 1 else 0) + CountIn(s[1..], keys)
  }

  /** Dropping the head of `s` lowers each count by one exactly for the head's key. */
  lemma {:induction false} CountsShift<T>(keys: seq<T>, s: seq<T>)
    requires s != []
    ensures Sum(Counts(keys, s)) == Sum(Counts(keys, s[1..])) + (if s[0] in keys then Count(keys, s[0]) else 0)
  {
    if keys != [] {
      CountsShift(keys[1..], s);
      assert keys == [keys[0]] + keys[1..];
    }
  }

  lemma {:induction false} CountInExtend<T>(s: seq<T>, seen: seq<T>, x: T)
    ensures CountIn(s, seen + [x]) == CountIn(s, seen) + Count(s, x) - (if x in seen then Count(s, x) else 0)
  {
    if s != [] {
      CountInExtend(s[1..], seen, x);
    }
  }
}
