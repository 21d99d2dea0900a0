/** The base class shared by the scrapers: the robots.txt reader and the
    append-if-absent save of a scraped game into its collection file. The HTTP
    client, the file system and SHA-256 are parameters. */
module Source {
  import opened Wrappers
  import opened Text
  import opened Seqs
  import opened InvertedIndex

  // ---------------------------------------------------------------------------
  // robots.txt

  /** Characters on which `str.splitlines` breaks a text. */
  predicate IsLineBreak(c: char) {
    c == '\n' || c == '\r' || c == '\U{000B}' || c == '\U{000C}'
    || c == '\U{001C}' || c == '\U{001D}' || c == '\U{001E}'
    || c == '\U{0085}' || c == '\U{2028}' || c == '\U{2029}'
  }

  /** The lines of a text: every line-break character ends a line. */
  function Lines(text: string): (r: seq<string>)
    ensures |r| >= 1
  {
    if text == [] then [[]]
    else
      var rest := Lines(text[1..]);
      if IsLineBreak(text[0]) then [[]] + rest
      else [[text[0]] + rest[0]] + rest[1..]
  }

  /** A text without line breaks is one line, itself. */
  lemma {:induction false} LinesWord(w: string)
    requires forall i :: 0 <= i < |w| ==> !IsLineBreak(w[i])
    ensures Lines(w) == [w]
  {
    if w != [] {
      LinesWord(w[1..]);
      assert [w[0]] + w[1..] == w;
    }
  }

  /** A line break ends a line: the text on each side is cut into lines
      apart, and the lines keep their order. */
  lemma {:induction false} LinesAtBreak(a: string, c: char, b: string)
    requires IsLineBreak(c)
    ensures Lines(a + [c] + b) == Lines(a) + Lines(b)
  {
    var s := a + [c] + b;
    if a == [] {
      assert s == [c] + b && s[1..] == b;
    } else {
      assert s[0] == a[0] && s[1..] == a[1..] + [c] + b;
      LinesAtBreak(a[1..], c, b);
      var front := Lines(a[1..]);
      assert Lines(s[1..]) == front + Lines(b);
      if !IsLineBreak(a[0]) {
        assert (front + Lines(b))[0] == front[0];
        assert (front + Lines(b))[1..] == front[1..] + Lines(b);
      }
    }
  }

  /** No line holds a line-break character. */
  lemma {:induction false} LinesHaveNoBreaks(text: string)
    ensures forall k, i :: 0 <= k < |Lines(text)| && 0 <= i < |Lines(text)[k]| ==> !IsLineBreak(Lines(text)[k][i])
  {
    if text != [] {
      LinesHaveNoBreaks(text[1..]);
      var rest := Lines(text[1..]);
      if !IsLineBreak(text[0]) {
        var first := [text[0]] + rest[0];
        forall i | 0 <= i < |first| ensures !IsLineBreak(first[i]) {
          if i > 0 { assert first[i] == rest[0][i - 1]; }
        }
      }
    }
  }

  const SitemapPrefix := "Sitemap:"
  const DisallowPrefix := "Disallow:"

  /** The value of a `prefix` record: the trimmed line starts with `prefix` and
      the trimmed rest is not empty. */
  function Field(line: string, prefix: string): Option<string> {
    var l := Strip(line);
    if StartsWith(l, prefix) && Strip(l[|prefix|..]) != [] then Some(Strip(l[|prefix|..])) else None
  }

  /** The record values of the lines, one per line. */
  function Fields(lines: seq<string>, prefix: string): (r: seq<Option<string>>)
    ensures |r| == |lines| && forall i :: 0 <= i < |lines| ==> r[i] == Field(lines[i], prefix)
  {
    seq(|lines|, i requires 0 <= i < |lines| => Field(lines[i], prefix))
  }

  lemma FieldsAppend(a: seq<string>, b: seq<string>, prefix: string)
    ensures Fields(a + b, prefix) == Fields(a, prefix) + Fields(b, prefix)
  {
    assert forall i :: 0 <= i < |a + b| ==> (a + b)[i] == if i < |a| then a[i] else b[i - |a|];
  }

  /** The present values, in order. */
  function Somes(xs: seq<Option<string>>): seq<string> {
    if xs == [] then []
    else
      var n := |xs| - 1;
      Somes(xs[..n]) + (if xs[n].Some? then [xs[n].value] else [])
  }

  /** The last present value, if any. */
  function LastSome(xs: seq<Option<string>>): Option<string> {
    if xs == [] then None
    else
      var n := |xs| - 1;
      if xs[n].Some? then xs[n] else LastSome(xs[..n])
  }

  /** The `Disallow:` values of the lines, in file order. */
  function DisallowPaths(lines: seq<string>): seq<string> {
    Somes(Fields(lines, DisallowPrefix))
  }

  /** The last `Sitemap:` value of the lines, if any. */
  function LastSitemap(lines: seq<string>): Option<string> {
    LastSome(Fields(lines, SitemapPrefix))
  }

  lemma {:induction false} SomesAppend(a: seq<Option<string>>, b: seq<Option<string>>)
    ensures Somes(a + b) == Somes(a) + Somes(b)
    decreases |b|
  {
    if b != [] {
      var n := |b| - 1;
      assert (a + b)[..|a| + n] == a + b[..n];
      assert (a + b)[|a| + n] == b[n];
      SomesAppend(a, b[..n]);
      assert Somes(a + b) == Somes(a + b[..n]) + (if b[n].Some? then [b[n].value] else []);
    } else {
      assert a + b == a;
    }
  }

  /** Reading two parts of a file one after the other collects the paths of
      both parts in order. */
  lemma DisallowPathsAppend(a: seq<string>, b: seq<string>)
    ensures DisallowPaths(a + b) == DisallowPaths(a) + DisallowPaths(b)
  {
    FieldsAppend(a, b, DisallowPrefix);
    SomesAppend(Fields(a, DisallowPrefix), Fields(b, DisallowPrefix));
  }

  /** The present values are exactly the values of the present entries: each
      one comes from some entry, and each present entry contributes its value. */
  lemma {:induction false} SomesSpec(xs: seq<Option<string>>)
    ensures forall k :: 0 <= k < |Somes(xs)| ==> exists i :: 0 <= i < |xs| && xs[i] == Some(Somes(xs)[k])
    ensures forall i :: 0 <= i < |xs| && xs[i].Some? ==> xs[i].value in Somes(xs)
  {
    if xs != [] {
      var n := |xs| - 1;
      var init := xs[..n];
      SomesSpec(init);
      var r := Somes(xs);
      assert r == Somes(init) + (if xs[n].Some? then [xs[n].value] else []);
      assert r[..|Somes(init)|] == Somes(init);
      forall k | 0 <= k < |r|
        ensures exists i :: 0 <= i < |xs| && xs[i] == Some(r[k])
      {
        if k < |Somes(init)| {
          assert r[k] == Somes(init)[k];
          var i :| 0 <= i < |init| && init[i] == Some(r[k]);
          assert xs[i] == init[i];
        } else {
          assert xs[n] == Some(r[k]);
        }
      }
      forall i | 0 <= i < |xs| && xs[i].Some?
        ensures xs[i].value in r
      {
        if i < n {
          assert xs[i] == init[i];
        }
      }
    } else {
      assert Somes(xs) == [];
    }
  }

  /** The collected paths are exactly the non-empty trimmed `Disallow:` values,
      in file order: each comes from some line and each such line gives one. */
  lemma DisallowPathsSpec(lines: seq<string>)
    ensures forall k :: 0 <= k < |DisallowPaths(lines)| ==>
              DisallowPaths(lines)[k] != [] && exists i :: 0 <= i < |lines| && Field(lines[i], DisallowPrefix) == Some(DisallowPaths(lines)[k])
    ensures forall i :: 0 <= i < |lines| && Field(lines[i], DisallowPrefix).Some? ==>
              Field(lines[i], DisallowPrefix).value in DisallowPaths(lines)
  {
    var xs := Fields(lines, DisallowPrefix);
    SomesSpec(xs);
    forall k | 0 <= k < |Somes(xs)| ensures Somes(xs)[k] != [] {
      var i :| 0 <= i < |xs| && xs[i] == Some(Somes(xs)[k]);
    }
  }

  /** The last present value: one exists exactly when some entry is present,
      and it is the value of an entry after which none is present. */
  lemma {:induction false} LastSomeSpec(xs: seq<Option<string>>)
    ensures LastSome(xs).Some? <==> exists i :: 0 <= i < |xs| && xs[i].Some?
    ensures LastSome(xs).Some? ==>
              exists i :: 0 <= i < |xs| && xs[i] == LastSome(xs) && forall j :: i < j < |xs| ==> xs[j].None?
  {
    if xs != [] {
      var n := |xs| - 1;
      var init := xs[..n];
      LastSomeSpec(init);
      if xs[n].None? {
        if exists i :: 0 <= i < |xs| && xs[i].Some? {
          var i :| 0 <= i < |xs| && xs[i].Some?;
          assert init[i] == xs[i];
        }
        if LastSome(init).Some? {
          var i :| 0 <= i < |init| && init[i] == LastSome(init) && forall j :: i < j < |init| ==> init[j].None?;
          assert xs[i] == init[i];
          forall j | i < j < |xs| ensures xs[j].None? {
            if j < n { assert xs[j] == init[j]; }
          }
        }
      }
    }
  }

  /** The recorded sitemap is the value of a `Sitemap:` line after which no
      line has one, and there is one exactly when some line has a value. */
  lemma LastSitemapSpec(lines: seq<string>)
    ensures LastSitemap(lines).Some? <==> exists i :: 0 <= i < |lines| && Field(lines[i], SitemapPrefix).Some?
    ensures LastSitemap(lines).Some? ==>
              exists i :: 0 <= i < |lines| && Field(lines[i], SitemapPrefix) == LastSitemap(lines) &&
                forall j :: i < j < |lines| ==> Field(lines[j], SitemapPrefix).None?
  {
    var xs := Fields(lines, SitemapPrefix);
    LastSomeSpec(xs);
    if LastSitemap(lines).Some? {
      var i :| 0 <= i < |xs| && xs[i] == LastSome(xs) && forall j :: i < j < |xs| ==> xs[j].None?;
      assert forall j :: i < j < |lines| ==> Field(lines[j], SitemapPrefix) == xs[j];
    }
  }

  /** Reading one more line adds its `Disallow:` value, if any, at the end. */
  lemma DisallowPathsSnoc(lines: seq<string>, line: string)
    ensures DisallowPaths(lines + [line]) ==
              DisallowPaths(lines) + (if Field(line, DisallowPrefix).Some? then [Field(line, DisallowPrefix).value] else [])
  {
    FieldsAppend(lines, [line], DisallowPrefix);
    var xs := Fields(lines, DisallowPrefix) + Fields([line], DisallowPrefix);
    assert xs[..|lines|] == Fields(lines, DisallowPrefix);
  }

  /** Reading one more line replaces the sitemap when that line has a value. */
  lemma LastSitemapSnoc(lines: seq<string>, line: string)
    ensures LastSitemap(lines + [line]) ==
              if Field(line, SitemapPrefix).Some? then Field(line, SitemapPrefix) else LastSitemap(lines)
  {
    FieldsAppend(lines, [line], SitemapPrefix);
    var xs := Fields(lines, SitemapPrefix) + Fields([line], SitemapPrefix);
    assert xs[..|lines|] == Fields(lines, SitemapPrefix);
  }

  /** Both readings after one more line of a file. */
  lemma ReadOneMoreLine(lines: seq<string>, i: nat)
    requires i < |lines|
    ensures DisallowPaths(lines[..i + 1]) ==
              DisallowPaths(lines[..i]) + (if Field(lines[i], DisallowPrefix).Some? then [Field(lines[i], DisallowPrefix).value] else [])
    ensures LastSitemap(lines[..i + 1]) ==
              if Field(lines[i], SitemapPrefix).Some? then Field(lines[i], SitemapPrefix) else LastSitemap(lines[..i])
  {
    assert lines[..i + 1] == lines[..i] + [lines[i]];
    DisallowPathsSnoc(lines[..i], lines[i]);
    LastSitemapSnoc(lines[..i], lines[i]);
  }

  /** `Allow:` and `User-agent:` records are ignored: a line holding one adds
      no path and changes no sitemap, so every group's `Disallow:` lines are
      collected whatever agent it names. */
  lemma OtherRecordsIgnored(lines: seq<string>, line: string)
    requires StartsWith(Strip(line), "Allow:") || StartsWith(Strip(line), "User-agent:")
    ensures DisallowPaths(lines + [line]) == DisallowPaths(lines)
    ensures LastSitemap(lines + [line]) == LastSitemap(lines)
  {
    var l := Strip(line);
    assert l[0] == 'A' || l[0] == 'U';
    if |DisallowPrefix| <= |l| {
      assert l[..|DisallowPrefix|][0] != DisallowPrefix[0];
    }
    if |SitemapPrefix| <= |l| {
      assert l[..|SitemapPrefix|][0] != SitemapPrefix[0];
    }
    DisallowPathsSnoc(lines, line);
    LastSitemapSnoc(lines, line);
  }

  function RobotsUrl(baseUrl: string): string {
    baseUrl + "/robots.txt"
  }

  /** The outcome of `client.get(...)` followed by `raise_for_status()`. */
  datatype Response = HttpError | Ok(text: string)

  // ---------------------------------------------------------------------------
  // Collection files

  /** A collection file: absent, not valid JSON, or a list of documents. */
  datatype CollectionFile = Missing | Invalid | Valid(data: seq<Document>)

  /** What the save starts from: a file that is absent or not valid JSON reads
      as the empty list. */
  function Loaded(file: CollectionFile): seq<Document> {
    if file.Valid? then file.data else []
  }

  /** The string whose hash is the document id. */
  function UniqueString(collectionName: string, gameUrl: string, title: string): string {
    collectionName + "-" + gameUrl + "-" + title
  }

  function NewDocument(sha: string -> string, collectionName: string, gameUrl: string, title: string, text: string): (d: Document)
    ensures d.id == sha(UniqueString(collectionName, gameUrl, title))
    ensures d.sourceName == collectionName && d.url == gameUrl && d.title == title
  {
    Document(sha(UniqueString(collectionName, gameUrl, title)), collectionName, gameUrl, title, text)
  }

  predicate HasId(data: seq<Document>, id: string) {
    exists i :: 0 <= i < |data| && data[i].id == id
  }

  function Ids(data: seq<Document>): (r: seq<string>)
    ensures |r| == |data| && forall i :: 0 <= i < |data| ==> r[i] == data[i].id
  {
    seq(|data|, i requires 0 <= i < |data| => data[i].id)
  }

  /** The list written back, or None when the file is left alone. */
  function Saved(data: seq<Document>, doc: Document): Option<seq<Document>> {
    if HasId(data, doc.id) then None else Some(data + [doc])
  }

  /** Appending keeps the ids of a collection unique, and afterwards the
      document's id is present. */
  lemma SavedKeepsIdsUnique(data: seq<Document>, doc: Document)
    requires NoDuplicates(Ids(data))
    ensures Saved(data, doc).Some? ==> NoDuplicates(Ids(Saved(data, doc).value))
    ensures HasId(if Saved(data, doc).Some? then Saved(data, doc).value else data, doc.id)
  {
    if !HasId(data, doc.id) {
      var r := data + [doc];
      assert HasId(r, doc.id) by { assert r[|data|].id == doc.id; }
      assert Ids(r)[..|data|] == Ids(data);
      assert doc.id !in Ids(data);
    }
  }

  /** Saving the same game twice writes the file once: the id depends only on
      the collection name, the URL and the title. */
  lemma SaveTwiceNoOp(sha: string -> string, data: seq<Document>, collectionName: string, gameUrl: string,
                      title: string, text1: string, text2: string)
    ensures var d1 := NewDocument(sha, collectionName, gameUrl, title, text1);
            var after := if Saved(data, d1).Some? then Saved(data, d1).value else data;
            Saved(after, NewDocument(sha, collectionName, gameUrl, title, text2)) == None
  {
    var d1 := NewDocument(sha, collectionName, gameUrl, title, text1);
    if !HasId(data, d1.id) {
      assert (data + [d1])[|data|].id == d1.id;
    }
  }

  /** The id string is ambiguous when the URL or the title holds a `-`: a game
      whose URL ends where another's title begins is taken for it and never
      saved. */
  lemma IdStringCollision(sha: string -> string, data: seq<Document>, text1: string, text2: string)
    ensures var d1 := NewDocument(sha, "itch", "https://a.itch.io/x", "y-z", text1);
            var d2 := NewDocument(sha, "itch", "https://a.itch.io/x-y", "z", text2);
            var after := if Saved(data, d1).Some? then Saved(data, d1).value else data;
            d1.url != d2.url && Saved(after, d2) == None
  {
    var d1 := NewDocument(sha, "itch", "https://a.itch.io/x", "y-z", text1);
    assert UniqueString("itch", "https://a.itch.io/x", "y-z") == UniqueString("itch", "https://a.itch.io/x-y", "z");
    if !HasId(data, d1.id) {
      assert (data + [d1])[|data|].id == d1.id;
    }
    assert "https://a.itch.io/x"[|"https://a.itch.io/x"| - 1] == 'x';
  }

  // ---------------------------------------------------------------------------
  // The scraper base class

  class SourceWebsite {
    const collectionPath: string
    const collectionName: string
    const baseUrl: string
    var warmed: bool
    var disallowPaths: seq<string>
    /** The instance attribute `sitemap`; None until a robots.txt names one
        (the class declares only the misspelt `stiemap`). */
    var sitemap: Option<bool>
    /** `stiemap_url`: declared on the class without a value. */
    var stiemapUrl: Option<string>

    constructor (collectionPath: string, collectionName: string, baseUrl: string)
      ensures this.collectionPath == collectionPath && this.collectionName == collectionName
      ensures this.baseUrl == baseUrl
      ensures !warmed && disallowPaths == [] && sitemap == None && stiemapUrl == None
    {
      this.collectionPath := collectionPath;
      this.collectionName := collectionName;
      this.baseUrl := baseUrl;
      warmed := false;
      disallowPaths := [];
      sitemap := None;
      stiemapUrl := None;
    }

    /** Fetches `<base>/robots.txt` and records its Disallow paths and last
        Sitemap. An HTTP error leaves everything as it was. */
    method ParseRobotsTxt(fetch: string -> Response) returns (ok: bool)
      modifies this
      ensures fetch(RobotsUrl(baseUrl)).HttpError? ==>
                !ok && warmed == old(warmed) && disallowPaths == old(disallowPaths)
                && sitemap == old(sitemap) && stiemapUrl == old(stiemapUrl)
      ensures fetch(RobotsUrl(baseUrl)).Ok? ==>
                var lines := Lines(fetch(RobotsUrl(baseUrl)).text);
                ok && warmed && disallowPaths == DisallowPaths(lines)
                && (LastSitemap(lines).Some? ==> sitemap == Some(true) && stiemapUrl == LastSitemap(lines))
                && (LastSitemap(lines).None? ==> sitemap == old(sitemap) && stiemapUrl == old(stiemapUrl))
    {
      var response := fetch(RobotsUrl(baseUrl));
      if response.HttpError? {
        return false;
      }
      var newDisallowPaths := ReadRecords(Lines(response.text));
      disallowPaths := newDisallowPaths;
      warmed := true;
      return true;
    }

    /** One line of the robots.txt loop: a `Sitemap:` value is stored, and the
        `Disallow:` value, if any, is handed back. */
    method ReadLine(line: string) returns (disallowPath: Option<string>)
      modifies this
      ensures warmed == old(warmed) && disallowPaths == old(disallowPaths)
      ensures disallowPath == Field(line, DisallowPrefix)
      ensures Field(line, SitemapPrefix).Some? ==> sitemap == Some(true) && stiemapUrl == Field(line, SitemapPrefix)
      ensures Field(line, SitemapPrefix).None? ==> sitemap == old(sitemap) && stiemapUrl == old(stiemapUrl)
    {
      var sitemapPath := Field(line, SitemapPrefix);
      if sitemapPath.Some? {
        sitemap := Some(true);
        stiemapUrl := sitemapPath;
      }
      disallowPath := Field(line, DisallowPrefix);
    }

    /** The line loop of the robots.txt reader: a `Sitemap:` value is stored
        at once, `Disallow:` values are collected and returned. */
    method ReadRecords(lines: seq<string>) returns (newDisallowPaths: seq<string>)
      modifies this
      ensures warmed == old(warmed) && disallowPaths == old(disallowPaths)
      ensures newDisallowPaths == DisallowPaths(lines)
      ensures LastSitemap(lines).Some? ==> sitemap == Some(true) && stiemapUrl == LastSitemap(lines)
      ensures LastSitemap(lines).None? ==> sitemap == old(sitemap) && stiemapUrl == old(stiemapUrl)
    {
      newDisallowPaths := [];
      for i := 0 to |lines|
        invariant warmed == old(warmed) && disallowPaths == old(disallowPaths)
        invariant newDisallowPaths == DisallowPaths(lines[..i])
        invariant LastSitemap(lines[..i]).Some? ==> sitemap == Some(true) && stiemapUrl == LastSitemap(lines[..i])
        invariant LastSitemap(lines[..i]).None? ==> sitemap == old(sitemap) && stiemapUrl == old(stiemapUrl)
      {
        ReadOneMoreLine(lines, i);
        var disallowPath := ReadLine(lines[i]);
        if disallowPath.Some? {
          newDisallowPaths := newDisallowPaths + [disallowPath.value];
        }
      }
      assert lines[..|lines|] == lines;
    }

    /** Builds the document of a scraped game and appends it to the collection
        file unless a stored entry has its id; `written` is the list written
        back, None when the file is left alone. */
    method SaveMetadataToCollection(sha: string -> string, file: CollectionFile, title: string, text: string,
                                    gameUrl: string, collectionName: string)
      returns (written: Option<seq<Document>>)
      ensures written == Saved(Loaded(file), NewDocument(sha, collectionName, gameUrl, title, text))
    {
      var idHash := sha(UniqueString(collectionName, gameUrl, title));
      var document := Document(idHash, collectionName, gameUrl, title, text);
      var data := if file.Valid? then file.data else [];
      var present := false;
      for i := 0 to |data|
        invariant present <==> exists j :: 0 <= j < i && data[j].id == document.id
      {
        if data[i].id == document.id {
          present := true;
        }
      }
      if !present {
        written := Some(data + [document]);
      } else {
        written := None;
      }
    }
  }
}
