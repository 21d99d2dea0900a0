/** The itch.io scraper: the sitemap filter, the crawl over game-list pages
    with its resume point and shared fetch budget, and the dispatch of the
    info-panel rows of a game page. Fetching and XML parsing are a parameter
    that yields the `<loc>` texts of a page; handing a game URL to the page
    scraper is modelled by appending it to `visited`. */
module Itch {
  import opened Wrappers
  import opened Text
  import Source

  // ---------------------------------------------------------------------------
  // Sitemap filter

  /** Number of trailing ASCII digits of `s`. */
  function TrailingDigits(s: string): (n: nat)
    ensures n <= |s|
    ensures forall i :: |s| - n <= i < |s| ==> IsDigit(s[i])
    ensures n < |s| ==> !IsDigit(s[|s| - n - 1])
  {
    if s == [] || !IsDigit(s[|s| - 1]) then 0 else TrailingDigits(s[..|s| - 1]) + 1
  }

  /** The search `/games(_\d+)?\.xml$`: the URL ends in `/games.xml` or in
      `/games_<digits>.xml`. */
  predicate IsGamesPage(loc: string) {
    EndsWith(loc, ".xml") && IsGamesStem(loc[..|loc| - 4])
  }

  /** The part of the pattern in front of `.xml`. */
  predicate IsGamesStem(stem: string) {
    var d := TrailingDigits(stem);
    EndsWith(stem, "/games") || (d > 0 && EndsWith(stem[..|stem| - d], "/games_"))
  }

  /** The pattern read as its two alternatives: a `/games` suffix, or
      `/games_` followed by `d >= 1` digits, in front of `.xml`. */
  predicate MatchesWithDigits(loc: string, d: nat) {
    d >= 1 && 11 + d <= |loc| && EndsWith(loc, ".xml")
    && AllDigits(loc[|loc| - 4 - d..|loc| - 4])
    && loc[|loc| - 11 - d..|loc| - 4 - d] == "/games_"
  }

  /** Everything the filter accepts matches the regular expression. */
  lemma IsGamesPageSound(loc: string)
    requires IsGamesPage(loc)
    ensures EndsWith(loc, "/games.xml") || exists d :: MatchesWithDigits(loc, d)
  {
    var stem := loc[..|loc| - 4];
    if EndsWith(stem, "/games") {
      SuffixExtends(loc, 4, "/games", ".xml");
    } else {
      StemDigitsMatch(loc, TrailingDigits(stem));
    }
  }

  /** `t` ending the part of `s` before its last `k` characters, and `x`
      being those characters, make `t + x` end `s`. */
  lemma SuffixExtends(s: string, k: nat, t: string, x: string)
    requires k <= |s| && EndsWith(s[..|s| - k], t) && s[|s| - k..] == x
    ensures EndsWith(s, t + x)
  {
    assert s[|s| - |t + x|..] == s[..|s| - k][|s| - k - |t|..] + s[|s| - k..];
  }

  /** The converse of `SuffixExtends`. */
  lemma SuffixSplits(s: string, t: string, x: string)
    requires EndsWith(s, t + x)
    ensures EndsWith(s[..|s| - |x|], t) && s[|s| - |x|..] == x
  {
    assert s[|s| - |x|..] == (t + x)[|t|..];
    assert s[..|s| - |x|][|s| - |x| - |t|..] == (t + x)[..|t|];
  }

  /** The second alternative of the filter is the second alternative of the
      pattern, with the stem's trailing digits as the digits. */
  lemma StemDigitsMatch(loc: string, d: nat)
    requires EndsWith(loc, ".xml") && 0 < d <= |loc| - 4
    requires d == TrailingDigits(loc[..|loc| - 4])
    requires EndsWith(loc[..|loc| - 4][..|loc| - 4 - d], "/games_")
    ensures MatchesWithDigits(loc, d)
  {
    var stem := loc[..|loc| - 4];
    var digits := loc[|loc| - 4 - d..|loc| - 4];
    forall i | 0 <= i < d
      ensures IsDigit(digits[i])
    {
      assert digits[i] == stem[|stem| - d + i];
    }
    var head := stem[..|stem| - d];
    assert |head| >= 7;
    assert loc[|loc| - 11 - d..|loc| - 4 - d] == head[|head| - 7..];
  }

  /** Everything the regular expression matches is accepted. */
  lemma IsGamesPageComplete(loc: string)
    requires EndsWith(loc, "/games.xml") || exists d :: MatchesWithDigits(loc, d)
    ensures IsGamesPage(loc)
  {
    if EndsWith(loc, "/games.xml") {
      PlainGamesAccepted(loc);
    } else {
      var e :| MatchesWithDigits(loc, e);
      MatchStemDigits(loc, e);
    }
  }

  /** The first alternative of the pattern is accepted. */
  lemma PlainGamesAccepted(loc: string)
    requires EndsWith(loc, "/games.xml")
    ensures IsGamesPage(loc)
  {
    SuffixSplits(loc, "/games", ".xml");
    assert IsGamesStem(loc[..|loc| - 4]);
  }

  /** The second alternative of the pattern leaves `e` digits at the end of
      the stem, after `/games_`. */
  lemma MatchStemDigits(loc: string, e: nat)
    requires MatchesWithDigits(loc, e)
    ensures TrailingDigits(loc[..|loc| - 4]) == e
    ensures EndsWith(loc[..|loc| - 4][..|loc| - 4 - e], "/games_")
    ensures IsGamesPage(loc)
  {
    var stem := loc[..|loc| - 4];
    assert stem[|stem| - e..] == loc[|loc| - 4 - e..|loc| - 4];
    assert stem[|stem| - e - 7..|stem| - e] == "/games_";
    assert stem[|stem| - e - 1] == '_';
    TrailingDigitsOf(stem, e);
    assert stem[..|stem| - e][|stem| - e - 7..] == "/games_";
    assert IsGamesStem(stem);
  }

  lemma TrailingDigitsOf(s: string, e: nat)
    requires e < |s| && !IsDigit(s[|s| - e - 1])
    requires forall i :: |s| - e <= i < |s| ==> IsDigit(s[i])
    ensures TrailingDigits(s) == e
  {
    var n := TrailingDigits(s);
  }

  lemma GamesPageAccepted()
    ensures IsGamesPage("x/games.xml")
  {
  }

  lemma GamesPageNumbered()
    ensures IsGamesPage("x/games_1.xml")
  {
    var loc := "x/games_1.xml";
    assert loc[8..9] == "1" && loc[1..8] == "/games_" && loc[9..] == ".xml";
    assert MatchesWithDigits(loc, 1);
    IsGamesPageComplete(loc);
  }

  lemma GamesPageNoDigits()
    ensures !IsGamesPage("x/games_.xml")
  {
    assert TrailingDigits("x/games_") == 0;
    assert "x/games_"[2..] != "/games" by { assert "x/games_"[2] != '/'; }
  }

  /** The game-list pages of a sitemap, in sitemap order. */
  function GamePages(locs: seq<string>): (r: seq<string>)
    ensures forall k :: 0 <= k < |r| ==> IsGamesPage(r[k]) && r[k] in locs
    ensures forall i :: 0 <= i < |locs| && IsGamesPage(locs[i]) ==> locs[i] in r
  {
    if locs == [] then []
    else
      var n := |locs| - 1;
      GamePages(locs[..n]) + (if IsGamesPage(locs[n]) then [locs[n]] else [])
  }

  // ---------------------------------------------------------------------------
  // The crawl

  /** The result of fetching and parsing one XML page: its `<loc>` texts, or an
      error (HTTP error or unparsable XML) that is logged and ends the page. */
  datatype Fetched = FetchError | Locs(locs: seq<string>)

  /** The crawl state that the loops change: the fetch budget and the game
      URLs handed to the page scraper. */
  datatype Crawl = Crawl(times: int, visited: seq<string>)

  const DefaultLastSeen := "https://kingbobski.itch.io/flappy-man"

  /** The game-URL loop of one page, from a given `found` flag. Each URL first
      takes one unit of budget (when `limit` is on); while `last_seen` is set
      and not yet met, URLs are skipped, the one equal to it included. */
  function PageRun(limit: bool, lastSeen: string, urls: seq<string>, found: bool, c: Crawl): Crawl
    decreases |urls|
  {
    if urls == [] then c
    else if limit && c.times == 0 then c
    else
      var c1 := if limit then c.(times := c.times - 1) else c;
      if lastSeen != [] && !found then PageRun(limit, lastSeen, urls[1..], urls[0] == lastSeen, c1)
      else PageRun(limit, lastSeen, urls[1..], found, c1.(visited := c1.visited + [urls[0]]))
  }

  /** The part of `s` after the first occurrence of `x`; empty when `x` does
      not occur. */
  function AfterFirst(s: seq<string>, x: string): (r: seq<string>)
    ensures |r| <= |s|
    ensures x !in s ==> r == []
    ensures x in s ==> exists i :: 0 <= i < |s| && s[i] == x && x !in s[..i] && r == s[i + 1..]
  {
    if s == [] then []
    else if s[0] == x then
      assert s[..0] == [];
      s[1..]
    else
      var r := AfterFirst(s[1..], x);
      if x in s[1..] then
        var i :| 0 <= i < |s[1..]| && s[1..][i] == x && x !in s[1..][..i] && r == s[1..][i + 1..];
        assert s[..i + 1] == [s[0]] + s[1..][..i];
        r
      else r
  }

  /** The URLs of a page that are visited when the first `n` are consumed. */
  function Resumed(lastSeen: string, found: bool, s: seq<string>): seq<string> {
    if lastSeen == [] || found then s else AfterFirst(s, lastSeen)
  }

  /** How many URLs the budget lets the loop take. */
  function Consumed(limit: bool, times: int, n: nat): nat {
    if limit && 0 <= times < n then times else n
  }

  /** The page loop takes `Consumed` URLs and as much budget. */
  lemma {:induction false} PageRunTimes(limit: bool, lastSeen: string, urls: seq<string>, found: bool, c: Crawl)
    ensures PageRun(limit, lastSeen, urls, found, c).times
            == if limit then c.times - Consumed(limit, c.times, |urls|) else c.times
    decreases |urls|
  {
    if urls != [] && !(limit && c.times == 0) {
      var c1 := if limit then c.(times := c.times - 1) else c;
      if lastSeen != [] && !found {
        PageRunTimes(limit, lastSeen, urls[1..], urls[0] == lastSeen, c1);
      } else {
        PageRunTimes(limit, lastSeen, urls[1..], found, c1.(visited := c1.visited + [urls[0]]));
      }
    }
  }

  /** Before the resume point is met, consuming one URL only moves the point
      at which the visited part starts. */
  lemma ResumedStep(lastSeen: string, found: bool, s: seq<string>)
    requires s != []
    ensures Resumed(lastSeen, found, s) ==
              if lastSeen != [] && !found then Resumed(lastSeen, s[0] == lastSeen, s[1..])
              else [s[0]] + Resumed(lastSeen, found, s[1..])
  {
    if lastSeen == [] || found {
      assert s == [s[0]] + s[1..];
    }
  }

  /** The page loop hands on exactly the consumed URLs that come after the
      resume point (all of them when `last_seen` is empty or already met). */
  predicate VisitsResumed(limit: bool, lastSeen: string, urls: seq<string>, found: bool, c: Crawl) {
    PageRun(limit, lastSeen, urls, found, c).visited
      == c.visited + Resumed(lastSeen, found, urls[..Consumed(limit, c.times, |urls|)])
  }

  /** One URL taken while the resume point is still ahead. */
  lemma SkipStep(limit: bool, lastSeen: string, urls: seq<string>, found: bool, c: Crawl)
    requires urls != [] && !(limit && c.times == 0) && lastSeen != [] && !found
    requires VisitsResumed(limit, lastSeen, urls[1..], urls[0] == lastSeen,
                           if limit then c.(times := c.times - 1) else c)
    ensures VisitsResumed(limit, lastSeen, urls, found, c)
  {
    var c1 := if limit then c.(times := c.times - 1) else c;
    var n := Consumed(limit, c.times, |urls|);
    assert PageRun(limit, lastSeen, urls, found, c) == PageRun(limit, lastSeen, urls[1..], urls[0] == lastSeen, c1);
    if limit {
      assert Consumed(limit, c1.times, |urls[1..]|) == n - 1;
    } else {
      assert n == |urls| && Consumed(limit, c1.times, |urls[1..]|) == |urls[1..]|;
    }
    SkipResumed(lastSeen, urls, n);
  }

  /** Consuming the first of `n` URLs before the resume point. */
  lemma SkipResumed(lastSeen: string, urls: seq<string>, n: nat)
    requires lastSeen != [] && 0 < n <= |urls|
    ensures Resumed(lastSeen, false, urls[..n]) == Resumed(lastSeen, urls[0] == lastSeen, urls[1..][..n - 1])
  {
    var s := urls[..n];
    assert s[0] == urls[0] && s[1..] == urls[1..][..n - 1];
    ResumedStep(lastSeen, false, s);
  }

  /** One URL taken once the resume point is behind (or there is none). */
  lemma TakeStep(limit: bool, lastSeen: string, urls: seq<string>, found: bool, c: Crawl)
    requires urls != [] && !(limit && c.times == 0) && (lastSeen == [] || found)
    requires var c1 := if limit then c.(times := c.times - 1) else c;
             VisitsResumed(limit, lastSeen, urls[1..], found, c1.(visited := c1.visited + [urls[0]]))
    ensures VisitsResumed(limit, lastSeen, urls, found, c)
  {
    var n := Consumed(limit, c.times, |urls|);
    var s := urls[..n];
    assert s == [urls[0]] + urls[1..][..n - 1];
  }

  lemma {:induction false} PageRunVisited(limit: bool, lastSeen: string, urls: seq<string>, found: bool, c: Crawl)
    ensures VisitsResumed(limit, lastSeen, urls, found, c)
    decreases |urls|
  {
    if urls == [] || (limit && c.times == 0) {
      assert urls[..Consumed(limit, c.times, |urls|)] == [];
    } else {
      var c1 := if limit then c.(times := c.times - 1) else c;
      if lastSeen != [] && !found {
        PageRunVisited(limit, lastSeen, urls[1..], urls[0] == lastSeen, c1);
        SkipStep(limit, lastSeen, urls, found, c);
      } else {
        PageRunVisited(limit, lastSeen, urls[1..], found, c1.(visited := c1.visited + [urls[0]]));
        TakeStep(limit, lastSeen, urls, found, c);
      }
    }
  }

  /** A page the fetch fails on changes nothing; otherwise its loop runs with
      `found` reset. */
  function PageVisit(limit: bool, lastSeen: string, page: Fetched, c: Crawl): Crawl {
    match page
    case FetchError => c
    case Locs(urls) => PageRun(limit, lastSeen, urls, false, c)
  }

  /** The page loop of the sitemap: each game-list page takes one unit of
      budget before its URLs are crawled. */
  function SitemapRun(limit: bool, lastSeen: string, fetch: string -> Fetched, pages: seq<string>, c: Crawl): Crawl
    decreases |pages|
  {
    if pages == [] then c
    else if limit && c.times == 0 then c
    else
      var c1 := if limit then c.(times := c.times - 1) else c;
      SitemapRun(limit, lastSeen, fetch, pages[1..], PageVisit(limit, lastSeen, fetch(pages[0]), c1))
  }

  /** One page visit keeps the budget in range, only appends, and hands on
      no more games than the budget it takes. */
  lemma PageVisitBudget(limit: bool, lastSeen: string, page: Fetched, c: Crawl)
    requires !limit || c.times >= 0
    ensures var r := PageVisit(limit, lastSeen, page, c);
            |c.visited| <= |r.visited| && r.visited[..|c.visited|] == c.visited
            && (limit ==> 0 <= r.times <= c.times && |r.visited| - |c.visited| <= c.times - r.times)
            && (!limit ==> r.times == c.times)
  {
    if page.Locs? {
      PageRunTimes(limit, lastSeen, page.locs, false, c);
      PageRunVisited(limit, lastSeen, page.locs, false, c);
      var n := Consumed(limit, c.times, |page.locs|);
      assert |Resumed(lastSeen, false, page.locs[..n])| <= n;
      var r := PageVisit(limit, lastSeen, page, c);
      assert r.visited[..|c.visited|] == c.visited;
    }
  }

  /** One budget is shared by pages and game URLs: with the limit on it never
      goes below zero, and the games handed on never outnumber the units
      spent; with it off the budget is untouched. Visits only ever append. */
  lemma {:induction false} SitemapBudget(limit: bool, lastSeen: string, fetch: string -> Fetched, pages: seq<string>, c: Crawl)
    requires !limit || c.times >= 0
    ensures var r := SitemapRun(limit, lastSeen, fetch, pages, c);
            |c.visited| <= |r.visited| && r.visited[..|c.visited|] == c.visited
            && (limit ==> 0 <= r.times <= c.times && |r.visited| - |c.visited| <= c.times - r.times)
            && (!limit ==> r.times == c.times)
    decreases |pages|
  {
    if pages != [] && !(limit && c.times == 0) {
      var c1 := if limit then c.(times := c.times - 1) else c;
      var c2 := PageVisit(limit, lastSeen, fetch(pages[0]), c1);
      PageVisitBudget(limit, lastSeen, fetch(pages[0]), c1);
      SitemapBudget(limit, lastSeen, fetch, pages[1..], c2);
      var r := SitemapRun(limit, lastSeen, fetch, pages[1..], c2);
      assert r.visited[..|c.visited|] == r.visited[..|c2.visited|][..|c.visited|];
    }
  }

  /** Skipped URLs still take budget: with two units left, a page whose second
      URL is the resume point hands on nothing, and the budget is spent. */
  lemma SkippedUrlsSpendBudget(a: string, b: string)
    requires a != DefaultLastSeen
    ensures PageRun(true, DefaultLastSeen, [a, DefaultLastSeen, b], false, Crawl(2, [])) == Crawl(0, [])
  {
    var urls := [a, DefaultLastSeen, b];
    assert urls[1..] == [DefaultLastSeen, b];
    assert urls[1..][1..] == [b];
    assert PageRun(true, DefaultLastSeen, [b], true, Crawl(0, [])) == Crawl(0, []);
    assert PageRun(true, DefaultLastSeen, [DefaultLastSeen, b], false, Crawl(1, [])) == Crawl(0, []);
  }

  /** `found` is reset for each page: once the resume point has been met on
      one page, a later page without it is skipped entirely. */
  lemma ResumePointPerPage(fetch: string -> Fetched, p1: string, p2: string, a: string, b: string)
    requires fetch(p1) == Locs([DefaultLastSeen, a]) && fetch(p2) == Locs([b]) && b != DefaultLastSeen
    ensures SitemapRun(false, DefaultLastSeen, fetch, [p1, p2], Crawl(2, [])) == Crawl(2, [a])
  {
    var pages := [p1, p2];
    assert pages[1..] == [p2];
    var urls := [DefaultLastSeen, a];
    assert urls[1..] == [a];
    assert [a][1..] == [];
    assert PageRun(false, DefaultLastSeen, [a], true, Crawl(2, [])) == Crawl(2, [a]);
    assert PageRun(false, DefaultLastSeen, urls, false, Crawl(2, [])) == Crawl(2, [a]);
    assert [b][1..] == [];
    assert PageRun(false, DefaultLastSeen, [b], false, Crawl(2, [a])) == Crawl(2, [a]);
    assert [p2][1..] == [];
    assert SitemapRun(false, DefaultLastSeen, fetch, [p2], Crawl(2, [a])) == Crawl(2, [a]);
  }

  /** The sitemap step as a function of the URL it fetches: no URL (the
      attribute is missing, which raises and is logged) or a failed fetch
      crawls nothing. */
  function SitemapFrom(limit: bool, lastSeen: string, fetch: string -> Fetched, url: Option<string>, c: Crawl): Crawl {
    if url.None? then c
    else
      match fetch(url.value)
      case FetchError => c
      case Locs(locs) => SitemapRun(limit, lastSeen, fetch, GamePages(locs), c)
  }

  /** The URL `parse_sitemap` fetches as written: the attribute `sitemap_url`,
      which neither this class nor its base ever assigns (the base stores the
      sitemap in `stiemap_url`). */
  function SitemapUrlAttribute(): Option<string> {
    None
  }

  /** As written the crawl never starts, whatever robots.txt named; reading
      the stored sitemap URL instead crawls its game pages. */
  lemma SitemapUrlNeverSet(fetch: string -> Fetched, sitemapUrl: string, game: string)
    requires fetch(sitemapUrl) == Locs(["x/games.xml"])
    requires fetch("x/games.xml") == Locs([game])
    ensures SitemapFrom(false, [], fetch, SitemapUrlAttribute(), Crawl(2, [])) == Crawl(2, [])
    ensures SitemapFrom(false, [], fetch, Some(sitemapUrl), Crawl(2, [])) == Crawl(2, [game])
  {
    GamesPageAccepted();
    var pages := ["x/games.xml"];
    assert pages[..0] == [];
    assert GamePages(pages) == pages;
    assert pages[1..] == [];
    assert [game][1..] == [];
    assert PageRun(false, [], [game], false, Crawl(2, [])) == Crawl(2, [game]);
  }

  class SourceItch {
    /** The base-class state (robots.txt, collection names). */
    const site: Source.SourceWebsite
    var limit: bool
    var times: int
    var lastSeen: string
    var visited: seq<string>

    constructor (site: Source.SourceWebsite)
      ensures this.site == site
      ensures !limit && times == 2 && lastSeen == DefaultLastSeen && visited == []
    {
      this.site := site;
      limit := false;
      times := 2;
      lastSeen := DefaultLastSeen;
      visited := [];
    }

    /** `parse_game_urls_page`: fetch a game-list page and hand on its game
        URLs, spending budget and skipping up to the resume point. */
    method ParseGameUrlsPage(fetch: string -> Fetched, url: string)
      modifies this
      ensures limit == old(limit) && lastSeen == old(lastSeen)
      ensures Crawl(times, visited) == PageVisit(limit, lastSeen, fetch(url), Crawl(old(times), old(visited)))
    {
      var response := fetch(url);
      if response.FetchError? {
        return;
      }
      var gameUrls := response.locs;
      var found := false;
      for i := 0 to |gameUrls|
        invariant limit == old(limit) && lastSeen == old(lastSeen)
        invariant PageRun(limit, lastSeen, gameUrls[i..], found, Crawl(times, visited))
                  == PageRun(limit, lastSeen, gameUrls, false, Crawl(old(times), old(visited)))
      {
        if limit {
          if times == 0 {
            return;
          } else {
            times := times - 1;
          }
        }
        assert gameUrls[i..][1..] == gameUrls[i + 1..];
        var gameUrl := gameUrls[i];
        if lastSeen != [] {
          if !found && gameUrl != lastSeen {
            continue;
          } else if !found && gameUrl == lastSeen {
            found := true;
            continue;
          }
        }
        visited := visited + [gameUrl];
      }
    }

    /** The game-list loop of `parse_sitemap`, over the filtered pages. */
    method CrawlPages(fetch: string -> Fetched, pages: seq<string>)
      modifies this
      ensures limit == old(limit) && lastSeen == old(lastSeen)
      ensures Crawl(times, visited) == SitemapRun(limit, lastSeen, fetch, pages, Crawl(old(times), old(visited)))
    {
      for i := 0 to |pages|
        invariant limit == old(limit) && lastSeen == old(lastSeen)
        invariant SitemapRun(limit, lastSeen, fetch, pages[i..], Crawl(times, visited))
                  == SitemapRun(limit, lastSeen, fetch, pages, Crawl(old(times), old(visited)))
      {
        if limit {
          if times == 0 {
            return;
          } else {
            times := times - 1;
          }
        }
        assert pages[i..][1..] == pages[i + 1..];
        ParseGameUrlsPage(fetch, pages[i]);
      }
    }

    /** The body of `parse_sitemap` once the URL attribute has been read. */
    method CrawlSitemap(fetch: string -> Fetched, url: Option<string>)
      modifies this
      ensures limit == old(limit) && lastSeen == old(lastSeen)
      ensures Crawl(times, visited) == SitemapFrom(limit, lastSeen, fetch, url, Crawl(old(times), old(visited)))
    {
      if url.None? {
        return;
      }
      var response := fetch(url.value);
      if response.FetchError? {
        return;
      }
      CrawlPages(fetch, GamePages(response.locs));
    }

    /** `parse_sitemap` as written: it fetches `self.sitemap_url`, which is
        never assigned, so the lookup raises, is logged, and nothing is
        crawled. */
    method ParseSitemapAsWritten(fetch: string -> Fetched)
      modifies this
      ensures limit == old(limit) && lastSeen == old(lastSeen)
      ensures Crawl(times, visited) == SitemapFrom(limit, lastSeen, fetch, SitemapUrlAttribute(), Crawl(old(times), old(visited)))
    {
      CrawlSitemap(fetch, SitemapUrlAttribute());
    }

    /** `parse_sitemap` reading the sitemap URL that robots.txt stored. */
    method ParseSitemap(fetch: string -> Fetched)
      modifies this
      ensures limit == old(limit) && lastSeen == old(lastSeen)
      ensures Crawl(times, visited) == SitemapFrom(limit, lastSeen, fetch, site.stiemapUrl, Crawl(old(times), old(visited)))
    {
      CrawlSitemap(fetch, site.stiemapUrl);
    }
  }

  // ---------------------------------------------------------------------------
  // Info panel

  /** One row of the info table: the text of its first cell (if any), the
      texts of its last cell, and the `ratingValue` content attribute. */
  datatype Row = Row(firstCell: Option<string>, lastCellTexts: seq<string>, ratingValue: Option<string>)

  datatype InfoPanel = InfoPanel(
    status: Option<string>,
    genre: Option<seq<string>>,
    rating: Option<real>,
    tags: Option<seq<string>>,
    platforms: Option<seq<string>>,
    category: Option<string>,
    published: Option<seq<string>>,
    extra: map<string, seq<string>>)

  const NoPanel := InfoPanel(None, None, None, None, None, None, None, map[])

  /** The trimmed non-empty texts of a cell, in order. */
  function Values(texts: seq<string>): (r: seq<string>)
    ensures forall k :: 0 <= k < |r| ==> r[k] != []
  {
    if texts == [] then []
    else
      var n := |texts| - 1;
      Values(texts[..n]) + (if Strip(texts[n]) != [] then [Strip(texts[n])] else [])
  }

  /** A list field: the values other than `","`. */
  function NoCommas(values: seq<string>): (r: seq<string>)
    ensures forall k :: 0 <= k < |r| ==> r[k] != "," && r[k] in values
    ensures forall k :: 0 <= k < |values| && values[k] != "," ==> values[k] in r
  {
    if values == [] then []
    else
      var n := |values| - 1;
      NoCommas(values[..n]) + (if values[n] != "," then [values[n]] else [])
  }

  /** The filter works value by value: the values kept from a concatenation
      are those kept from each part, in order. */
  lemma {:induction false} NoCommasAppend(a: seq<string>, b: seq<string>)
    ensures NoCommas(a + b) == NoCommas(a) + NoCommas(b)
    decreases |b|
  {
    if b == [] {
      assert a + b == a;
    } else {
      var n := |b| - 1;
      assert (a + b)[..|a + b| - 1] == a + b[..n];
      NoCommasAppend(a, b[..n]);
      assert NoCommas(b) == NoCommas(b[..n]) + (if b[n] != "," then [b[n]] else []);
    }
  }

  /** One value is kept exactly when it is not `","`. */
  lemma NoCommasOne(v: string)
    ensures NoCommas([v]) == if v != "," then [v] else []
  {
    assert [v][..0] == [];
  }

  function PanelKey(cell: string): string {
    Lower(Strip(cell))
  }

  predicate IsNamedKey(key: string) {
    key == "status" || key == "genre" || key == "rating" || key == "tags" || key == "platforms"
  }

  /** What one row does to the panel. */
  function RowEffect(parseFloat: string -> Option<real>, p: InfoPanel, row: Row): InfoPanel {
    if row.firstCell.None? || row.firstCell.value == [] then p
    else
      var key := PanelKey(row.firstCell.value);
      var values := Values(row.lastCellTexts);
      if key == "status" then
        var s := Join(values, ", ");
        p.(status := if s == [] then None else Some(s))
      else if key == "genre" then p.(genre := Some(NoCommas(values)))
      else if key == "rating" then
        if row.ratingValue.Some? && row.ratingValue.value != [] && parseFloat(row.ratingValue.value).Some?
        then p.(rating := parseFloat(row.ratingValue.value))
        else p
      else if key == "tags" then p.(tags := Some(NoCommas(values)))
      else if key == "platforms" then p.(platforms := Some(NoCommas(values)))
      else if Contains("category", key) then p.(category := Some(Join(values, " ")))
      else if key == "published" then p.(published := Some(NoCommas(values)))
      else if key == "author" then p
      else p.(extra := p.extra[ReplaceChar(key, ' ', '-') := NoCommas(values)])
  }

  /** The panel after the rows, in table order. */
  function Panel(parseFloat: string -> Option<real>, rows: seq<Row>): InfoPanel {
    if rows == [] then NoPanel
    else RowEffect(parseFloat, Panel(parseFloat, rows[..|rows| - 1]), rows[|rows| - 1])
  }

  lemma AuthorNotInCategory()
    ensures !Contains("category", "author")
  {
    forall i | 0 <= i <= 2 ensures !OccursAt("category", "author", i) {
      assert "category"[1] == 'a' && "category"[2] == 't' && "category"[3] == 'e';
      assert "category"[i..i + 6][1] == "category"[i + 1] != 'u';
    }
  }

  /** Rows without a first-cell text, and `author` rows, change nothing. */
  lemma IgnoredRows(parseFloat: string -> Option<real>, p: InfoPanel, row: Row)
    requires row.firstCell.None? || row.firstCell.value == [] || PanelKey(row.firstCell.value) == "author"
    ensures RowEffect(parseFloat, p, row) == p
  {
    if row.firstCell.Some? && row.firstCell.value != [] {
      var key := PanelKey(row.firstCell.value);
      if key == "author" {
        AuthorNotInCategory();
      }
    }
  }

  /** The category test is a substring test on the string "category": any other key that occurs
      in "category" (a blank first cell strips to the empty key, which does)
      sets the category to the space-join of the values. */
  lemma CategoryBySubstring(parseFloat: string -> Option<real>, p: InfoPanel, row: Row)
    requires row.firstCell.Some? && row.firstCell.value != []
    requires !IsNamedKey(PanelKey(row.firstCell.value)) && Contains("category", PanelKey(row.firstCell.value))
    ensures RowEffect(parseFloat, p, row) == p.(category := Some(Join(Values(row.lastCellTexts), " ")))
  {
  }

  lemma BlankKeyIsCategory(parseFloat: string -> Option<real>, p: InfoPanel, texts: seq<string>)
    ensures RowEffect(parseFloat, p, Row(Some(" "), texts, None)).category == Some(Join(Values(texts), " "))
  {
    assert Strip(" ") == [];
    assert OccursAt("category", "", 0);
  }

  /** A key none of the branches names goes into `extra_data` under the key
      with its spaces turned into dashes. */
  lemma ExtraKey(parseFloat: string -> Option<real>, p: InfoPanel, row: Row)
    requires row.firstCell.Some? && row.firstCell.value != []
    requires var key := PanelKey(row.firstCell.value);
             !IsNamedKey(key) && !Contains("category", key) && key != "published" && key != "author"
    ensures var key := PanelKey(row.firstCell.value);
            var r := RowEffect(parseFloat, p, row);
            r == p.(extra := p.extra[ReplaceChar(key, ' ', '-') := NoCommas(Values(row.lastCellTexts))])
            && ' ' !in ReplaceChar(key, ' ', '-')
  {
  }

  /** The status is None exactly when the row has no value. */
  lemma StatusNoneIff(parseFloat: string -> Option<real>, p: InfoPanel, row: Row)
    requires row.firstCell.Some? && PanelKey(row.firstCell.value) == "status"
    ensures RowEffect(parseFloat, p, row).status.None? <==> Values(row.lastCellTexts) == []
  {
    var values := Values(row.lastCellTexts);
    JoinEmpty(values, ", ");
    if |values| == 1 {
      assert values[0] != [];
    }
  }

  /** The info-panel loop of `scrape_metadata_from_response`. */
  method ReadInfoPanel(parseFloat: string -> Option<real>, rows: seq<Row>) returns (panel: InfoPanel)
    ensures panel == Panel(parseFloat, rows)
  {
    panel := NoPanel;
    for i := 0 to |rows|
      invariant panel == Panel(parseFloat, rows[..i])
    {
      assert rows[..i + 1][..i] == rows[..i];
      var row := rows[i];
      if row.firstCell.None? || row.firstCell.value == [] {
        continue;
      }
      var key := PanelKey(row.firstCell.value);
      var values := Values(row.lastCellTexts);
      if key == "status" {
        var status := Join(values, ", ");
        panel := panel.(status := if status == [] then None else Some(status));
      } else if key == "genre" {
        panel := panel.(genre := Some(NoCommas(values)));
      } else if key == "rating" {
        if row.ratingValue.Some? && row.ratingValue.value != [] {
          var rating := parseFloat(row.ratingValue.value);
          if rating.Some? {
            panel := panel.(rating := rating);
          }
        }
      } else if key == "tags" {
        panel := panel.(tags := Some(NoCommas(values)));
      } else if key == "platforms" {
        panel := panel.(platforms := Some(NoCommas(values)));
      } else if ContainsAt("category", key, 0) {
        panel := panel.(category := Some(Join(values, " ")));
      } else if key == "published" {
        panel := panel.(published := Some(NoCommas(values)));
      } else if key == "author" {
        continue;
      } else {
        panel := panel.(extra := panel.extra[ReplaceChar(key, ' ', '-') := NoCommas(values)]);
      }
    }
    assert rows[..|rows|] == rows;
  }
}
