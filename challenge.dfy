/** The guided search challenges of the web page: four named challenges that
    must be completed in order, then a free-search challenge that completes on
    the third search after them. The page updates (icons, labels, buttons)
    are left out; what remains is the progression of the flags and the
    counter. */
module Challenges {
  import opened Text

  /** The page state: one flag per named challenge and the free-search
      counter. */
  datatype Progress = Progress(flappy: bool, albion: bool, theft: bool, elden: bool, counter: int)

  /** One call of a check function, with its arguments. */
  datatype Check =
    | FlappyCheck(query: string)
    | AlbionCheck(query: string, category: string)
    | TheftCheck(query: string, platform: string, status: string)
    | EldenCheck(query: string, tags: seq<string>)
    | FreeSearchCheck(query: string)

  const Initial := Progress(false, false, false, false, 0)

  /** The number of free searches after which the last challenge completes. */
  const FreeSearches := 3

  const WantedTags: seq<string> := ["Souls-like", "Dark Fantasy", "Open World"]

  /** The states reachable from `Initial`: each flag implies the previous
      one, and the counter only moves once all four flags are set. */
  predicate Reachable(p: Progress) {
    (p.albion ==> p.flappy) && (p.theft ==> p.albion) && (p.elden ==> p.theft)
    && 0 <= p.counter <= FreeSearches && (p.counter > 0 ==> p.elden)
  }

  predicate AllNamed(p: Progress) {
    p.flappy && p.albion && p.theft && p.elden
  }

  // ---------------------------------------------------------------------------
  // The completion conditions (comparisons are case-insensitive)

  predicate FlappyQuery(query: string) {
    Contains(Lower(query), "flappy") && Contains(Lower(query), "bird")
  }

  predicate AlbionQuery(query: string, category: string) {
    Contains(Lower(query), "albion") && Contains(Lower(category), "mmorpg")
  }

  predicate TheftQuery(query: string, platform: string, status: string) {
    Contains(Lower(query), "organized") && Contains(Lower(query), "theft")
    && Contains(Lower(platform), "html5") && Contains(Lower(status), "to be released")
  }

  /** Some tag equals `wanted` up to case. */
  predicate HasTag(tags: seq<string>, wanted: string) {
    exists j :: 0 <= j < |tags| && Lower(wanted) == Lower(tags[j])
  }

  predicate HasWantedTags(tags: seq<string>) {
    forall i :: 0 <= i < |WantedTags| ==> HasTag(tags, WantedTags[i])
  }

  predicate EldenQuery(query: string, tags: seq<string>) {
    Contains(Lower(query), "elden") && Contains(Lower(query), "ring") && HasWantedTags(tags)
  }

  /** The nested search of the Elden Ring check: for each wanted tag, scan
      the tags until one matches; stop at the first wanted tag without a
      match. */
  method FindWantedTags(tags: seq<string>) returns (hasTags: bool)
    ensures hasTags <==> HasWantedTags(tags)
  {
    hasTags := true;
    var i := 0;
    while i < |WantedTags|
      invariant 0 <= i <= |WantedTags|
      invariant hasTags ==> forall k :: 0 <= k < i ==> HasTag(tags, WantedTags[k])
    {
      var wanted := WantedTags[i];
      var found := false;
      var j := 0;
      while j < |tags|
        invariant 0 <= j <= |tags|
        invariant found ==> HasTag(tags, wanted)
        invariant !found ==> forall m :: 0 <= m < j ==> Lower(wanted) != Lower(tags[m])
      {
        if Lower(wanted) == Lower(tags[j]) {
          found := true;
          break;
        }
        j := j + 1;
      }
      if !found {
        assert !HasTag(tags, wanted);
        hasTags := false;
        break;
      }
      i := i + 1;
    }
  }

  // ---------------------------------------------------------------------------
  // The transition function

  function Step(p: Progress, c: Check): (r: Progress)
    ensures r.counter >= p.counter
  {
    match c
    case FlappyCheck(q) =>
      if p.flappy then p
      else if FlappyQuery(q) then p.(flappy := true) else p
    case AlbionCheck(q, category) =>
      if p.albion || !p.flappy then p
      else if AlbionQuery(q, category) then p.(albion := true) else p
    case TheftCheck(q, platform, status) =>
      if p.theft || !p.albion then p
      else if TheftQuery(q, platform, status) then p.(theft := true) else p
    case EldenCheck(q, tags) =>
      if p.elden || !p.theft then p
      else if EldenQuery(q, tags) then p.(elden := true) else p
    case FreeSearchCheck(_) =>
      if p.counter > FreeSearches - 1 || !AllNamed(p) then p
      else p.(counter := p.counter + 1)
  }

  /** Whether the call completes the free-search challenge. */
  predicate Fires(p: Progress, c: Check) {
    c.FreeSearchCheck? && Step(p, c).counter > FreeSearches - 1 && Step(p, c).counter > p.counter
  }

  function Run(p: Progress, cs: seq<Check>): Progress
    decreases cs
  {
    if cs == [] then p else Run(Step(p, cs[0]), cs[1..])
  }

  function Firings(p: Progress, cs: seq<Check>): nat
    decreases cs
  {
    if cs == [] then 0
    else (if Fires(p, cs[0]) then 1 else 0) + Firings(Step(p, cs[0]), cs[1..])
  }

  /** `q` has every flag of `p` and at least its counter. */
  predicate Below(p: Progress, q: Progress) {
    (p.flappy ==> q.flappy) && (p.albion ==> q.albion) && (p.theft ==> q.theft)
    && (p.elden ==> q.elden) && p.counter <= q.counter
  }

  // ---------------------------------------------------------------------------
  // Properties of the progression

  /** A flag once set is never reset, and the counter never goes down. */
  lemma StepMonotone(p: Progress, c: Check)
    ensures Below(p, Step(p, c))
  {
  }

  lemma {:induction false} RunMonotone(p: Progress, cs: seq<Check>)
    ensures Below(p, Run(p, cs))
    decreases cs
  {
    if cs != [] {
      StepMonotone(p, cs[0]);
      RunMonotone(Step(p, cs[0]), cs[1..]);
    }
  }

  /** Every check keeps the ordering of the flags and the counter's bound. */
  lemma StepReachable(p: Progress, c: Check)
    requires Reachable(p)
    ensures Reachable(Step(p, c))
  {
  }

  lemma {:induction false} RunReachable(p: Progress, cs: seq<Check>)
    requires Reachable(p)
    ensures Reachable(Run(p, cs))
    decreases cs
  {
    if cs != [] {
      StepReachable(p, cs[0]);
      RunReachable(Step(p, cs[0]), cs[1..]);
    }
  }

  /** From the page's initial state the challenges complete only in order
      and the counter stays within 0..3. */
  lemma InOrderFromStart(cs: seq<Check>)
    ensures var p := Run(Initial, cs);
            (p.albion ==> p.flappy) && (p.theft ==> p.albion) && (p.elden ==> p.theft)
            && 0 <= p.counter <= FreeSearches
  {
    RunReachable(Initial, cs);
  }

  /** The flappy bird challenge completes exactly when the query names both
      words. */
  lemma FlappyCompletes(p: Progress, q: string)
    ensures Step(p, FlappyCheck(q)).flappy <==> p.flappy || FlappyQuery(q)
    ensures !p.flappy && FlappyQuery(q) ==> Step(p, FlappyCheck(q)) == p.(flappy := true)
  {
  }

  /** A later challenge cannot complete before the one it follows. */
  lemma OrderEnforced(p: Progress, c: Check)
    ensures c.AlbionCheck? && !p.flappy ==> Step(p, c) == p
    ensures c.TheftCheck? && !p.albion ==> Step(p, c) == p
    ensures c.EldenCheck? && !p.theft ==> Step(p, c) == p
  {
  }

  /** Checking a completed challenge changes nothing. */
  lemma CompletedIsNoOp(p: Progress, c: Check)
    ensures c.FlappyCheck? && p.flappy ==> Step(p, c) == p
    ensures c.AlbionCheck? && p.albion ==> Step(p, c) == p
    ensures c.TheftCheck? && p.theft ==> Step(p, c) == p
    ensures c.EldenCheck? && p.elden ==> Step(p, c) == p
  {
  }

  /** The Elden Ring challenge completes exactly when the query names both
      words and all three wanted tags are present, once the organized theft
      challenge is done. */
  lemma EldenCompletes(p: Progress, q: string, tags: seq<string>)
    requires p.theft
    ensures Step(p, EldenCheck(q, tags)).elden <==> p.elden || EldenQuery(q, tags)
  {
  }

  /** The counter moves only on a free search with all four challenges done. */
  lemma CounterNeedsAll(p: Progress, c: Check)
    ensures Step(p, c).counter != p.counter ==> c.FreeSearchCheck? && AllNamed(p)
    ensures Step(p, c).counter != p.counter ==> Step(p, c).counter == p.counter + 1
  {
  }

  /** The free-search challenge completes once: a run fires exactly when it
      takes a counter below three up to three. */
  lemma {:induction false} FiresOnce(p: Progress, cs: seq<Check>)
    requires Reachable(p)
    ensures Firings(p, cs) == if p.counter < FreeSearches && Run(p, cs).counter == FreeSearches then 1 else 0
    decreases cs
  {
    if cs != [] {
      var p1 := Step(p, cs[0]);
      StepReachable(p, cs[0]);
      FiresOnce(p1, cs[1..]);
      RunMonotone(p1, cs[1..]);
      RunReachable(p1, cs[1..]);
    }
  }

  /** At most one completion of the free-search challenge from the start. */
  lemma FiresAtMostOnce(cs: seq<Check>)
    ensures Firings(Initial, cs) <= 1
  {
    FiresOnce(Initial, cs);
  }

  /** Three free searches after the four challenges complete it. */
  lemma ThirdSearchFires(p: Progress, q: string)
    requires AllNamed(p) && p.counter == 0
    ensures var cs := [FreeSearchCheck(q), FreeSearchCheck(q), FreeSearchCheck(q)];
            Run(p, cs).counter == FreeSearches && Firings(p, cs) == 1
  {
    var cs := [FreeSearchCheck(q), FreeSearchCheck(q), FreeSearchCheck(q)];
    var p1 := p.(counter := 1);
    var p2 := p.(counter := 2);
    var p3 := p.(counter := 3);
    var c := FreeSearchCheck(q);
    assert Step(p, c) == p1 && Step(p1, c) == p2 && Step(p2, c) == p3;
    assert Fires(p2, c) && !Fires(p1, c) && !Fires(p, c);
    assert Run(p2, [c]) == p3 && Firings(p2, [c]) == 1;
    assert cs[1..] == [c, c] && cs[1..][1..] == [c];
    assert Run(p1, [c, c]) == p3 && Firings(p1, [c, c]) == 1;
  }

  // ---------------------------------------------------------------------------
  // The page's module-level state

  class Board {
    var flappy: bool
    var albion: bool
    var theft: bool
    var elden: bool
    var counter: int

    function State(): Progress
      reads this
    {
      Progress(flappy, albion, theft, elden, counter)
    }

    constructor ()
      ensures State() == Initial
    {
      flappy, albion, theft, elden, counter := false, false, false, false, 0;
    }

    method CheckFlappyBird(query: string)
      modifies this
      ensures State() == Step(old(State()), FlappyCheck(query))
    {
      if flappy {
        return;
      }
      var lquery := Lower(query);
      if Contains(lquery, "flappy") && Contains(lquery, "bird") {
        flappy := true;
      }
    }

    method CheckAlbionOnline(query: string, category: string)
      modifies this
      ensures State() == Step(old(State()), AlbionCheck(query, category))
    {
      if albion || !flappy {
        return;
      }
      var lquery := Lower(query);
      if Contains(lquery, "albion") && Contains(Lower(category), "mmorpg") {
        albion := true;
      }
    }

    method CheckOrganizedTheft(query: string, platform: string, status: string)
      modifies this
      ensures State() == Step(old(State()), TheftCheck(query, platform, status))
    {
      if theft || !albion {
        return;
      }
      var lquery := Lower(query);
      if Contains(lquery, "organized") && Contains(lquery, "theft")
         && Contains(Lower(platform), "html5") && Contains(Lower(status), "to be released")
      {
        theft := true;
      }
    }

    method CheckEldenRing(query: string, tags: seq<string>)
      modifies this
      ensures State() == Step(old(State()), EldenCheck(query, tags))
    {
      if elden || !theft {
        return;
      }
      var lquery := Lower(query);
      var hasTags := FindWantedTags(tags);
      if Contains(lquery, "elden") && Contains(lquery, "ring") && hasTags {
        elden := true;
      }
    }

    /** Returns whether this call completed the free-search challenge. */
    method CheckFreeSearch(query: string) returns (completed: bool)
      modifies this
      ensures State() == Step(old(State()), FreeSearchCheck(query))
      ensures completed <==> Fires(old(State()), FreeSearchCheck(query))
    {
      completed := false;
      if counter > FreeSearches - 1 || !flappy || !albion || !theft || !elden {
        return;
      }
      counter := counter + 1;
      if counter > FreeSearches - 1 {
        completed := true;
      }
    }
  }
}
