/** The recursive mode of `VnExpressScrapper.get_article_urls`: a set-based,
    breadth-first expansion of the discovered links, bounded by `limit`. */
module Frontier {
  import opened Pages
  import opened Links

  /** The links of a location whose page loads; none for one that times out. */
  function Outlinks(web: Web, u: Url): set<Url> {
    match web(u)
    case Timeout => {}
    case Loaded(page) => LinkSet(page.anchors)
  }

  /** Every link found on the pages of `locations`. */
  function Gather(web: Web, locations: set<Url>): set<Url> {
    set u, v | u in locations && v in Outlinks(web, u) :: v
  }

  /** One round of the inner `for` loop: the union of the links of every frontier
      location. Whichever frontier location times out, the exception escapes the
      round, so the order in which the set is walked does not matter. */
  function Round(web: Web, frontier: set<Url>): (r: Outcome<set<Url>>)
    ensures r.TimedOut? <==> exists u :: u in frontier && web(u).Timeout?
    ensures r.Completed? ==> forall u :: u in frontier ==> web(u).Loaded? && Outlinks(web, u) <= r.value
  {
    if exists u :: u in frontier && web(u).Timeout? then TimedOut
    else Completed(Gather(web, frontier))
  }

  /** Adding what a round found either enlarges the discovered set, or leaves it as it
      was and the next frontier empty. */
  lemma Enlarges(discovered: set<Url>, found: set<Url>)
    ensures found - discovered == {} ==> discovered + found == discovered
    ensures found - discovered != {} ==> |discovered| < |discovered + found|
  {
    var added := found - discovered;
    assert discovered + found == discovered + added;
    assert discovered * added == {};
    assert |discovered + added| == |discovered| + |added|;
    if added == {} {
      assert discovered + added == discovered;
    }
  }

  /** The outer `while` loop from a state (`discovered`, `frontier`): rounds run while
      fewer than `limit` locations are discovered and the frontier is not empty. The
      loop ends because a round that does not enlarge the discovered set leaves an
      empty frontier, and the discovered set cannot grow past `limit` without
      stopping the loop. */
  function Explore(web: Web, discovered: set<Url>, frontier: set<Url>, limit: int): (r: Outcome<set<Url>>)
    ensures r.Completed? ==> discovered <= r.value
    decreases if |discovered| < limit then limit - |discovered| else 0, |frontier|
  {
    if |discovered| < limit && |frontier| > 0 then
      match Round(web, frontier)
      case TimedOut => TimedOut
      case Completed(found) =>
        Enlarges(discovered, found);
        Explore(web, discovered + found, found - discovered, limit)
    else Completed(discovered)
  }

  /** The inner loop: walk the frontier, loading each location and adding its links. */
  method ExpandRound(web: Web, frontier: set<Url>) returns (r: Outcome<set<Url>>)
    ensures r == Round(web, frontier)
  {
    var found: set<Url> := {};
    var rest := frontier;
    while rest != {}
      invariant rest <= frontier
      invariant forall u :: u in frontier - rest ==> web(u).Loaded?
      invariant found == Gather(web, frontier - rest)
      decreases rest
    {
      var u :| u in rest;
      var links := DirectLinks(web, u);
      if links.TimedOut? {
        return TimedOut;
      }
      assert Gather(web, frontier - (rest - {u})) == found + links.value by {
        var done := frontier - (rest - {u});
        forall v | v in Gather(web, done) ensures v in found + links.value {
          var w :| w in done && v in Outlinks(web, w);
          if w != u {
            assert w in frontier - rest;
          }
        }
        forall v | v in found + links.value ensures v in Gather(web, done) {
          if v in found {
            var w :| w in frontier - rest && v in Outlinks(web, w);
            assert w in done;
          } else {
            assert u in done && v in Outlinks(web, u);
          }
        }
      }
      found := found + links.value;
      rest := rest - {u};
    }
    assert frontier - rest == frontier;
    return Completed(found);
  }

  /** The outer loop, as the source runs it from the home page's links `seed`. Besides
      its result, the loop keeps the frontier inside the discovered set, never shrinks
      the discovered set (each round's starting set stays inside it), takes each new frontier outside the previous discovered set,
      and runs another round only after one that enlarged the discovered set. */
  method ExpandFrontier(web: Web, seed: set<Url>, limit: int) returns (r: Outcome<set<Url>>)
    ensures r == Explore(web, seed, seed, limit)
  {
    var discovered := seed;
    var frontier := seed;
    ghost var previous: set<Url> := {};
    while |discovered| < limit && |frontier| > 0
      invariant frontier <= discovered
      invariant seed <= discovered
      invariant frontier !! previous
      invariant previous <= discovered
      invariant frontier != {} ==> previous < discovered
      invariant Explore(web, discovered, frontier, limit) == Explore(web, seed, seed, limit)
      decreases if |discovered| < limit then limit - |discovered| else 0, |frontier|
    {
      var found := ExpandRound(web, frontier);
      if found.TimedOut? {
        return TimedOut;
      }
      Enlarges(discovered, found.value);
      previous := discovered;
      frontier := found.value - discovered;
      discovered := discovered + found.value;
    }
    return Completed(discovered);
  }

  /** Every location of `s` loads, and its links are all in `s`. */
  ghost predicate Closed(web: Web, s: set<Url>) {
    forall u :: u in s ==> web(u).Loaded? && Outlinks(web, u) <= s
  }

  /** Every discovered location outside the frontier has been expanded. */
  ghost predicate Expanded(web: Web, discovered: set<Url>, frontier: set<Url>) {
    forall u :: u in discovered && u !in frontier ==> web(u).Loaded? && Outlinks(web, u) <= discovered
  }

  /** On exit, either at least `limit` locations are discovered, or the frontier ran
      dry and the discovered set is closed under links. */
  lemma {:induction false} ExploreEnds(web: Web, discovered: set<Url>, frontier: set<Url>, limit: int)
    requires frontier <= discovered && Expanded(web, discovered, frontier)
    ensures var r := Explore(web, discovered, frontier, limit);
            r.Completed? ==> |r.value| >= limit || Closed(web, r.value)
    decreases if |discovered| < limit then limit - |discovered| else 0, |frontier|
  {
    if |discovered| < limit && |frontier| > 0 {
      match Round(web, frontier)
      case TimedOut =>
      case Completed(found) =>
        Enlarges(discovered, found);
        var next := discovered + found;
        forall u | u in next && u !in found - discovered
          ensures web(u).Loaded? && Outlinks(web, u) <= next
        {
          assert u in discovered;
          if u in frontier {
            assert forall v :: v in Outlinks(web, u) ==> v in Gather(web, frontier);
          }
        }
        ExploreEnds(web, next, found - discovered, limit);
    }
  }

  /** `path` starts at a location of `start` and follows one link per step. */
  ghost predicate IsLinkPath(web: Web, start: set<Url>, path: seq<Url>) {
    && |path| > 0
    && path[0] in start
    && forall i :: 0 <= i < |path| - 1 ==> path[i + 1] in Outlinks(web, path[i])
  }

  /** `u` is reached from `start` by following links zero or more times. */
  ghost predicate Reachable(web: Web, start: set<Url>, u: Url) {
    exists path :: IsLinkPath(web, start, path) && path[|path| - 1] == u
  }

  /** Only locations reachable from the start are ever discovered. */
  lemma {:induction false} ExploreReaches(web: Web, start: set<Url>, discovered: set<Url>, frontier: set<Url>, limit: int)
    requires frontier <= discovered
    requires forall u :: u in discovered ==> Reachable(web, start, u)
    ensures var r := Explore(web, discovered, frontier, limit);
            r.Completed? ==> forall u :: u in r.value ==> Reachable(web, start, u)
    decreases if |discovered| < limit then limit - |discovered| else 0, |frontier|
  {
    if |discovered| < limit && |frontier| > 0 {
      match Round(web, frontier)
      case TimedOut =>
      case Completed(found) =>
        Enlarges(discovered, found);
        forall v | v in found ensures Reachable(web, start, v) {
          var u :| u in frontier && v in Outlinks(web, u);
          var path :| IsLinkPath(web, start, path) && path[|path| - 1] == u;
          ExtendPath(web, start, path, v);
        }
        ExploreReaches(web, start, discovered + found, found - discovered, limit);
    }
  }

  /** A path followed by a link of its last page is a path. */
  lemma ExtendPath(web: Web, start: set<Url>, path: seq<Url>, v: Url)
    requires IsLinkPath(web, start, path) && v in Outlinks(web, path[|path| - 1])
    ensures IsLinkPath(web, start, path + [v]) && (path + [v])[|path|] == v
  {
    var longer := path + [v];
    forall i | 0 <= i < |longer| - 1 ensures longer[i + 1] in Outlinks(web, longer[i]) {
      if i < |path| - 1 {
        assert longer[i] == path[i] && longer[i + 1] == path[i + 1];
      }
    }
  }

  /** A closed set that holds the start holds the end of every path from it. */
  lemma {:induction false} ClosedHoldsPath(web: Web, start: set<Url>, s: set<Url>, path: seq<Url>)
    requires start <= s && Closed(web, s) && IsLinkPath(web, start, path)
    ensures path[|path| - 1] in s
    decreases |path|
  {
    if |path| > 1 {
      var prefix := path[..|path| - 1];
      assert IsLinkPath(web, start, prefix) by {
        forall i | 0 <= i < |prefix| - 1 ensures prefix[i + 1] in Outlinks(web, prefix[i]) {
          assert prefix[i] == path[i] && prefix[i + 1] == path[i + 1];
        }
      }
      ClosedHoldsPath(web, start, s, prefix);
      assert path[|path| - 2] == prefix[|prefix| - 1];
    }
  }

  /** What the recursive crawl from the seed links returns: it keeps the seed, holds
      only locations reachable from it, and unless it stopped at `limit` it holds
      every location reachable from it, so it is exactly the reachable set. */
  lemma CrawlResult(web: Web, seed: set<Url>, limit: int)
    ensures var r := Explore(web, seed, seed, limit);
            r.Completed? ==>
              && seed <= r.value
              && (forall u :: u in r.value ==> Reachable(web, seed, u))
              && (|r.value| >= limit || forall u :: Reachable(web, seed, u) ==> u in r.value)
  {
    var r := Explore(web, seed, seed, limit);
    forall u | u in seed ensures Reachable(web, seed, u) {
      assert IsLinkPath(web, seed, [u]);
    }
    ExploreReaches(web, seed, seed, seed, limit);
    ExploreEnds(web, seed, seed, limit);
    if r.Completed? && |r.value| < limit {
      forall u | Reachable(web, seed, u) ensures u in r.value {
        var path :| IsLinkPath(web, seed, path) && path[|path| - 1] == u;
        ClosedHoldsPath(web, seed, r.value, path);
      }
    }
  }

  /** When no page times out, the crawl always completes. */
  lemma {:induction false} ExploreCompletes(web: Web, discovered: set<Url>, frontier: set<Url>, limit: int)
    requires forall u :: web(u).Loaded?
    ensures Explore(web, discovered, frontier, limit).Completed?
    decreases if |discovered| < limit then limit - |discovered| else 0, |frontier|
  {
    if |discovered| < limit && |frontier| > 0 {
      assert Round(web, frontier) == Completed(Gather(web, frontier));
      var found := Gather(web, frontier);
      Enlarges(discovered, found);
      ExploreCompletes(web, discovered + found, found - discovered, limit);
    }
  }

  /** With `limit = 0` no round runs: the result is the seed itself. */
  lemma ExploreZeroLimit(web: Web, seed: set<Url>)
    ensures Explore(web, seed, seed, 0) == Completed(seed)
  {
  }

  /** The set of locations in the stored URL file, or none when there is no file. */
  function StoredSet(stored: Option<seq<Url>>): set<Url> {
    match stored
    case None => {}
    case Some(urls) => Elements(urls)
  }

  /** `get_article_urls` without its file write: in recursive mode, the stored set
      united with the crawl from the home page's links; otherwise exactly the home
      page's links, the stored set being discarded. A timeout anywhere escapes. */
  function SiteUrls(web: Web, limit: int, recursive: bool, stored: Option<seq<Url>>): (r: Outcome<set<Url>>)
    ensures !recursive ==> r == LinksAt(web, Home)
    ensures recursive && r.Completed? ==>
              && LinksAt(web, Home).Completed?
              && StoredSet(stored) + LinksAt(web, Home).value <= r.value
  {
    match LinksAt(web, Home)
    case TimedOut => TimedOut
    case Completed(seed) =>
      if !recursive then Completed(seed)
      else match Explore(web, seed, seed, limit)
        case TimedOut => TimedOut
        case Completed(found) => Completed(StoredSet(stored) + found)
  }

  /** In recursive mode with `limit = 0`, the result is the stored set united with
      the home page's links. */
  lemma SiteUrlsZeroLimit(web: Web, stored: Option<seq<Url>>)
    requires LinksAt(web, Home).Completed?
    ensures SiteUrls(web, 0, true, stored) == Completed(StoredSet(stored) + LinksAt(web, Home).value)
  {
    var seed := LinksAt(web, Home).value;
    ExploreZeroLimit(web, seed);
  }
}
