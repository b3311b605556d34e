/** `BaoMoiScrapper.get_article_urls`: walk the numbered listing pages
    `https://baomoi.com/trang{page}.epi`, collecting article anchors, until `limit`
    anchors are collected or a page shows no feed anchor. */
module Pagination {
  import opened Pages

  /** An anchor element. BeautifulSoup compares and hashes tags by their markup, so
      two anchors with the same markup are one element of the collected set; the
      `href` is an attribute of that markup (`None` when absent). */
  datatype Tag = Tag(markup: string, href: Option<string>)

  /** A match of the collecting selector `div.bm_w h3.bm_F a`, and whether it also
      matches the stricter `div.bm_q div.bm_w h3.bm_F a` used by the stop test. */
  datatype Match = Match(tag: Tag, inFeed: bool)

  /** A listing page, as the two selectors see it. */
  datatype Listing = Listing(matches: seq<Match>)

  /** Listing page number `n` (counted from 1); every page past the last one known,
      and any number below 1, is empty. */
  function PageAt(pages: seq<Listing>, n: int): Listing {
    if 1 <= n <= |pages| then pages[n - 1] else Listing([])
  }

  /** The stop test is false: the stricter selector matches something. */
  predicate HasFeed(listing: Listing) {
    exists i :: 0 <= i < |listing.matches| && listing.matches[i].inFeed
  }

  /** The anchors `article_urls.update(...)` adds for one page. */
  function Tags(listing: Listing): set<Tag> {
    set i | 0 <= i < |listing.matches| :: listing.matches[i].tag
  }

  /** The anchors collected from pages `1 .. n - 1`. */
  function Gathered(pages: seq<Listing>, n: int): set<Tag>
    decreases n
  {
    if n <= 1 then {} else Gathered(pages, n - 1) + Tags(PageAt(pages, n - 1))
  }

  /** Page `n` is reached with fewer than `limit` anchors collected. */
  predicate BelowLimit(pages: seq<Listing>, n: int, limit: int) {
    |Gathered(pages, n)| < limit
  }

  /** The paging loop stops at page `stop`: either because `limit` anchors are
      collected by then, or because page `stop` has no feed anchor; every earlier page
      had a feed anchor and was reached with fewer than `limit` anchors collected. */
  ghost predicate StopsAt(pages: seq<Listing>, limit: int, stop: int) {
    && 1 <= stop <= |pages| + 1
    && (|Gathered(pages, stop)| >= limit || !HasFeed(PageAt(pages, stop)))
    && forall n :: 1 <= n < stop ==> HasFeed(PageAt(pages, n)) && BelowLimit(pages, n, limit)
  }

  /** The stopping page is determined by the pages and the limit. */
  lemma StopIsUnique(pages: seq<Listing>, limit: int, stop: int, other: int)
    requires StopsAt(pages, limit, stop) && StopsAt(pages, limit, other)
    ensures stop == other
  {
    assert stop < other ==> HasFeed(PageAt(pages, stop)) && BelowLimit(pages, stop, limit);
    assert other < stop ==> HasFeed(PageAt(pages, other)) && BelowLimit(pages, other, limit);
  }

  /** With `limit <= 0` the loop body never runs: no page is loaded past the test
      and nothing is collected. */
  lemma StopsAtOnceWithoutLimit(pages: seq<Listing>, limit: int, stop: int)
    requires limit <= 0 && StopsAt(pages, limit, stop)
    ensures stop == 1 && Gathered(pages, stop) == {}
  {
    assert stop > 1 ==> BelowLimit(pages, 1, limit);
  }

  /** The paging loop: the result is every anchor of the pages before the page it
      stops at. */
  method CollectTags(pages: seq<Listing>, limit: int) returns (tags: set<Tag>, stop: int)
    ensures StopsAt(pages, limit, stop)
    ensures tags == Gathered(pages, stop)
  {
    var page := 1;
    tags := {};
    while |tags| < limit
      invariant 1 <= page <= |pages| + 1
      invariant tags == Gathered(pages, page)
      invariant forall n :: 1 <= n < page ==> HasFeed(PageAt(pages, n))
      invariant forall n :: 1 <= n < page ==> BelowLimit(pages, n, limit)
      decreases |pages| + 1 - page
    {
      var listing := PageAt(pages, page);
      if !(exists i :: 0 <= i < |listing.matches| && listing.matches[i].inFeed) {
        break;
      }
      assert Gathered(pages, page + 1) == Gathered(pages, page) + Tags(listing);
      tags := tags + Tags(listing);
      page := page + 1;
    }
    stop := page;
  }

  /** The hrefs of a set of anchors, as `{a.get("href") for a in tags}`. */
  function Hrefs(tags: set<Tag>): set<Option<string>> {
    set t | t in tags :: t.href
  }

  /** The loop that reads each collected anchor's `href` into a set. */
  method HrefsOf(tags: set<Tag>) returns (urls: set<Option<string>>)
    ensures urls == Hrefs(tags)
  {
    urls := {};
    var rest := tags;
    while rest != {}
      invariant rest <= tags
      invariant urls == Hrefs(tags - rest)
      decreases rest
    {
      var t :| t in rest;
      assert Hrefs(tags - (rest - {t})) == urls + {t.href};
      urls := urls + {t.href};
      rest := rest - {t};
    }
    assert tags - rest == tags;
  }

  /** Distinct anchors may share an href, so the stored URL list can be shorter
      than the number of anchors collected (and than `limit`). */
  lemma {:induction false} HrefsAtMostTags(tags: set<Tag>)
    ensures |Hrefs(tags)| <= |tags|
    decreases tags
  {
    if tags != {} {
      var t :| t in tags;
      var rest := tags - {t};
      HrefsAtMostTags(rest);
      assert Hrefs(tags) == Hrefs(rest) + {t.href};
    }
  }

  /** Two anchors with different markup and the same href give one stored URL. */
  lemma SharedHref(a: string, b: string, href: Option<string>)
    requires a != b
    ensures var tags := {Tag(a, href), Tag(b, href)};
            |tags| == 2 && Hrefs(tags) == {href}
  {
    var tags := {Tag(a, href), Tag(b, href)};
    assert Hrefs(tags) == {href};
  }
}
