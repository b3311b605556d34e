/** `VnExpressScrapper._get_article_urls`: the article links found on one page. */
module Links {
  import opened Text
  import opened Pages

  /** The home page the VnExpress crawl starts from. */
  const Home: Url := "https://vnexpress.net/"

  /** The substring an `href` must contain to be kept. */
  const Domain: string := "vnexpress.net/"

  /** The comment-box anchor that `replace` deletes from every kept link. The
      deletion is one left-to-right pass, so joining the text around a deleted
      occurrence can form a new one, which stays (`NormalizeSinglePass`). */
  const CommentAnchor: string := "#box_comment_vne"

  /** A candidate link is kept only when its `href` is a string containing the domain;
      any other link is dropped (and reported), never fatal. */
  predicate Kept(href: Option<string>) {
    href.Some? && Contains(href.value, Domain)
  }

  /** `href.replace("#box_comment_vne", "")`. */
  function Normalize(href: string): (u: Url)
    ensures |u| <= |href|
    ensures !Contains(href, CommentAnchor) ==> u == href
  {
    var u := RemoveAll(href, CommentAnchor);
    if Contains(href, CommentAnchor) then u
    else RemoveAllAbsent(href, CommentAnchor); u
  }

  /** The set of links a page yields: the normalised form of every kept `href`. */
  function LinkSet(anchors: seq<Option<string>>): set<Url> {
    set i | 0 <= i < |anchors| && Kept(anchors[i]) :: Normalize(anchors[i].value)
  }

  /** The loop over the matched anchors, adding each kept, normalised link to a set. */
  method ArticleUrls(anchors: seq<Option<string>>) returns (urls: set<Url>)
    ensures urls == LinkSet(anchors)
  {
    urls := {};
    for i := 0 to |anchors|
      invariant urls == LinkSet(anchors[..i])
    {
      var href := anchors[i];
      if href.Some? && Contains(href.value, Domain) {
        urls := urls + {Normalize(href.value)};
      }
      assert anchors[..i + 1] == anchors[..i] + [href];
      assert LinkSet(anchors[..i + 1]) == LinkSet(anchors[..i]) + (if Kept(href) then {Normalize(href.value)} else {}) by {
        var next := anchors[..i + 1];
        forall u | u in LinkSet(next)
          ensures u in LinkSet(anchors[..i]) + (if Kept(href) then {Normalize(href.value)} else {})
        {
          var j :| 0 <= j < |next| && Kept(next[j]) && u == Normalize(next[j].value);
          if j < i {
            assert next[j] == anchors[..i][j];
          }
        }
      }
    }
    assert anchors[..|anchors|] == anchors;
  }

  /** The links found by loading `url`: a timeout while loading it escapes. */
  function LinksAt(web: Web, url: Url): Outcome<set<Url>> {
    match web(url)
    case Timeout => TimedOut
    case Loaded(page) => Completed(LinkSet(page.anchors))
  }

  /** `_get_article_urls(url)`: load the page, then collect its links. */
  method DirectLinks(web: Web, url: Url) returns (r: Outcome<set<Url>>)
    ensures r == LinksAt(web, url)
  {
    match web(url)
    case Timeout =>
      r := TimedOut;
    case Loaded(page) =>
      var urls := ArticleUrls(page.anchors);
      r := Completed(urls);
  }

  /** Every link in the set comes from a kept `href`, and every kept `href`
      contributes its normalised form. */
  lemma LinkSetMembers(anchors: seq<Option<string>>, u: Url)
    ensures u in LinkSet(anchors) <==>
            exists i :: 0 <= i < |anchors| && Kept(anchors[i]) && u == Normalize(anchors[i].value)
  {
  }

  /** Every occurrence of the anchor after a stretch without `#` is cut, and
      normalising goes on after it: a link with the anchor repeated, or with text
      after it, loses each occurrence. */
  lemma NormalizeCutsAnchor(u: string, v: string)
    requires forall k :: 0 <= k < |u| ==> u[k] != '#'
    ensures Normalize(u + CommentAnchor + v) == u + Normalize(v)
  {
    RemoveAllSkips(u, v, CommentAnchor);
  }

  /** `replace` makes a single pass: deleting the anchor from the middle of
      `#box_com#box_comment_vnement_vne` (the anchor inserted into itself after its
      eighth character) joins the two ends into a new anchor, which is kept. */
  lemma NormalizeSinglePass()
    ensures Normalize(CommentAnchor[..8] + CommentAnchor + CommentAnchor[8..]) == CommentAnchor
  {
    var u, rest := CommentAnchor[..8], CommentAnchor + CommentAnchor[8..];
    var s := u + rest;
    forall k: nat | k < |u| ensures !OccursAt(s, CommentAnchor, k) {
      if k == 0 {
        assert s[8] == '#' && CommentAnchor[8] == 'm';
        assert s[k..k + |CommentAnchor|][8] == s[8];
      } else {
        assert s[k] == CommentAnchor[k] != '#';
        assert k + |CommentAnchor| <= |s| ==> s[k..k + |CommentAnchor|][0] == s[k];
      }
    }
    RemoveAllKeeps(u, rest, CommentAnchor);
    assert rest[..|CommentAnchor|] == CommentAnchor && rest[|CommentAnchor|..] == CommentAnchor[8..];
    assert RemoveAll(rest, CommentAnchor) == CommentAnchor[8..];
    assert s == CommentAnchor[..8] + CommentAnchor + CommentAnchor[8..];
    assert Normalize(s) == RemoveAll(s, CommentAnchor);
  }

  /** An article link followed by the comment anchor (and holding no other `#`)
      is stored without the anchor. */
  lemma NormalizeCommentLink(u: string)
    requires forall k :: 0 <= k < |u| ==> u[k] != '#'
    ensures Normalize(u + CommentAnchor) == u
  {
    RemoveAllSuffix(u, CommentAnchor);
  }
}
