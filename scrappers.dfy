/** The two scraper classes. Each owns two JSON files, modelled as fields that hold
    the file's decoded contents, or `None` while the file does not exist:
    VnExpress `vne_url.json` and `vne.json`, BaoMoi `bm_url.json` and `bm.json`. */
module Scrappers {
  import opened Pages
  import opened Links
  import opened Frontier
  import opened Records
  import opened Pagination

  class VnExpressScrapper {
    const limit: int
    const recursive: bool
    /** The site as the browser loads it. */
    const web: Web
    /** `vne_url.json`: the stored list of article locations. */
    var urlFile: Option<seq<Url>>
    /** `vne.json`: the stored article records. */
    var articleFile: Option<seq<Article>>

    /** `Scrapper.__init__`: `limit` defaults to 50 and `recursive` to `false`. The
        files are whatever exists on disk at that moment. */
    constructor (web: Web, urlFile: Option<seq<Url>>, articleFile: Option<seq<Article>>,
                 limit: int := 50, recursive: bool := false)
      ensures this.limit == limit && this.recursive == recursive && this.web == web
      ensures this.urlFile == urlFile && this.articleFile == articleFile
    {
      this.limit := limit;
      this.recursive := recursive;
      this.web := web;
      this.urlFile := urlFile;
      this.articleFile := articleFile;
    }

    /** `get_article_urls`: the locations of `SiteUrls`, listed in some order and
        written to `vne_url.json`. A timeout escapes before the file is written. */
    method GetArticleUrls() returns (r: Outcome<seq<Url>>)
      modifies this
      ensures articleFile == old(articleFile)
      ensures match SiteUrls(web, limit, recursive, old(urlFile))
              case TimedOut => r == TimedOut && urlFile == old(urlFile)
              case Completed(urls) =>
                r.Completed? && Distinct(r.value) && Elements(r.value) == urls && urlFile == Some(r.value)
    {
      var stored: set<Url> := if urlFile.Some? then Elements(urlFile.value) else {};
      var urls: set<Url>;
      if recursive {
        var seed := DirectLinks(web, Home);
        if seed.TimedOut? {
          return TimedOut;
        }
        var found := ExpandFrontier(web, seed.value, limit);
        if found.TimedOut? {
          return TimedOut;
        }
        urls := stored + found.value;
      } else {
        var seed := DirectLinks(web, Home);
        if seed.TimedOut? {
          return TimedOut;
        }
        urls := seed.value;
      }
      var listed := ListOf(urls);
      urlFile := Some(listed);
      r := Completed(listed);
    }

    /** `get_articles`: a stored `vne.json` is returned unchanged and nothing is
        loaded; otherwise the locations come from `vne_url.json`, or from
        `get_article_urls` when that file is missing, and the batch (which stops at
        the first timeout and keeps what it has) is written to `vne.json`. */
    method GetArticles() returns (r: Outcome<seq<Article>>)
      modifies this
      ensures old(articleFile).Some? ==>
                r == Completed(old(articleFile).value)
                && urlFile == old(urlFile) && articleFile == old(articleFile)
      ensures old(articleFile).None? && old(urlFile).Some? ==>
                r == Completed(VneBatch(web, old(urlFile).value))
                && urlFile == old(urlFile) && articleFile == Some(r.value)
      ensures old(articleFile).None? && old(urlFile).None? ==>
                match SiteUrls(web, limit, recursive, None)
                case TimedOut => r == TimedOut && urlFile == None && articleFile == None
                case Completed(urls) =>
                  && urlFile.Some? && Distinct(urlFile.value) && Elements(urlFile.value) == urls
                  && r == Completed(VneBatch(web, urlFile.value)) && articleFile == Some(r.value)
    {
      if articleFile.Some? {
        return Completed(articleFile.value);
      }
      var urls: seq<Url>;
      if urlFile.Some? {
        urls := urlFile.value;
      } else {
        var listed := GetArticleUrls();
        if listed.TimedOut? {
          return TimedOut;
        }
        urls := listed.value;
        urlFile := Some(urls);
      }
      var articles := CollectVne(web, urls);
      articleFile := Some(articles);
      r := Completed(articles);
    }
  }

  /** The stored BaoMoi list is what the paging loop collects: the distinct hrefs of
      the anchors of the pages before the page it stops at. */
  ghost predicate PagedUrls(listings: seq<Listing>, limit: int, urls: seq<Option<string>>) {
    Distinct(urls) && exists stop :: StopsAt(listings, limit, stop) && Elements(urls) == Hrefs(Gathered(listings, stop))
  }

  class BaoMoiScrapper {
    const limit: int
    /** Accepted by the constructor, never read by this scraper. */
    const recursive: bool
    /** The listing pages `trang1.epi`, `trang2.epi`, ... as the browser loads them. */
    const listings: seq<Listing>
    /** The article pages as the browser loads them. */
    const web: Web
    /** `bm_url.json`: the stored list of article paths (`null` for an anchor
        without `href`). */
    var urlFile: Option<seq<Option<string>>>
    /** `bm.json`: the stored article records. */
    var articleFile: Option<seq<Article>>

    /** `Scrapper.__init__`: `limit` defaults to 50 and `recursive` to `false`. */
    constructor (listings: seq<Listing>, web: Web,
                 urlFile: Option<seq<Option<string>>>, articleFile: Option<seq<Article>>,
                 limit: int := 50, recursive: bool := false)
      ensures this.limit == limit && this.recursive == recursive
      ensures this.listings == listings && this.web == web
      ensures this.urlFile == urlFile && this.articleFile == articleFile
    {
      this.limit := limit;
      this.recursive := recursive;
      this.listings := listings;
      this.web := web;
      this.urlFile := urlFile;
      this.articleFile := articleFile;
    }

    /** `get_article_urls`: page through the listings, read the hrefs of the
        collected anchors, write them to `bm_url.json`. */
    method GetArticleUrls() returns (r: seq<Option<string>>)
      modifies this
      ensures articleFile == old(articleFile)
      ensures urlFile == Some(r) && PagedUrls(listings, limit, r)
    {
      var tags, stop := CollectTags(listings, limit);
      var urls := HrefsOf(tags);
      r := ListOf(urls);
      urlFile := Some(r);
    }

    /** `get_articles`: the paths come from `bm_url.json`, or from
        `get_article_urls` when that file is missing (it is then written); the batch
        is written to `bm.json` unless a timeout escapes. A stored `bm.json` is
        never read. */
    method GetArticles() returns (r: Outcome<seq<Article>>)
      modifies this
      ensures old(urlFile).Some? ==> urlFile == old(urlFile)
      ensures old(urlFile).None? ==> urlFile.Some? && PagedUrls(listings, limit, urlFile.value)
      ensures urlFile.Some? && r == BaoMoiBatch(web, urlFile.value)
      ensures articleFile == if r.Completed? then Some(r.value) else old(articleFile)
    {
      var paths: seq<Option<string>>;
      if urlFile.Some? {
        paths := urlFile.value;
      } else {
        paths := GetArticleUrls();
        urlFile := Some(paths);
      }
      r := CollectBaoMoi(web, paths);
      if r.Completed? {
        articleFile := Some(r.value);
      }
    }
  }
}
