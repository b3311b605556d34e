/** The batch loops of `get_articles` in both scrapers: load each article page,
    skip the ones that yield no record, build an `Article` from the others. */
module Records {
  import opened Text
  import opened Pages

  datatype Site = VnExpress | BaoMoi

  /** The folder label of a VnExpress podcast page. */
  const Podcasts: string := "Podcasts"

  /** The site prefix BaoMoi's stored paths are loaded and recorded under. */
  const BaoMoiHost: string := "https://baomoi.com"

  /** A VnExpress page whose folder label, stripped, reads `Podcasts`. */
  predicate IsPodcast(page: Page) {
    page.folder.Some? && Strip(page.folder.value) == Podcasts
  }

  /** `map(lambda x: x.text.strip(), tags)`. */
  function StripEach(texts: seq<string>): (r: seq<string>)
    ensures |r| == |texts|
    ensures forall i :: 0 <= i < |r| ==> r[i] == Strip(texts[i])
  {
    if texts == [] then [] else [Strip(texts[0])] + StripEach(texts[1..])
  }

  /** `" ".join(...)` of the stripped paragraph texts. */
  function Detail(paragraphs: seq<string>): (d: string)
    ensures paragraphs == [] ==> d == ""
  {
    JoinSpace(StripEach(paragraphs))
  }

  /** The record one loaded page yields at `address`, or none when it is skipped:
      a page without a title is skipped on both sites, a podcast page on VnExpress.
      Missing category and description become `""`. On VnExpress the description is
      always `""`: its value is the first child of the description element whose
      `type(...)` equals the string `"bs4.element.NavigableString"`, and a type object
      never equals a string. */
  function Extract(site: Site, address: Url, page: Page): (r: Option<Article>)
    ensures r.None? <==> page.title.None? || (site == VnExpress && IsPodcast(page))
    ensures r.Some? ==>
              && r.value.url == address
              && Trimmed(r.value.title) && (exists i: nat :: StrippedAt(page.title.value, r.value.title, i))
              && (page.category.None? ==> r.value.cat == "")
              && (page.category.Some? ==> r.value.cat == Strip(page.category.value))
              && (site == VnExpress || page.description.None? ==> r.value.desc == "")
              && (site == BaoMoi && page.description.Some? ==> r.value.desc == Strip(page.description.value))
              && r.value.detail == JoinSpace(StripEach(page.paragraphs))
  {
    if site == VnExpress && IsPodcast(page) then None
    else if page.title.None? then None
    else
      var cat := if page.category.None? then "" else Strip(page.category.value);
      var desc := if site == VnExpress || page.description.None? then "" else Strip(page.description.value);
      Some(Article(Strip(page.title.value), address, cat, desc, Detail(page.paragraphs)))
  }

  /** The records (zero or one) loading `address` yields. */
  function RecordAt(site: Site, web: Web, address: Url): seq<Article> {
    match web(address)
    case Timeout => []
    case Loaded(page) =>
      match Extract(site, address, page)
      case None => []
      case Some(a) => [a]
  }

  /** The records of `addresses`, in their order, when none of them times out. */
  function Harvest(site: Site, web: Web, addresses: seq<Url>): (r: seq<Article>)
    ensures |r| <= |addresses|
    decreases |addresses|
  {
    if addresses == [] then []
    else
      var n := |addresses| - 1;
      Harvest(site, web, addresses[..n]) + RecordAt(site, web, addresses[n])
  }

  /** Every record is recorded under one of the addresses it was harvested from. */
  lemma {:induction false} HarvestUrls(site: Site, web: Web, addresses: seq<Url>)
    ensures forall a :: a in Harvest(site, web, addresses) ==> a.url in addresses
    decreases |addresses|
  {
    if addresses != [] {
      var n := |addresses| - 1;
      HarvestUrls(site, web, addresses[..n]);
      forall a | a in Harvest(site, web, addresses) ensures a.url in addresses {
        if a in Harvest(site, web, addresses[..n]) {
          assert a.url in addresses[..n];
        } else {
          assert a in RecordAt(site, web, addresses[n]);
        }
      }
    }
  }

  /** Harvesting one more address appends its record, if any. */
  lemma HarvestSnoc(site: Site, web: Web, addresses: seq<Url>, address: Url)
    ensures Harvest(site, web, addresses + [address]) == Harvest(site, web, addresses) + RecordAt(site, web, address)
  {
    var all := addresses + [address];
    assert all[..|all| - 1] == addresses;
  }

  lemma Associative<T>(a: seq<T>, b: seq<T>, c: seq<T>)
    ensures a + (b + c) == (a + b) + c
  {
  }

  /** A non-empty list is its prefix followed by its last element. */
  lemma SplitLast<T>(s: seq<T>)
    requires s != []
    ensures s[..|s| - 1] + [s[|s| - 1]] == s
  {
  }

  /** Appending nothing leaves a list as it is. */
  lemma AppendNothing<T>(s: seq<T>)
    ensures s + [] == s
  {
  }

  /** The prefix as long as the list is the list. */
  lemma WholePrefix<T>(s: seq<T>)
    ensures s[..|s|] == s
  {
  }

  /** Extending a prefix by one element. */
  lemma PrefixSnoc<T>(s: seq<T>, i: nat)
    requires i < |s|
    ensures s[..i + 1] == s[..i] + [s[i]]
  {
  }

  /** The inductive step of `HarvestAppend`: one more address at the end of `second`. */
  lemma HarvestAppendStep(site: Site, web: Web, first: seq<Url>, init: seq<Url>, last: Url)
    requires Harvest(site, web, first + init) == Harvest(site, web, first) + Harvest(site, web, init)
    ensures Harvest(site, web, first + (init + [last])) == Harvest(site, web, first) + Harvest(site, web, init + [last])
  {
    Associative(first, init, [last]);
    HarvestSnoc(site, web, first + init, last);
    HarvestSnoc(site, web, init, last);
    Associative(Harvest(site, web, first), Harvest(site, web, init), RecordAt(site, web, last));
  }

  /** Harvesting two lists one after the other gives the two harvests one after the
      other: each record appears in the order of its address. */
  lemma {:induction false} HarvestAppend(site: Site, web: Web, first: seq<Url>, second: seq<Url>)
    ensures Harvest(site, web, first + second) == Harvest(site, web, first) + Harvest(site, web, second)
    decreases |second|
  {
    if second == [] {
      assert first + second == first;
      assert Harvest(site, web, second) == [];
      assert Harvest(site, web, first) + [] == Harvest(site, web, first);
    } else {
      var init, last := second[..|second| - 1], second[|second| - 1];
      HarvestAppend(site, web, first, init);
      HarvestAppendStep(site, web, first, init, last);
      SplitLast(second);
    }
  }

  /** The index of the first address whose page times out, or the length of the
      list when none does. */
  function FirstTimeout(web: Web, addresses: seq<Url>): (k: nat)
    ensures k <= |addresses|
    ensures k < |addresses| ==> web(addresses[k]).Timeout?
    ensures forall j :: 0 <= j < k ==> web(addresses[j]).Loaded?
  {
    if addresses == [] then 0
    else if web(addresses[0]).Timeout? then 0
    else 1 + FirstTimeout(web, addresses[1..])
  }

  /** An address before the first timeout that loads leaves the first timeout
      further on. */
  lemma LoadedBeforeTimeout(web: Web, addresses: seq<Url>, i: nat)
    requires i <= FirstTimeout(web, addresses) && i < |addresses| && web(addresses[i]).Loaded?
    ensures i < FirstTimeout(web, addresses)
  {
  }

  /** The VnExpress batch: the `try` around the whole loop catches the first timeout,
      so the batch is the records of the addresses before it. */
  function VneBatch(web: Web, urls: seq<Url>): (r: seq<Article>)
    ensures |r| <= FirstTimeout(web, urls)
    ensures forall a :: a in r ==> a.url in urls[..FirstTimeout(web, urls)]
  {
    HarvestUrls(VnExpress, web, urls[..FirstTimeout(web, urls)]);
    Harvest(VnExpress, web, urls[..FirstTimeout(web, urls)])
  }

  /** The records gathered before a timeout are all kept, in order. */
  lemma VneBatchKeepsGathered(web: Web, urls: seq<Url>, j: nat)
    requires j <= FirstTimeout(web, urls)
    ensures Harvest(VnExpress, web, urls[..j]) <= VneBatch(web, urls)
  {
    var k := FirstTimeout(web, urls);
    assert urls[..k] == urls[..j] + urls[j..k];
    HarvestAppend(VnExpress, web, urls[..j], urls[j..k]);
  }

  /** A timeout at index `i` ends the batch: whatever follows is never loaded. */
  lemma VneBatchStopsAt(web: Web, urls: seq<Url>, i: nat)
    requires i < |urls| && web(urls[i]).Timeout?
    ensures VneBatch(web, urls) == VneBatch(web, urls[..i])
  {
    var k := FirstTimeout(web, urls);
    var p := urls[..i];
    var kp := FirstTimeout(web, p);
    if k < i {
      assert p[k] == urls[k];
      assert kp == k;
    } else {
      assert kp == i;
    }
    assert p[..kp] == urls[..k];
  }

  /** Without a timeout, the batch holds the record of every address that yields one. */
  lemma VneBatchComplete(web: Web, urls: seq<Url>)
    requires forall i :: 0 <= i < |urls| ==> web(urls[i]).Loaded?
    ensures VneBatch(web, urls) == Harvest(VnExpress, web, urls)
  {
    assert FirstTimeout(web, urls) == |urls|;
    WholePrefix(urls);
  }

  /** The body of the VnExpress loop for one loaded page: `continue` past a podcast
      page and a page without a title, otherwise read the fields. */
  method ReadVnePage(url: Url, page: Page) returns (r: Option<Article>)
    ensures r == Extract(VnExpress, url, page)
  {
    if page.folder.Some? && Strip(page.folder.value) == Podcasts {
      return None;
    }
    if page.title.None? {
      return None;
    }
    var title := Strip(page.title.value);
    var cat := if page.category.None? then "" else Strip(page.category.value);
    var desc := "";
    var detail := if |page.paragraphs| == 0 then "" else JoinSpace(StripEach(page.paragraphs));
    assert !IsPodcast(page) && detail == Detail(page.paragraphs);
    r := Some(Article(title, url, cat, desc, detail));
  }

  /** The VnExpress loop: stops the batch at the first timeout and keeps what it has;
      `continue`s past podcast pages and pages without a title. */
  method CollectVne(web: Web, urls: seq<Url>) returns (articles: seq<Article>)
    ensures articles == VneBatch(web, urls)
  {
    articles := [];
    var i := 0;
    while i < |urls|
      invariant 0 <= i <= |urls|
      invariant i <= FirstTimeout(web, urls)
      invariant articles == Harvest(VnExpress, web, urls[..i])
    {
      var url := urls[i];
      PrefixSnoc(urls, i);
      HarvestSnoc(VnExpress, web, urls[..i], url);
      var fetched := web(url);
      if fetched.Timeout? {
        break;
      }
      LoadedBeforeTimeout(web, urls, i);
      var record := ReadVnePage(url, fetched.page);
      if record.Some? {
        articles := articles + [record.value];
      } else {
        AppendNothing(articles);
      }
      i := i + 1;
    }
    assert FirstTimeout(web, urls) == i;
  }

  /** Python's `f"{x}"` for a stored path that may be JSON `null`. */
  function Show(path: Option<string>): string {
    match path
    case None => "None"
    case Some(s) => s
  }

  /** `f"https://baomoi.com{url}"`: where a BaoMoi path is loaded and recorded. */
  function BaoMoiAddress(path: Option<string>): (a: Url)
    ensures |BaoMoiHost| <= |a| && a[..|BaoMoiHost|] == BaoMoiHost && a[|BaoMoiHost|..] == Show(path)
  {
    BaoMoiHost + Show(path)
  }

  /** The address of every stored path, in order. */
  function BaoMoiAddresses(paths: seq<Option<string>>): (r: seq<Url>)
    ensures |r| == |paths|
    ensures forall i :: 0 <= i < |r| ==> r[i] == BaoMoiAddress(paths[i])
  {
    seq(|paths|, i requires 0 <= i < |paths| => BaoMoiAddress(paths[i]))
  }

  /** The BaoMoi batch: nothing catches a timeout there, so one timeout anywhere ends
      the whole call and no record survives. */
  function BaoMoiBatch(web: Web, paths: seq<Option<string>>): (r: Outcome<seq<Article>>)
    ensures r.TimedOut? <==> exists i :: 0 <= i < |paths| && web(BaoMoiAddress(paths[i])).Timeout?
    ensures r.Completed? ==> |r.value| <= |paths|
  {
    var addresses := BaoMoiAddresses(paths);
    if FirstTimeout(web, addresses) < |addresses| then TimedOut
    else Completed(Harvest(BaoMoi, web, addresses))
  }

  /** Every BaoMoi record is recorded under the site prefix followed by one of the
      stored paths (rendered as an f-string renders it). */
  lemma BaoMoiRecordsPrefixed(web: Web, paths: seq<Option<string>>)
    ensures var r := BaoMoiBatch(web, paths);
            r.Completed? ==> forall a :: a in r.value ==>
              && (exists i :: 0 <= i < |paths| && a.url == BaoMoiHost + Show(paths[i]))
              && |BaoMoiHost| <= |a.url| && a.url[..|BaoMoiHost|] == BaoMoiHost
  {
    var addresses := BaoMoiAddresses(paths);
    HarvestUrls(BaoMoi, web, addresses);
    forall a | a in Harvest(BaoMoi, web, addresses)
      ensures exists i :: 0 <= i < |paths| && a.url == BaoMoiHost + Show(paths[i])
      ensures |BaoMoiHost| <= |a.url| && a.url[..|BaoMoiHost|] == BaoMoiHost
    {
      var i :| 0 <= i < |addresses| && addresses[i] == a.url;
      assert (BaoMoiHost + Show(paths[i]))[..|BaoMoiHost|] == BaoMoiHost;
    }
  }

  /** The body of the BaoMoi loop for one loaded page: `continue` past a page
      without a title, otherwise read the fields. */
  method ReadBaoMoiPage(url: Url, page: Page) returns (r: Option<Article>)
    ensures r == Extract(BaoMoi, url, page)
  {
    if page.title.None? {
      return None;
    }
    var title := Strip(page.title.value);
    var cat := if page.category.None? then "" else Strip(page.category.value);
    var desc := if page.description.None? then "" else Strip(page.description.value);
    var detail := JoinSpace(StripEach(page.paragraphs));
    r := Some(Article(title, url, cat, desc, detail));
  }

  /** The BaoMoi loop: no `try`, so a timeout escapes; pages without a title are
      skipped. */
  method CollectBaoMoi(web: Web, paths: seq<Option<string>>) returns (r: Outcome<seq<Article>>)
    ensures r == BaoMoiBatch(web, paths)
  {
    ghost var addresses := BaoMoiAddresses(paths);
    var articles := [];
    for i := 0 to |paths|
      invariant i <= FirstTimeout(web, addresses)
      invariant articles == Harvest(BaoMoi, web, addresses[..i])
    {
      var url := BaoMoiAddress(paths[i]);
      assert addresses[i] == url;
      PrefixSnoc(addresses, i);
      HarvestSnoc(BaoMoi, web, addresses[..i], url);
      var fetched := web(url);
      if fetched.Timeout? {
        assert FirstTimeout(web, addresses) == i;
        return TimedOut;
      }
      var record := ReadBaoMoiPage(url, fetched.page);
      if record.Some? {
        articles := articles + [record.value];
      } else {
        AppendNothing(articles);
      }
    }
    assert FirstTimeout(web, addresses) == |addresses|;
    assert addresses[..|paths|] == addresses;
    r := Completed(articles);
  }
}
