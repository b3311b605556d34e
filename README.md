# CS114 news scrapers and labelling app, modelled in Dafny

The modelled system has three parts.

- **Two news scrapers** build a corpus of article records:
  - `VnExpressScrapper` finds article links on vnexpress.net. It reads the home page, and in recursive mode it also expands a link frontier breadth-first until `limit` links are known. It then loads every article page into an `Article` record.
  - `BaoMoiScrapper` pages through the numbered listing pages of baomoi.com until it has `limit` anchors or reaches a page without a feed. It then loads every article page.
- **Cache files.** Each scraper caches its link list and its records in two JSON files.
- **The labelling app.** This small Flask app serves one random unlabelled record at a time (`/get_data`). It stores the label the operator submits (`/submit`) and rewrites the file.

## How the model represents the system

- **Pages.** A loaded page is a value (`Pages.Page`) holding what the CSS selectors find on it. The browser is a function `Web` from a location to `Loaded(page)` or `Timeout`.
- **Scrapers.** Each scraper is a class. Its two JSON files are `Option` fields, and `None` means the file does not exist. Its methods change those fields as the Python methods rewrite the files.
- **Loops.** The loops of the source are methods with loop invariants. Each loop is proved equal to a function:
  - `ArticleUrls` is proved equal to `LinkSet`;
  - `ExpandRound` to `Round`;
  - `ExpandFrontier` to `Explore`;
  - `CollectVne` to `VneBatch`, with its per-page body `ReadVnePage` proved equal to `Extract`;
  - `CollectBaoMoi` to `BaoMoiBatch`, with `ReadBaoMoiPage` proved equal to `Extract`;
  - `CollectTags` to `Gathered`.
- **Proofs.** The properties are proved about those functions.
- **Labelling app.** The app is the class `Labeling.LabelStore`. Its fields are the in-memory list and the `bm.json` file as last written.

Where a general description of the system and the code differ, the model follows the code:

- **Blank titles.** A page whose title element exists but whose text is blank still yields a record, with title `""`. Only a missing title element skips the page.
- **VnExpress descriptions.** A VnExpress record's `desc` is always `""`. The code compares `type(x)` with the string `"bs4.element.NavigableString"`, and a type object never equals a string. So the fallback `""` is always taken.
- **Timeouts.** They are handled differently in each scraper:
  - In the VnExpress article batch, a timeout stops the batch and the records gathered so far are kept and written.
  - In the BaoMoi batch there is no `try`, so a timeout ends the whole call and `bm.json` is not written.
  - In VnExpress link discovery, a timeout also escapes and `vne_url.json` is not written.
- **BaoMoi duplicates.** BaoMoi collects anchor elements, not strings, so duplicates are removed by element markup. Two anchors with different markup but the same `href` give one stored path. An anchor without `href` gives a `null` path, which is loaded and recorded as `https://baomoi.comNone`.
- **BaoMoi cache.** BaoMoi `get_articles` never reads an existing `bm.json`.
- **Comment anchor.** `replace("#box_comment_vne", "")` makes one left-to-right pass, so removing one occurrence can join its two sides into a new one. For example, `#box_com#box_comment_vnement_vne` becomes `#box_comment_vne`, and the stored link still contains the anchor.

## Model

| member | source | states |
|---|---|---|
| Text.Strip | crawler/utils/scrapper.py:182 | `str.strip()`: the result is no longer than the input, has no whitespace at either end, and is a contiguous slice of the input with only whitespace cut off on each side |
| Text.StripTrimmed | crawler/utils/scrapper.py:182 | a string with no surrounding whitespace is unchanged by `strip` |
| Text.StripIdempotent | crawler/utils/scrapper.py:182 | stripping twice is stripping once |
| Text.RemoveAll | crawler/utils/scrapper.py:84 | `replace(pat, "")` never lengthens the string |
| Text.RemoveAllAbsent | crawler/utils/scrapper.py:84 | a string not containing the pattern is unchanged by `replace(pat, "")` |
| Text.RemoveAllSuffix | crawler/utils/scrapper.py:84 | a trailing pattern whose first character does not occur before it is removed exactly |
| Text.RemoveAllKeeps | crawler/utils/scrapper.py:84 | a prefix in which no occurrence of the pattern starts is kept as it is, and the rest is processed on its own |
| Text.RemoveAllSkips | crawler/utils/scrapper.py:84 | when the first character of the pattern does not occur before an occurrence, that occurrence is cut out exactly: `replace` of `u + pat + v` is `u` followed by `replace` of `v` |
| Text.Contains | crawler/utils/scrapper.py:83 | `pat in s`: `pat` occurs at some position of `s`; `RemoveAllAbsent` and `Links.LinkSetMembers` state what it decides |
| Text.JoinSpace | crawler/utils/scrapper.py:218 | `" ".join` of no parts is `""`, of one part is that part |
| Text.JoinSpaceLength | crawler/utils/scrapper.py:218 | the joined length is the total length of the parts plus one separator between each two |
| Text.JoinSpaceEmpty | crawler/utils/scrapper.py:214-218 | the join is empty exactly when there are no parts, or one empty part |
| Text.JoinSpaceSnoc | crawler/utils/scrapper.py:218 | joining one more part appends a space and that part |
| Text.Decimal | label_website/app.py:28 | the rendering of a count is a non-empty string of digits without a leading zero |
| Text.DecimalRoundTrip | label_website/app.py:28 | reading the rendered digits back gives the count |
| Pages.ListOf | crawler/utils/scrapper.py:120-121 | `list(urls)`: a list without duplicates whose elements are exactly the set |
| Links.Kept | crawler/utils/scrapper.py:83 | an `href` is kept exactly when it is a string containing `vnexpress.net/`; `Links.LinkSetMembers` states its effect on the set |
| Links.Normalize | crawler/utils/scrapper.py:84 | removing the comment anchor never lengthens a link and leaves a link without it unchanged |
| Links.NormalizeCutsAnchor | crawler/utils/scrapper.py:84 | an anchor preceded by text without `#` is cut out exactly, and the text after it is normalised on its own |
| Links.NormalizeSinglePass | crawler/utils/scrapper.py:84 | one pass can leave the anchor behind: `#box_com#box_comment_vnement_vne` normalises to `#box_comment_vne` |
| Links.LinkSet | crawler/utils/scrapper.py:78-89 | the set of normalised kept `href`s, the specification of `Links.ArticleUrls`; `Links.LinkSetMembers` gives its membership both ways |
| Links.ArticleUrls | crawler/utils/scrapper.py:78-89 | the loop's set is exactly the normalised form of every `href` that is a string containing `vnexpress.net/` |
| Links.LinkSetMembers | crawler/utils/scrapper.py:83-86 | a link is in the set if and only if some kept `href` normalises to it |
| Links.NormalizeCommentLink | crawler/utils/scrapper.py:84 | a link followed by `#box_comment_vne` is stored as the bare link |
| Links.DirectLinks | crawler/utils/scrapper.py:56-89 | `_get_article_urls`: a timeout while loading escapes; otherwise the page's link set |
| Frontier.Round | crawler/utils/scrapper.py:108-110 | one round times out exactly when some frontier page times out; otherwise every frontier page loads and all its links are in the result |
| Frontier.Explore | crawler/utils/scrapper.py:107-114 | the expansion loop terminates and never loses a discovered link |
| Frontier.ExpandRound | crawler/utils/scrapper.py:108-110 | the inner loop yields the union of the links of every frontier page, or the timeout of one of them |
| Frontier.ExpandFrontier | crawler/utils/scrapper.py:103-114 | the outer loop computes `Explore` from the home page's links, keeping the frontier inside the discovered set and outside the previous one; the discovered set never shrinks |
| Frontier.ExploreEnds | crawler/utils/scrapper.py:107 | the loop exits with at least `limit` links, or with a set every page of which loads and links only inside it |
| Frontier.ExploreReaches | crawler/utils/scrapper.py:107-114 | every discovered link is reachable from the start by following links |
| Frontier.CrawlResult | crawler/utils/scrapper.py:102-115 | the crawl keeps the seed, holds only reachable links, and below `limit` holds exactly the reachable links |
| Frontier.ExploreCompletes | crawler/utils/scrapper.py:107-114 | with no timeouts the crawl always completes |
| Frontier.ExploreZeroLimit | crawler/utils/scrapper.py:107 | with `limit = 0` no round runs and the result is the seed |
| Frontier.StoredSet | crawler/utils/scrapper.py:97-101 | the set read from `vne_url.json`, or the empty set when the file does not exist; `Frontier.SiteUrls` states how it is used |
| Frontier.SiteUrls | crawler/utils/scrapper.py:96-117 | non-recursive mode gives exactly the home page's links (stored links discarded); recursive mode contains the stored links and the home page's links |
| Frontier.SiteUrlsZeroLimit | crawler/utils/scrapper.py:97-115 | recursive mode with `limit = 0` gives the stored links united with the home page's links |
| Records.StripEach | crawler/utils/scrapper.py:218 | each paragraph text is stripped, in order |
| Records.Detail | crawler/utils/scrapper.py:212-218 | no paragraphs give an empty detail |
| Records.IsPodcast | crawler/utils/scrapper.py:166-170 | a page is a podcast when its folder element exists and its stripped text is `Podcasts`; `Records.Extract` states that such a page is skipped |
| Records.Extract | crawler/utils/scrapper.py:166-221 | a page is skipped exactly when it has no title element or is a VnExpress podcast; otherwise the record has the given url, the stripped title, the stripped category or `""`, `desc` `""` on VnExpress (stripped description on BaoMoi), and the joined stripped paragraphs |
| Records.ReadVnePage | crawler/utils/scrapper.py:164-221 | the loop body for one loaded VnExpress page builds exactly the record `Extract` describes, or none for a podcast or title-less page |
| Records.ReadBaoMoiPage | crawler/utils/scrapper.py:273-299 | the loop body for one loaded BaoMoi page builds exactly the record `Extract` describes, or none for a title-less page |
| Records.Harvest | crawler/utils/scrapper.py:158-221 | a batch yields at most one record per address |
| Records.HarvestUrls | crawler/utils/scrapper.py:221 | every record is recorded under an address of the batch |
| Records.HarvestAppend | crawler/utils/scrapper.py:158-221 | records appear in the order of their addresses: the batch of two lists is the two batches concatenated |
| Records.FirstTimeout | crawler/utils/scrapper.py:157-223 | the index of the first address that times out: every earlier one loads |
| Records.VneBatch | crawler/utils/scrapper.py:157-223 | the VnExpress batch has at most one record per address before the first timeout, each recorded under one of those addresses |
| Records.VneBatchKeepsGathered | crawler/utils/scrapper.py:157-223 | records gathered before the timeout are all kept, in order |
| Records.VneBatchStopsAt | crawler/utils/scrapper.py:222-223 | a timeout ends the batch: later addresses contribute nothing |
| Records.VneBatchComplete | crawler/utils/scrapper.py:157-221 | without a timeout the batch holds the record of every address |
| Records.CollectVne | crawler/utils/scrapper.py:156-223 | the VnExpress loop computes `VneBatch` |
| Records.Show | crawler/utils/scrapper.py:272 | Python's formatting of a stored path, with JSON `null` shown as `None`; `Records.BaoMoiAddress` uses it |
| Records.BaoMoiAddress | crawler/utils/scrapper.py:272 | a path is loaded at `https://baomoi.com` followed by the formatted path |
| Records.BaoMoiBatch | crawler/utils/scrapper.py:269-299 | the BaoMoi batch times out exactly when the address of some stored path times out; otherwise it has at most one record per path |
| Records.BaoMoiRecordsPrefixed | crawler/utils/scrapper.py:272-298 | every BaoMoi record's url is `https://baomoi.com` followed by one of the stored paths, so it starts with `https://baomoi.com` |
| Records.CollectBaoMoi | crawler/utils/scrapper.py:269-299 | the BaoMoi loop computes `BaoMoiBatch`: a timeout anywhere loses every record |
| Pagination.Gathered | crawler/utils/scrapper.py:236-247 | the anchors collected from the pages before page `n`; `Pagination.CollectTags` is proved against it |
| Pagination.StopsAt | crawler/utils/scrapper.py:238-247 | the page the loop stops at: the first page reached with `limit` anchors or without a feed anchor; `Pagination.StopIsUnique` shows it is well defined |
| Pagination.StopIsUnique | crawler/utils/scrapper.py:238-247 | the page the paging loop stops at is determined by the pages and `limit` |
| Pagination.StopsAtOnceWithoutLimit | crawler/utils/scrapper.py:238 | with `limit <= 0` no page is collected |
| Pagination.CollectTags | crawler/utils/scrapper.py:236-247 | the paging loop returns the page it stops at (the first page reached with `limit` anchors or without a feed anchor) and the anchors of every page before it |
| Pagination.Hrefs | crawler/utils/scrapper.py:249-254 | the set of `href`s of a set of anchors, the specification of `Pagination.HrefsOf`; `Pagination.HrefsAtMostTags` bounds its size |
| Pagination.HrefsOf | crawler/utils/scrapper.py:249-254 | the loop's set is the `href` of every collected anchor |
| Pagination.HrefsAtMostTags | crawler/utils/scrapper.py:249-254 | there are never more stored paths than anchors |
| Pagination.SharedHref | crawler/utils/scrapper.py:246-254 | two anchors with different markup and one `href` give one stored path |
| Scrappers.VnExpressScrapper.constructor | crawler/utils/scrapper.py:22-40 | the scraper keeps its `limit` and `recursive` settings, which default to 50 and `false` |
| Scrappers.VnExpressScrapper.GetArticleUrls | crawler/utils/scrapper.py:91-121 | on a timeout nothing is written; otherwise `vne_url.json` holds a duplicate-free list of exactly `SiteUrls` |
| Scrappers.VnExpressScrapper.GetArticles | crawler/utils/scrapper.py:123-231 | a stored `vne.json` is returned untouched; otherwise the links come from `vne_url.json` or discovery, and `vne.json` holds `VneBatch` of them |
| Scrappers.BaoMoiScrapper.constructor | crawler/utils/scrapper.py:22-40 | the scraper keeps its `limit` and `recursive` settings, which default to 50 and `false` |
| Scrappers.BaoMoiScrapper.GetArticleUrls | crawler/utils/scrapper.py:235-258 | `bm_url.json` holds a duplicate-free list of the hrefs of the anchors the paging loop collects |
| Scrappers.BaoMoiScrapper.GetArticles | crawler/utils/scrapper.py:260-307 | the paths come from `bm_url.json` or paging; `bm.json` holds `BaoMoiBatch` of them, and is untouched on a timeout |
| Labeling.UnlabeledIds | label_website/app.py:20 | exactly the indices of records without a label, in increasing order |
| Labeling.Content | label_website/app.py:26 | the description, a space and the detail; just the detail when there is no description |
| Labeling.Remain | label_website/app.py:28 | the progress string: the unlabelled count, `/`, the total; `Labeling.RemainRoundTrip` reads it back |
| Labeling.RemainRoundTrip | label_website/app.py:28 | the progress string reads back as the unlabelled count and the total, and the first never exceeds the second |
| Labeling.Relabel | label_website/app.py:36 | an out-of-range id changes nothing; otherwise that record alone gets the label, keeping its article |
| Labeling.UnlabeledCountUpdate | label_website/app.py:20-36 | changing one record changes the unlabelled count by that record's contribution |
| Labeling.SubmitLabels | label_website/app.py:33-40 | after a submit the record is no longer offered, and the count drops by one exactly when it was unlabelled |
| Labeling.RelabelOverwrites | label_website/app.py:36 | a later label for the same record replaces the earlier one |
| Labeling.NegativeId | label_website/app.py:36 | a negative id labels the record that many places from the end |
| Labeling.VneContent | crawler/utils/scrapper.py:192-210 | a VnExpress record has no description, so its content would be just its detail; the app as written loads `bm.json`, so this holds only when it is pointed at `vne.json` |
| Labeling.PyIndex | label_website/app.py:36 | a Python list index in range denotes a position inside the list, negatives from the end |
| Labeling.LabelStore.constructor | label_website/app.py:11-12 | the in-memory list is the file's contents |
| Labeling.LabelStore.GetData | label_website/app.py:19-30 | no record is served exactly when every record is labelled; otherwise an unlabelled record with its fields, content and progress string |
| Labeling.LabelStore.Submit | label_website/app.py:33-40 | an out-of-range id fails with nothing changed; otherwise the list is relabelled and the file rewritten with it |

## Left out

- **Browser and driver.** Browser start-up and the driver options (`crawler/utils/scrapper.py:22-37`) are not modelled; the browser is the `Web` function.
- **Same page on every load.** Loading the same location twice gives the same page.
- **Exceptions.** WebDriver exceptions other than the timeout are not modelled.
- **HTML parsing and CSS selectors.** These are not modelled. A page is the list of what each selector finds on it.
- **Unicode whitespace.** `str.strip` is modelled with Python's `isspace` characters up to U+3000, and a `char` is one code point.
- **Console output.** `print` diagnostics and Flask logging are not modelled; they do not change any state.
- **JSON.** Encoding and decoding of the JSON files are not modelled. A file is modelled as the value it decodes to, and a missing file as `None`.
- **Listing order.** The order `list(set)` produces is not determined: `Pages.ListOf` may return any duplicate-free order.
- **BaoMoi listing pages.** `Pagination.CollectTags` assumes every listing page loads. A timeout while paging would escape before `bm_url.json` is written.
- **`recursive` on BaoMoi.** `Scrappers.BaoMoiScrapper` keeps the `recursive` flag but never reads it, as in the source.
- **`random.choice`.** It is modelled as the parameter `pick` of `Labeling.LabelStore.GetData`, an index into the unlabelled list. Uniformity is not modelled.
- **Submitted id.** The form's `id` is a string passed to `int(...)`. The model takes the integer it parses to, so the `ValueError` of a non-numeric id is not modelled.
- **Flask.** Routing, `render_template`, `jsonify` and the HTTP status of a failed request are not modelled. The two handlers are modelled as atomic and never running concurrently.
- **Abstract base class.** The abstract `Scrapper` base class and its abstract methods are not modelled; each scraper class has its own fields.
