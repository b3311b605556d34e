/** What the scrapers see of the web. The browser (Selenium) and the HTML parser
    (BeautifulSoup) are abstracted away: a loaded page is reduced to what the
    CSS selectors in crawler/utils/scrapper.py would find in it. */
module Pages {

  datatype Option<T> = None | Some(value: T)

  /** A location, as the string the browser is pointed at. */
  type Url = string

  /** A rendered article or section page, as the selectors see it.
      - `anchors`: the `href` attribute of each anchor matched by the link
        selector (`None` when the anchor has no `href`), in document order;
      - `folder`: the text of the folder label (`div.title-folder a`), if any;
      - `title`: the text of the title element, if any;
      - `category`: the text of the first breadcrumb or tag link, if any;
      - `description`: the text of the description element, if any;
      - `paragraphs`: the text of every body paragraph, in document order. */
  datatype Page = Page(
    anchors: seq<Option<string>>,
    folder: Option<string>,
    title: Option<string>,
    category: Option<string>,
    description: Option<string>,
    paragraphs: seq<string>)

  /** Pointing the browser at a location either loads a page or times out
      (Selenium's `TimeoutException`). */
  datatype Fetch = Loaded(page: Page) | Timeout

  /** The web as the browser sees it during one run. */
  type Web = Url -> Fetch

  /** The record `Article(title, url, cat, desc, detail)` that is appended to the
      output list and stored as one JSON object. */
  datatype Article = Article(title: string, url: string, cat: string, desc: string, detail: string)

  /** The result of an operation that a `TimeoutException` can end: either it ran to
      completion, or the exception escaped it. */
  datatype Outcome<T> = Completed(value: T) | TimedOut

  /** The elements of a list, as Python's `set(xs)`. */
  function Elements<T>(xs: seq<T>): set<T> {
    set x | x in xs
  }

  /** No element occurs twice, as in a list built from a set. */
  predicate Distinct<T(==)>(xs: seq<T>) {
    forall i, j :: 0 <= i < j < |xs| ==> xs[i] != xs[j]
  }

  /** `list(s)`: the elements of `s`, each once, in an order Python does not fix. */
  method ListOf<T(==)>(s: set<T>) returns (xs: seq<T>)
    ensures Distinct(xs) && Elements(xs) == s && |xs| == |s|
  {
    xs := [];
    var rest := s;
    while rest != {}
      invariant rest <= s
      invariant Distinct(xs)
      invariant forall x :: x in xs <==> x in s - rest
      invariant |xs| + |rest| == |s|
      decreases rest
    {
      var x :| x in rest;
      assert x !in xs;
      xs := xs + [x];
      rest := rest - {x};
    }
  }
}
