/**
 * What the scrapers receive from the outside, with HTTP and HTML replaced by
 * abstract inputs: a fetch either raises or yields a status and a document;
 * a document is the body text together with what the HTML parser finds in it.
 */
module Pages {
  import opened Wrappers
  import opened Text

  /**
   * The dict keys the scrapers read or write: the fields of a product record and,
   * with `dimension2` (the stock), the keys read from a card's GTM payload.
   */
  datatype Field = Url | Name | Price | Stock | Category | Id | Brand | Sku | Barcode | Description | Image | Dimension2

  /**
   * A JSON value of the card's GTM payload. Strings are kept apart from every
   * other JSON value because only a string can be split on `>`.
   */
  datatype Value = Str(s: string) | NonStr(json: string)

  /** A product record: a Python dict from field names to JSON values. */
  type Record = map<Field, Value>

  /**
   * The anchor inside a listing card's `card-body` container: its `href`
   * attribute, and its `data-gtm-product` attribute decoded by `json.loads`
   * (None when the attribute is missing, is not valid JSON or is not a JSON object).
   */
  datatype Link = Link(href: Option<string>, payload: Option<map<Field, Value>>)

  /** A `search-product-box` card; `link` is None when it has no `card-body` container or that has no anchor. */
  datatype Card = Card(link: Option<Link>)

  /**
   * A `row mb-2` of the "about" panel: the `.string` of its label cell (None when
   * the cell is missing or has no single string) and the `.text` of its value cell.
   */
  datatype Row = Row(labelText: Option<string>, valueText: Option<string>)

  /**
   * An "about" panel (`tab-pane ... id="hakkinda"`): its rows, and the texts of the
   * children of its `productDescription` span (None when the span is missing).
   */
  datatype Panel = Panel(rows: seq<Row>, description: Option<seq<string>>)

  /**
   * A product detail page: its about panels, in document order, and the `href`
   * of the anchor in the first `col-md-6 col-sm-5` block (None when the block,
   * its anchor or the attribute is missing).
   */
  datatype DetailDom = DetailDom(panels: seq<Panel>, image: Option<string>)

  /** A response body: the text (whose emptiness Python tests with `not html`) and its parse. */
  datatype Document<D> = Document(text: string, dom: D)

  /** One GET: it raises (connection failure, timeout) or the server answers. */
  datatype Attempt<D> = Raised | Responded(status: int, body: Document<D>)

  /** The web as the scrapers see it: what a GET of each listing URL and each detail URL yields. */
  datatype Web = Web(listing: string -> Attempt<seq<Card>>, detail: string -> Attempt<DetailDom>)

  /** `AsyncPetlebiScraper.fetch`: the body for status 200, None for any other status or an exception. */
  function Fetch<D>(attempt: Attempt<D>): (body: Option<Document<D>>)
    ensures body.Some? <==> attempt.Responded? && attempt.status == 200
    ensures body.Some? ==> body.value == attempt.body
  {
    match attempt
    case Raised => None
    case Responded(status, doc) => if status == 200 then Some(doc) else None
  }

  /** The listing URL of a page: the bare base URL for page 1, `base?page=N` otherwise. */
  function PageUrl(base: string, page: nat): (url: string)
    ensures url == base <==> page == 1
  {
    if page == 1 then base else base + "?page=" + Decimal(page)
  }

  /** Every listing URL starts with the base URL, and only page 1 uses the bare base URL. */
  lemma PageUrlPrefix(base: string, page: nat)
    ensures var url := PageUrl(base, page);
      |base| <= |url| && url[..|base|] == base && (url == base <==> page == 1)
  {
  }

  /** Every page other than 1 carries its number after `?page=`, and it reads back. */
  lemma PageUrlNumber(base: string, page: nat)
    requires page != 1
    ensures var url := PageUrl(base, page);
      |url| > |base| + 6 && url[|base|..|base| + 6] == "?page=" &&
      forall i :: |base| + 6 <= i < |url| ==> IsDigit(url[i])
    ensures var url := PageUrl(base, page); ParseDecimal(url[|base| + 6..]) == page
  {
    var url := PageUrl(base, page);
    assert url[|base| + 6..] == Decimal(page);
    ParseDecimalOfDecimal(page);
  }

  /** Distinct pages have distinct URLs. */
  lemma PageUrlInjective(base: string, m: nat, n: nat)
    requires PageUrl(base, m) == PageUrl(base, n)
    ensures m == n
  {
    if m != 1 && n != 1 {
      PageUrlNumber(base, m);
      PageUrlNumber(base, n);
    }
  }

  lemma PageUrlSeven(base: string)
    ensures PageUrl(base, 7) == base + "?page=7"
  {
  }

  /** Python's `range(lo, hi)`: the page numbers `lo, ..., hi - 1` in ascending order. */
  function Range(lo: nat, hi: int): (pages: seq<nat>)
    ensures |pages| == if hi > lo then hi - lo else 0
    decreases hi - lo
  {
    if hi <= lo then [] else Range(lo, hi - 1) + [hi - 1]
  }

  /** The range holds each page number at its offset from `lo`: every page once, ascending. */
  lemma {:induction false} RangeAt(lo: nat, hi: int)
    ensures forall i :: 0 <= i < |Range(lo, hi)| ==> Range(lo, hi)[i] == lo + i
    decreases hi - lo
  {
    if hi > lo {
      RangeAt(lo, hi - 1);
    }
  }

  /** Consecutive ranges join into one. */
  lemma RangeSplit(lo: nat, mid: nat, hi: int)
    requires lo <= mid <= hi
    ensures Range(lo, mid) + Range(mid, hi) == Range(lo, hi)
  {
    RangeAt(lo, mid);
    RangeAt(mid, hi);
    RangeAt(lo, hi);
    assert |Range(lo, mid) + Range(mid, hi)| == |Range(lo, hi)|;
  }

  /** The concatenation of a list of batches. */
  function Flatten(batches: seq<seq<nat>>): seq<nat> {
    if batches == [] then [] else Flatten(batches[..|batches| - 1]) + Last(batches)
  }

  /** One more batch adds its pages at the end. */
  lemma FlattenSnoc(batches: seq<seq<nat>>, batch: seq<nat>)
    ensures Flatten(batches + [batch]) == Flatten(batches) + batch
  {
    assert (batches + [batch])[..|batches|] == batches;
  }
}
