/**
 * `PetlebiScraper` (scraper.py): the sequential scraper. It shares the stub and
 * detail rules of module Extract, but a failed detail fetch yields `{}`, which
 * `update` merges as nothing, rather than skipping the update.
 */
module Scraper {
  import opened Wrappers
  import opened Text
  import opened Pages
  import opened Extract
  import AsyncScraper

  /** What `get_product_details` returns: `{}` when the GET raises or answers other than 200. */
  function DetailsAt(web: Web, url: string): (details: Record)
    ensures details == map[] <==> Fetch(web.detail(url)).None?
    ensures details != map[] ==> details.Keys == DetailKeys
  {
    match Fetch(web.detail(url))
    case None => map[]
    case Some(doc) => assert Barcode in Details(doc.dom); Details(doc.dom)
  }

  /** The record `scrape_page` appends for a card, or None for a card `extract_product_data` rejects. */
  function CardRecord(web: Web, card: Card): (record: Option<Record>)
    ensures record.Some? <==> IsStubCard(card)
    ensures record.Some? ==> HasStubFields(record.value)
  {
    match ExtractStub(card)
    case None => None
    case Some(stub) => Some(Update(stub, DetailsAt(web, stub[Url].s)))
  }

  /** What one card adds to `products`: its record, or nothing. */
  function CardOutput(web: Web, card: Card): (output: seq<Record>)
    ensures |output| <= 1
    ensures forall i :: 0 <= i < |output| ==> HasStubFields(output[i])
  {
    match CardRecord(web, card) case Some(r) => [r] case None => []
  }

  /** The records `scrape_page` appends for a list of cards, in card order. */
  function CardRecords(web: Web, cards: seq<Card>): (records: seq<Record>)
    ensures |records| <= |cards|
    ensures forall i :: 0 <= i < |records| ==> HasStubFields(records[i])
  {
    if cards == [] then []
    else
      var before, output := CardRecords(web, cards[..|cards| - 1]), CardOutput(web, Last(cards));
      assert forall i :: |before| <= i < |before| + |output| ==> (before + output)[i] == output[i - |before|];
      before + output
  }

  /** A record that holds the eight stub fields, its `sku` empty. */
  predicate HasStubFields(record: Record) {
    StubKeys <= record.Keys && record[Sku] == Str("")
  }

  /** The records `scrape_page(url)` appends: none unless the listing answers 200. */
  function PageProducts(web: Web, url: string): (products: seq<Record>)
    ensures Fetch(web.listing(url)).None? ==> products == []
    ensures Fetch(web.listing(url)).Some? ==> |products| <= |web.listing(url).body.dom|
    ensures forall i :: 0 <= i < |products| ==> StubKeys <= products[i].Keys
  {
    match Fetch(web.listing(url))
    case None => []
    case Some(doc) => CardRecords(web, doc.dom)
  }

  /** The records of pages `lo` to `hi - 1`, page after page. */
  function SiteRecords(web: Web, base: string, lo: nat, hi: int): (records: seq<Record>)
    ensures forall i :: 0 <= i < |records| ==> StubKeys <= records[i].Keys
    decreases hi - lo
  {
    if hi <= lo then [] else SiteRecords(web, base, lo, hi - 1) + PageProducts(web, PageUrl(base, hi - 1))
  }

  /** Where `scrape_all_pages` stands before page `page`: pages 1..page-1 visited, in order, and their records appended. */
  ghost predicate Visited(web: Web, base: string, before: seq<Record>, products: seq<Record>, visited: seq<string>, page: nat) {
    && products == before + SiteRecords(web, base, 1, page)
    && |visited| == page - 1
    && forall i :: 0 <= i < |visited| ==> visited[i] == PageUrl(base, i + 1)
  }

  class PetlebiScraper {
    const baseUrl: string
    const maxPages: int
    var products: seq<Record>

    /** `base_url or CONFIG[...]`, `max_pages or CONFIG[...]`: a missing or falsy argument takes the configured value. */
    constructor (baseUrl: Option<string>, maxPages: Option<int>, configBaseUrl: string, configMaxPages: int)
      ensures this.baseUrl == if baseUrl.None? || baseUrl.value == "" then configBaseUrl else baseUrl.value
      ensures this.maxPages == if maxPages.None? || maxPages.value == 0 then configMaxPages else maxPages.value
      ensures products == []
    {
      this.baseUrl := if baseUrl.None? || baseUrl.value == "" then configBaseUrl else baseUrl.value;
      this.maxPages := if maxPages.None? || maxPages.value == 0 then configMaxPages else maxPages.value;
      products := [];
    }

    /**
     * `scrape_all_pages`: pages 1..max_pages in ascending order, each under the URL
     * scheme of `PageUrl`, a failed page passed over.
     */
    method ScrapeAllPages(web: Web) returns (result: seq<Record>, ghost visited: seq<string>)
      modifies this
      ensures result == products
      ensures products == old(products) + SiteRecords(web, baseUrl, 1, maxPages + 1)
      ensures |visited| == if maxPages >= 1 then maxPages else 0
      ensures forall i :: 0 <= i < |visited| ==> visited[i] == PageUrl(baseUrl, i + 1)
    {
      visited := [];
      var page := 1;
      // `range(1, max_pages + 1)` stops at once when max_pages < 1.
      ghost var last := if maxPages >= 1 then maxPages + 1 else 1;
      VisitedNone(web, baseUrl, products);
      while page <= maxPages
        invariant 1 <= page <= last
        invariant Visited(web, baseUrl, old(products), products, visited, page)
      {
        visited := ScrapeNextPage(web, page, old(products), visited);
        page := page + 1;
      }
      VisitedAll(web, baseUrl, old(products), products, visited, page, maxPages);
      result := products;
    }

    /** One turn of the loop of `scrape_all_pages`: the page's URL is built and the page scraped. */
    method ScrapeNextPage(web: Web, page: nat, ghost before: seq<Record>, ghost visited: seq<string>)
      returns (ghost visitedNext: seq<string>)
      modifies this
      requires page >= 1 && Visited(web, baseUrl, before, products, visited, page)
      ensures visitedNext == visited + [PageUrl(baseUrl, page)]
      ensures Visited(web, baseUrl, before, products, visitedNext, page + 1)
    {
      var url := if page == 1 then baseUrl else baseUrl + "?page=" + Decimal(page);
      // A failed page is reported and the loop goes on.
      var success := ScrapePage(web, url);
      AppendAssoc(before, SiteRecords(web, baseUrl, 1, page), PageProducts(web, url));
      visitedNext := visited + [url];
    }

    /** `scrape_page`: False and nothing appended without a 200 answer; otherwise one record per surviving card. */
    method ScrapePage(web: Web, url: string) returns (success: bool)
      modifies this
      ensures success <==> Fetch(web.listing(url)).Some?
      ensures !success ==> products == old(products)
      ensures products == old(products) + PageProducts(web, url)
    {
      var response := Fetch(web.listing(url));
      if response.None? {
        assert products + [] == products;
        return false;
      }
      var cards := response.value.dom;
      var i := 0;
      while i < |cards|
        invariant 0 <= i <= |cards|
        invariant products == old(products) + CardRecords(web, cards[..i])
      {
        ScrapeCard(web, cards[i]);
        assert cards[..i + 1][..i] == cards[..i] && Last(cards[..i + 1]) == cards[i];
        AppendAssoc(old(products), CardRecords(web, cards[..i]), CardOutput(web, cards[i]));
        i := i + 1;
      }
      assert cards[..i] == cards;
      return true;
    }

    /** The body of the card loop of `scrape_page`: a surviving card's stub, updated with its details, is appended. */
    method ScrapeCard(web: Web, card: Card)
      modifies this
      ensures products == old(products) + CardOutput(web, card)
    {
      var productData := ExtractProductData(card);
      if productData.Some? {
        var detailedData := GetProductDetails(web, productData.value[Url].s);
        productData := Some(Update(productData.value, detailedData));
        products := products + [productData.value];
      } else {
        assert products + [] == products;
      }
    }

    /**
     * `extract_product_data`: None where a lookup raises (no container, no anchor, no
     * `href`, undecodable payload, missing key, non-string category), otherwise the stub.
     */
    method ExtractProductData(card: Card) returns (data: Option<Record>)
      ensures data.Some? <==> IsStubCard(card)
      ensures data.Some? ==> data == ExtractStub(card)
      ensures data.Some? ==>
        data.value.Keys == StubKeys && data.value[Url] == Str(card.link.value.href.value) &&
        data.value[Sku] == Str("")
    {
      data := ExtractStub(card);
    }

    /**
     * `get_product_details`: `{}` without a 200 answer; otherwise the three fields,
     * each starting as "" and overwritten by the loops over the about panels.
     */
    method GetProductDetails(web: Web, url: string) returns (details: Record)
      ensures details == DetailsAt(web, url)
      ensures details == map[] || (details.Keys == DetailKeys && forall k :: k in details ==> details[k].Str?)
    {
      var response := Fetch(web.detail(url));
      if response.None? {
        return map[];
      }
      var dom := response.value.dom;
      details := map[Barcode := Str(""), Description := Str(""), Image := Str("")];
      var i := 0;
      while i < |dom.panels|
        invariant 0 <= i <= |dom.panels|
        invariant details.Keys == DetailKeys
        invariant details[Barcode] == Str(BarcodeAfterPanels("", dom.panels[..i]))
        invariant details[Description] == Str(DescriptionAfterPanels("", dom.panels[..i]))
        invariant details[Image] == Str("")
      {
        var panel := dom.panels[i];
        details := FillBarcode(details, panel.rows);
        if panel.description.Some? {
          details := FillDescription(details, panel.description.value);
        }
        assert dom.panels[..i + 1][..i] == dom.panels[..i];
        i := i + 1;
      }
      assert dom.panels[..i] == dom.panels;
      if dom.image.Some? {
        details := details[Image := Str(dom.image.value)];
      }
      DetailsFields(details, dom);
    }
  }

  /** The inner loop over a panel's rows: each `BARKOD` row overwrites `barcode`. */
  method FillBarcode(start: Record, rows: seq<Row>) returns (details: Record)
    requires Barcode in start && start[Barcode].Str?
    ensures details.Keys == start.Keys
    ensures details[Barcode] == Str(BarcodeAfterRows(start[Barcode].s, rows))
    ensures forall k :: k in start && k != Barcode ==> details[k] == start[k]
  {
    details := start;
    var j := 0;
    while j < |rows|
      invariant 0 <= j <= |rows|
      invariant details.Keys == start.Keys
      invariant details[Barcode] == Str(BarcodeAfterRows(start[Barcode].s, rows[..j]))
      invariant forall k :: k in start && k != Barcode ==> details[k] == start[k]
    {
      assert rows[..j + 1][..j] == rows[..j];
      if IsBarcodeRow(rows[j]) {
        details := details[Barcode := Str(RowBarcode(rows[j]))];
      }
      j := j + 1;
    }
    assert rows[..j] == rows;
  }

  /** `enumerate` over a description span's children: the second one overwrites `description`. */
  method FillDescription(start: Record, children: seq<string>) returns (details: Record)
    requires Description in start
    ensures details.Keys == start.Keys
    ensures details[Description] ==
      if |children| >= 2 then Str(ReplaceNewlines(Strip(children[1]))) else start[Description]
    ensures forall k :: k in start && k != Description ==> details[k] == start[k]
  {
    details := start;
    var k := 0;
    while k < |children|
      invariant 0 <= k <= |children|
      invariant details.Keys == start.Keys
      invariant details[Description] ==
        if k > 1 then Str(ReplaceNewlines(Strip(children[1]))) else start[Description]
      invariant forall f :: f in start && f != Description ==> details[f] == start[f]
    {
      if k == 1 {
        details := details[Description := Str(ReplaceNewlines(Strip(children[k])))];
      }
      k := k + 1;
    }
  }

  /** A dict with the three detail fields holding the values the detail rules give is `Details(dom)`. */
  lemma DetailsFields(details: Record, dom: DetailDom)
    requires details.Keys == DetailKeys
    requires details[Barcode] == Str(BarcodeAfterPanels("", dom.panels))
    requires details[Description] == Str(DescriptionAfterPanels("", dom.panels))
    requires details[Image] == Str(dom.image.GetOr(""))
    ensures details == Details(dom)
  {
  }

  /** Before the first page nothing is visited and nothing appended. */
  lemma VisitedNone(web: Web, base: string, products: seq<Record>)
    ensures Visited(web, base, products, products, [], 1)
  {
    assert SiteRecords(web, base, 1, 1) == [] && products + [] == products;
  }

  /** When the loop stops, every page 1..max_pages is visited; with no page at all it stops at page 1. */
  lemma VisitedAll(web: Web, base: string, before: seq<Record>, products: seq<Record>, visited: seq<string>, page: int, maxPages: int)
    requires page == if maxPages >= 1 then maxPages + 1 else 1
    requires Visited(web, base, before, products, visited, page)
    ensures products == before + SiteRecords(web, base, 1, maxPages + 1)
    ensures |visited| == if maxPages >= 1 then maxPages else 0
    ensures forall i :: 0 <= i < |visited| ==> visited[i] == PageUrl(base, i + 1)
  {
    assert SiteRecords(web, base, 1, page) == SiteRecords(web, base, 1, maxPages + 1);
  }

  // ---- Properties ----

  /** An empty detail dict leaves the stub as it was: the record lacks the three detail fields. */
  lemma EmptyDetailsKeepStub(card: Card, web: Web)
    requires IsStubCard(card)
    requires Fetch(web.detail(ExtractStub(card).value[Url].s)).None?
    ensures CardRecord(web, card) == ExtractStub(card)
    ensures CardRecord(web, card).value.Keys == StubKeys
    ensures forall k :: k in DetailKeys ==> k !in CardRecord(web, card).value
  {
    var stub := ExtractStub(card).value;
    assert Update(stub, map[]) == stub;
  }

  /**
   * Each card's record is its stub, all eight fields unchanged, with either no
   * detail field or exactly the three of them.
   */
  lemma CardRecordShape(web: Web, card: Card)
    requires IsStubCard(card)
    ensures var r := CardRecord(web, card).value; var stub := ExtractStub(card).value;
      && (r.Keys == StubKeys || r.Keys == StubKeys + DetailKeys)
      && forall k :: k in StubKeys ==> r[k] == stub[k]
  {
    var stub := ExtractStub(card).value;
    var details := DetailsAt(web, stub[Url].s);
    assert forall k :: k in StubKeys ==> k !in DetailKeys;
    if details == map[] {
      assert Update(stub, details) == stub;
    }
  }

  /** The records of consecutive runs of cards follow one another. */
  lemma {:induction false} CardRecordsAppend(web: Web, xs: seq<Card>, ys: seq<Card>)
    ensures CardRecords(web, xs + ys) == CardRecords(web, xs) + CardRecords(web, ys)
    decreases |ys|
  {
    if ys == [] {
      assert xs + ys == xs;
    } else {
      var zs := ys[..|ys| - 1];
      assert (xs + ys)[..|xs + ys| - 1] == xs + zs;
      assert Last(xs + ys) == Last(ys);
      CardRecordsAppend(web, xs, zs);
      AppendAssoc(CardRecords(web, xs), CardRecords(web, zs), CardOutput(web, Last(ys)));
    }
  }

  /**
   * One record per surviving card, and it is that card's stub updated with its
   * details: the records follow the entries the async scraper extracts.
   */
  lemma CardRecordsAt(web: Web, cards: seq<Card>)
    ensures var entries := AsyncScraper.Entries(cards);
      |CardRecords(web, cards)| == |entries| &&
      forall i :: 0 <= i < |entries| ==>
        CardRecords(web, cards)[i] == Update(entries[i].1, DetailsAt(web, entries[i].0))
  {
    CardRecordsUpdate(web, cards);
    UpdatedEntriesAt(web, AsyncScraper.Entries(cards));
  }

  /** Each entry's stub updated with the details fetched from its URL, in entry order. */
  function UpdatedEntries(web: Web, entries: seq<AsyncScraper.Entry>): (records: seq<Record>)
    ensures |records| == |entries|
  {
    if entries == [] then []
    else UpdatedEntries(web, entries[..|entries| - 1]) + [Update(Last(entries).1, DetailsAt(web, Last(entries).0))]
  }

  lemma {:induction false} CardRecordsUpdate(web: Web, cards: seq<Card>)
    ensures CardRecords(web, cards) == UpdatedEntries(web, AsyncScraper.Entries(cards))
  {
    if cards != [] {
      var init, card := cards[..|cards| - 1], Last(cards);
      CardRecordsUpdate(web, init);
      AsyncScraper.EntriesNext(cards, |cards| - 1);
      assert cards[..|cards|] == cards;
      var before := AsyncScraper.Entries(init);
      match AsyncScraper.EntryOf(card)
      case None =>
        assert CardOutput(web, card) == [];
      case Some(e) =>
        assert (before + [e])[..|before|] == before;
        assert CardOutput(web, card) == [Update(e.1, DetailsAt(web, e.0))];
    }
  }

  lemma {:induction false} UpdatedEntriesAt(web: Web, entries: seq<AsyncScraper.Entry>)
    ensures forall i :: 0 <= i < |entries| ==>
      UpdatedEntries(web, entries)[i] == Update(entries[i].1, DetailsAt(web, entries[i].0))
  {
    if entries != [] {
      UpdatedEntriesAt(web, entries[..|entries| - 1]);
    }
  }

  /** The records of pages `lo..mid-1` followed by those of pages `mid..hi-1` are the records of pages `lo..hi-1`. */
  lemma {:induction false} SiteRecordsSplit(web: Web, base: string, lo: nat, mid: nat, hi: int)
    requires lo <= mid <= hi
    ensures SiteRecords(web, base, lo, mid) + SiteRecords(web, base, mid, hi) == SiteRecords(web, base, lo, hi)
    decreases hi - mid
  {
    if hi == mid {
      assert SiteRecords(web, base, lo, mid) + [] == SiteRecords(web, base, lo, mid);
    } else {
      SiteRecordsSplit(web, base, lo, mid, hi - 1);
      AppendAssoc(SiteRecords(web, base, lo, mid), SiteRecords(web, base, mid, hi - 1), PageProducts(web, PageUrl(base, hi - 1)));
    }
  }

  /**
   * Isolation of pages: every record of pages `lo..hi-1` comes from one of those
   * pages, and every record of each of them is there, whatever the other pages yield.
   */
  lemma {:induction false} SiteRecordsFromPages(web: Web, base: string, lo: nat, hi: int)
    ensures forall r :: r in SiteRecords(web, base, lo, hi) ==>
      exists p :: lo <= p < hi && r in PageProducts(web, PageUrl(base, p))
    ensures forall p, r :: lo <= p < hi && r in PageProducts(web, PageUrl(base, p)) ==>
      r in SiteRecords(web, base, lo, hi)
    decreases hi - lo
  {
    if hi > lo {
      SiteRecordsFromPages(web, base, lo, hi - 1);
      var before := SiteRecords(web, base, lo, hi - 1);
      var last := PageProducts(web, PageUrl(base, hi - 1));
      assert SiteRecords(web, base, lo, hi) == before + last;
      forall r | r in before + last
        ensures exists p :: lo <= p < hi && r in PageProducts(web, PageUrl(base, p))
      {
        if r !in before {
          assert lo <= hi - 1 < hi && r in PageProducts(web, PageUrl(base, hi - 1));
        }
      }
      forall p, r | lo <= p < hi && r in PageProducts(web, PageUrl(base, p))
        ensures r in before + last
      {
        if p < hi - 1 {
          assert r in before;
        }
      }
    }
  }

  // ---- The two scrapers side by side ----

  /** No detail page answers 200 with an empty body (the one case where the failure shapes differ). */
  ghost predicate DetailBodiesNonEmpty(web: Web) {
    forall url :: Fetch(web.detail(url)).Some? ==> Fetch(web.detail(url)).value.text != ""
  }

  /** An empty listing body holds no card. */
  ghost predicate EmptyListingsHaveNoCards(web: Web) {
    forall url :: Fetch(web.listing(url)).Some? && Fetch(web.listing(url)).value.text == "" ==>
      Fetch(web.listing(url)).value.dom == []
  }

  /**
   * The detail rules agree: `{}` merged by `update` leaves the stub as the async
   * scraper's early return does, and a non-empty body adds the same three fields.
   */
  lemma SameRecord(web: Web, entry: AsyncScraper.Entry)
    requires DetailBodiesNonEmpty(web)
    ensures Update(entry.1, DetailsAt(web, entry.0)) == AsyncScraper.Enriched(Fetch(web.detail(entry.0)), entry.1)
  {
    if Fetch(web.detail(entry.0)).None? {
      assert Update(entry.1, map[]) == entry.1;
    }
  }

  /** A detail page that answers 200 with an empty body is the case where the two scrapers differ. */
  lemma EmptyDetailBodyDiffers(web: Web, entry: AsyncScraper.Entry)
    requires Fetch(web.detail(entry.0)).Some? && Fetch(web.detail(entry.0)).value.text == ""
    requires Barcode !in entry.1
    ensures Update(entry.1, DetailsAt(web, entry.0)) != AsyncScraper.Enriched(Fetch(web.detail(entry.0)), entry.1)
  {
    assert Barcode in Update(entry.1, DetailsAt(web, entry.0));
  }

  /** Both scrapers collect the same records from a page when bodies are as above. */
  lemma SamePageRecords(web: Web, base: string, page: nat)
    requires DetailBodiesNonEmpty(web) && EmptyListingsHaveNoCards(web)
    ensures PageProducts(web, PageUrl(base, page)) == AsyncScraper.PageRecords(web, base, page)
  {
    var url := PageUrl(base, page);
    var html := Fetch(web.listing(url));
    if html.Some? {
      var cards := html.value.dom;
      var entries := AsyncScraper.Entries(cards);
      CardRecordsAt(web, cards);
      AsyncScraper.ProductRecordsAt(web, entries);
      forall i | 0 <= i < |entries|
        ensures CardRecords(web, cards)[i] == AsyncScraper.ProductRecords(web, entries)[i]
      {
        SameRecord(web, entries[i]);
      }
      if html.value.text == "" {
        assert cards == [];
      }
    }
  }

  /**
   * On such a web the sequential scraper and the async one (its tasks run in
   * launch order) collect the same records for pages 1..hi-1.
   */
  lemma {:induction false} SameSiteRecords(web: Web, base: string, hi: int)
    requires DetailBodiesNonEmpty(web) && EmptyListingsHaveNoCards(web)
    ensures SiteRecords(web, base, 1, hi) == AsyncScraper.RecordsBetween(web, base, 1, hi)
    decreases hi
  {
    if hi > 1 {
      SameSiteRecords(web, base, hi - 1);
      SamePageRecords(web, base, hi - 1);
      AsyncScraper.RecordsBetweenLast(web, base, 1, hi);
    }
  }
}
