/**
 * `AsyncPetlebiScraper` (async_scraper.py) with its tasks run one after another:
 * pages in launch order, and within a page the products in card order. The
 * semaphore, `create_task`, `gather` and the pauses are not modelled.
 */
module AsyncScraper {
  import opened Wrappers
  import opened Text
  import opened Pages
  import opened Extract

  /** An element of `product_urls`: a detail URL and the stub found with it. */
  type Entry = (string, Record)

  function EntryOf(card: Card): (e: Option<Entry>)
    ensures e.Some? <==> IsStubCard(card)
    ensures e.Some? ==> e.value.1 == ExtractStub(card).value && Str(e.value.0) == e.value.1[Url]
  {
    match ExtractStub(card)
    case None => None
    case Some(stub) => Some((card.link.value.href.value, stub))
  }

  /**
   * The entries of the cards, in card order, the cards that fail left out: at
   * most one per card, one for every card when all succeed, none when all fail.
   */
  function Entries(cards: seq<Card>): (entries: seq<Entry>)
    ensures |entries| <= |cards|
    ensures AllStubCards(cards) ==> |entries| == |cards|
    ensures NoStubCards(cards) ==> entries == []
  {
    if cards == [] then []
    else
      Entries(cards[..|cards| - 1]) +
      match EntryOf(Last(cards)) case Some(e) => [e] case None => []
  }

  /** One more card adds its entry, if it has one. */
  lemma EntriesNext(cards: seq<Card>, i: nat)
    requires i < |cards|
    ensures EntryOf(cards[i]).None? ==> Entries(cards[..i + 1]) == Entries(cards[..i])
    ensures EntryOf(cards[i]).Some? ==> Entries(cards[..i + 1]) == Entries(cards[..i]) + [EntryOf(cards[i]).value]
  {
    assert cards[..i + 1][..i] == cards[..i] && Last(cards[..i + 1]) == cards[i];
  }

  /** Every card yields a stub. */
  predicate AllStubCards(cards: seq<Card>) {
    forall i :: 0 <= i < |cards| ==> IsStubCard(cards[i])
  }

  /** No card yields a stub. */
  predicate NoStubCards(cards: seq<Card>) {
    forall i :: 0 <= i < |cards| ==> !IsStubCard(cards[i])
  }

  /** What `parse_product_list` returns for a listing body (None when the fetch failed). */
  function ListingEntries(html: Option<Document<seq<Card>>>): (entries: seq<Entry>)
    ensures html.None? ==> entries == []
    ensures html.Some? ==> |entries| <= |html.value.dom|
  {
    if html.None? || html.value.text == "" then [] else Entries(html.value.dom)
  }

  /** What `parse_product_detail` returns: the stub enriched in place, or left as it was without a body. */
  function Enriched(html: Option<Document<DetailDom>>, stub: Record): (r: Record)
    ensures html.None? || html.value.text == "" ==> r == stub
    ensures html.Some? && html.value.text != "" ==> r.Keys == stub.Keys + DetailKeys
    ensures forall k :: k in stub && k !in DetailKeys ==> k in r && r[k] == stub[k]
  {
    if html.None? || html.value.text == "" then stub else Update(stub, Details(html.value.dom))
  }

  /** The records `process_product` appends for a list of entries. */
  function ProductRecords(web: Web, entries: seq<Entry>): (records: seq<Record>)
    ensures |records| == |entries|
  {
    if entries == [] then []
    else
      ProductRecords(web, entries[..|entries| - 1]) +
      [Enriched(Fetch(web.detail(Last(entries).0)), Last(entries).1)]
  }

  /** The records `process_page` contributes for one page. */
  function PageRecords(web: Web, base: string, page: nat): (records: seq<Record>)
    ensures Fetch(web.listing(PageUrl(base, page))).None? ==> records == []
    ensures |records| == |ListingEntries(Fetch(web.listing(PageUrl(base, page))))|
    ensures |records| <= if Fetch(web.listing(PageUrl(base, page))).None? then 0 else |web.listing(PageUrl(base, page)).body.dom|
  {
    var html := Fetch(web.listing(PageUrl(base, page)));
    if html.None? || html.value.text == "" then [] else ProductRecords(web, ListingEntries(html))
  }

  /** The listing fetch of every page in `pages` fails. */
  ghost predicate ListingsFail(web: Web, base: string, pages: seq<nat>) {
    forall i :: 0 <= i < |pages| ==> Fetch(web.listing(PageUrl(base, pages[i]))).None?
  }

  /** The listing fetch of every page from `lo` to `hi - 1` fails. */
  ghost predicate ListingsFailBetween(web: Web, base: string, lo: nat, hi: int) {
    forall p :: lo <= p < hi ==> Fetch(web.listing(PageUrl(base, p))).None?
  }

  /** The records of a sequence of pages, page after page: none when every listing fails. */
  function PagesRecords(web: Web, base: string, pages: seq<nat>): (records: seq<Record>)
    ensures ListingsFail(web, base, pages) ==> records == []
  {
    if pages == [] then []
    else PagesRecords(web, base, pages[..|pages| - 1]) + PageRecords(web, base, Last(pages))
  }

  /** Running one more page of a batch appends that page's records. */
  lemma PagesRecordsNext(web: Web, base: string, pages: seq<nat>, i: nat)
    requires i < |pages|
    ensures PagesRecords(web, base, pages[..i + 1]) == PagesRecords(web, base, pages[..i]) + PageRecords(web, base, pages[i])
  {
    assert pages[..i + 1][..i] == pages[..i] && Last(pages[..i + 1]) == pages[i];
  }

  /** The records of pages `lo` to `hi - 1`, page after page: none when every listing in the range fails. */
  function RecordsBetween(web: Web, base: string, lo: nat, hi: int): (records: seq<Record>)
    ensures ListingsFailBetween(web, base, lo, hi) ==> records == []
    decreases hi - lo
  {
    if hi <= lo then [] else RecordsBetween(web, base, lo, hi - 1) + PageRecords(web, base, hi - 1)
  }

  class AsyncPetlebiScraper {
    const baseUrl: string
    const maxPages: int
    var products: seq<Record>

    /** `base_url or CONFIG[...]`, `max_pages or CONFIG[...]`: a missing or falsy argument takes the configured value. */
    constructor (baseUrl: Option<string>, maxPages: Option<int>, configBaseUrl: string, configMaxPages: int)
      ensures this.baseUrl == if baseUrl.None? || baseUrl.value == "" then configBaseUrl else baseUrl.value
      ensures this.maxPages == if maxPages.None? || maxPages.value == 0 then configMaxPages else maxPages.value
      ensures products == []
    {
      this.baseUrl := if baseUrl.None? || baseUrl.value == "" then configBaseUrl else baseUrl.value;
      this.maxPages := if maxPages.None? || maxPages.value == 0 then configMaxPages else maxPages.value;
      products := [];
    }

    /** `parse_product_list`: one entry per card that survives, in card order. */
    method ParseProductList(html: Option<Document<seq<Card>>>) returns (entries: seq<Entry>)
      ensures entries == ListingEntries(html)
    {
      entries := [];
      if html.None? || html.value.text == "" {
        return;
      }
      var cards := html.value.dom;
      var i := 0;
      while i < |cards|
        invariant 0 <= i <= |cards|
        invariant entries == Entries(cards[..i])
      {
        // A failing step raises inside the `try` and the card is skipped.
        var entry := EntryOf(cards[i]);
        if entry.Some? {
          entries := entries + [entry.value];
        }
        EntriesNext(cards, i);
        i := i + 1;
      }
      assert cards[..i] == cards;
    }

    /** `parse_product_detail`: `update` of the stub with barcode, description and image. */
    method ParseProductDetail(html: Option<Document<DetailDom>>, stub: Record) returns (product: Record)
      ensures product == Enriched(html, stub)
    {
      if html.None? || html.value.text == "" {
        return stub;
      }
      var dom := html.value.dom;
      var barcode, description := ReadAboutPanels(dom.panels);
      var image := "";
      if dom.image.Some? {
        image := dom.image.value;
      }
      product := Update(stub, map[Barcode := Str(barcode), Description := Str(description), Image := Str(image)]);
    }

    /** `process_product`: exactly one record is appended, whatever the detail fetch yields. */
    method ProcessProduct(web: Web, url: string, stub: Record)
      modifies this
      ensures products == old(products) + [Enriched(Fetch(web.detail(url)), stub)]
    {
      var detailHtml := Fetch(web.detail(url));
      var complete := ParseProductDetail(detailHtml, stub);
      products := products + [complete];
    }

    /** `process_page`: fetch the listing, then process every entry. */
    method ProcessPage(web: Web, page: nat)
      modifies this
      ensures products == old(products) + PageRecords(web, baseUrl, page)
    {
      var url := PageUrl(baseUrl, page);
      var pageHtml := Fetch(web.listing(url));
      if pageHtml.None? || pageHtml.value.text == "" {
        assert products + [] == products;
        return;
      }
      var entries := ParseProductList(pageHtml);
      ProcessEntries(web, entries);
    }

    /** The `for product_url, product_data in product_urls` loop of `process_page`, one product after another. */
    method ProcessEntries(web: Web, entries: seq<Entry>)
      modifies this
      ensures products == old(products) + ProductRecords(web, entries)
    {
      var i := 0;
      while i < |entries|
        invariant 0 <= i <= |entries|
        invariant products == old(products) + ProductRecords(web, entries[..i])
      {
        ProcessProduct(web, entries[i].0, entries[i].1);
        assert entries[..i + 1][..i] == entries[..i];
        AppendAssoc(old(products), ProductRecords(web, entries[..i]), [Enriched(Fetch(web.detail(entries[i].0)), entries[i].1)]);
        i := i + 1;
      }
      assert entries[..i] == entries;
    }

    /** `asyncio.gather(*page_tasks)`: every page of the batch runs to completion. */
    method RunBatch(web: Web, pages: seq<nat>)
      modifies this
      ensures products == old(products) + PagesRecords(web, baseUrl, pages)
    {
      var i := 0;
      while i < |pages|
        invariant 0 <= i <= |pages|
        invariant products == old(products) + PagesRecords(web, baseUrl, pages[..i])
      {
        ProcessPage(web, pages[i]);
        PagesRecordsNext(web, baseUrl, pages, i);
        AppendAssoc(old(products), PagesRecords(web, baseUrl, pages[..i]), PageRecords(web, baseUrl, pages[i]));
        i := i + 1;
      }
      assert pages[..i] == pages;
    }

    /** One `gather` of `scrape_all`: the batch `start..end-1` runs after every page before `start`. */
    method AwaitBatch(web: Web, pages: seq<nat>, ghost recordsOf: nat -> seq<Record>, ghost before: seq<Record>,
                      ghost start: nat, ghost end: int)
      modifies this
      requires IsPageRecords(web, baseUrl, recordsOf)
      requires 1 <= start <= end && pages == Range(start, end)
      requires products == before + Concat(recordsOf, 1, start)
      ensures products == before + Concat(recordsOf, 1, end)
    {
      RunBatch(web, pages);
      PagesRecordsGather(web, baseUrl, recordsOf, pages);
      CloseBatch(recordsOf, before, old(products), products, pages, start, end);
    }

    /**
     * One turn of the loop of `scrape_all`: page `page` joins the pending tasks, and at a
     * multiple of 10 the pending batch is awaited and a new one begins.
     */
    method SchedulePage(web: Web, page: nat, pageTasks: seq<nat>, ghost recordsOf: nat -> seq<Record>,
                        ghost before: seq<Record>, ghost done: seq<seq<nat>>)
      returns (tasks: seq<nat>, ghost batches: seq<seq<nat>>)
      modifies this
      requires IsPageRecords(web, baseUrl, recordsOf)
      requires Scheduled(recordsOf, before, products, done, pageTasks, page)
      ensures page % 10 == 0 ==> batches == done + [pageTasks + [page]] && tasks == []
      ensures page % 10 != 0 ==> batches == done && tasks == pageTasks + [page]
      ensures Scheduled(recordsOf, before, products, batches, tasks, page + 1)
    {
      tasks := pageTasks + [page];
      batches := done;
      MultipleOfTen(|done|, page);
      if page % 10 == 0 {
        PendingClose(done, pageTasks, page);
        AwaitBatch(web, tasks, recordsOf, before, 10 * |done| + 1, 10 * |done + [tasks]| + 1);
        batches := done + [tasks];
        tasks := [];
      } else {
        PendingOpen(done, pageTasks, page);
      }
    }

    /** The last `gather` of `scrape_all`, for the pages left over after the full batches. */
    method AwaitRemainder(web: Web, pageTasks: seq<nat>, ghost recordsOf: nat -> seq<Record>, ghost before: seq<Record>,
                          ghost done: seq<seq<nat>>, ghost page: int)
      returns (ghost batches: seq<seq<nat>>)
      modifies this
      requires IsPageRecords(web, baseUrl, recordsOf)
      requires Scheduled(recordsOf, before, products, done, pageTasks, page)
      requires 1 <= page <= if maxPages >= 1 then maxPages + 1 else 1
      requires page > maxPages
      ensures batches == done + if pageTasks == [] then [] else [pageTasks]
      ensures batches == Schedule(maxPages)
      ensures products == before + Concat(recordsOf, 1, maxPages + 1)
    {
      PendingLast(done, pageTasks, page, maxPages);
      batches := done;
      if pageTasks != [] {
        AwaitBatch(web, pageTasks, recordsOf, before, 10 * |done| + 1, page);
        batches := done + [pageTasks];
      }
      ConcatThrough(recordsOf, page, maxPages);
    }

    /**
     * The loop of `scrape_all`: pages 1..max_pages, each exactly once and in ascending order,
     * launched in batches that close at every multiple of 10, the rest last.
     */
    method LaunchPages(web: Web, ghost recordsOf: nat -> seq<Record>) returns (ghost batches: seq<seq<nat>>)
      modifies this
      requires IsPageRecords(web, baseUrl, recordsOf)
      ensures products == old(products) + Concat(recordsOf, 1, maxPages + 1)
      ensures batches == Schedule(maxPages)
    {
      batches := [];
      var pageTasks: seq<nat> := [];
      var page := 1;
      ScheduledNone(recordsOf, products);
      while page <= maxPages
        invariant 1 <= page <= if maxPages >= 1 then maxPages + 1 else 1
        invariant Scheduled(recordsOf, old(products), products, batches, pageTasks, page)
      {
        pageTasks, batches := SchedulePage(web, page, pageTasks, recordsOf, old(products), batches);
        page := page + 1;
      }
      batches := AwaitRemainder(web, pageTasks, recordsOf, old(products), batches, page);
    }

    /** `scrape_all`: the records of pages 1..max_pages, in page order, follow what the list held. */
    method ScrapeAll(web: Web) returns (result: seq<Record>, ghost batches: seq<seq<nat>>)
      modifies this
      ensures result == products
      ensures products == old(products) + RecordsBetween(web, baseUrl, 1, maxPages + 1)
      ensures batches == Schedule(maxPages)
    {
      ghost var recordsOf := PageRecordsOf(web, baseUrl);
      batches := LaunchPages(web, recordsOf);
      ConcatIsRecordsBetween(web, baseUrl, recordsOf, 1, maxPages + 1);
      result := products;
    }
  }

  /**
   * The records of pages `lo..hi-1`, page after page, when page `p` yields `recordsOf(p)`.
   * The schedule of `scrape_all` is reasoned about over this, whatever each page yields.
   */
  ghost function Concat(recordsOf: nat -> seq<Record>, lo: nat, hi: int): seq<Record>
    decreases hi - lo
  {
    if hi <= lo then [] else Concat(recordsOf, lo, hi - 1) + recordsOf(hi - 1)
  }

  /** `recordsOf` gives, for every page, the records `process_page` appends for it. */
  ghost predicate IsPageRecords(web: Web, base: string, recordsOf: nat -> seq<Record>) {
    forall p: nat {:trigger PageRecords(web, base, p)} :: recordsOf(p) == PageRecords(web, base, p)
  }

  /** The records of each page, as one function of the page number. */
  lemma PageRecordsOf(web: Web, base: string) returns (recordsOf: nat -> seq<Record>)
    ensures IsPageRecords(web, base, recordsOf)
  {
    recordsOf := (p: nat) => PageRecords(web, base, p);
  }

  /** Over the records of each page, `Concat` is `RecordsBetween`. */
  lemma {:induction false} ConcatIsRecordsBetween(web: Web, base: string, recordsOf: nat -> seq<Record>, lo: nat, hi: int)
    requires IsPageRecords(web, base, recordsOf)
    ensures Concat(recordsOf, lo, hi) == RecordsBetween(web, base, lo, hi)
    decreases hi - lo
  {
    if hi > lo {
      ConcatIsRecordsBetween(web, base, recordsOf, lo, hi - 1);
    }
  }

  /**
   * Where the loop of `scrape_all` stands before page `page`: `batches` have been
   * awaited, and their pages' records follow what the list held before.
   */
  ghost predicate Scheduled(recordsOf: nat -> seq<Record>, before: seq<Record>, products: seq<Record>,
                            batches: seq<seq<nat>>, pageTasks: seq<nat>, page: int) {
    && Pending(batches, pageTasks, page)
    && products == before + Concat(recordsOf, 1, 10 * |batches| + 1)
  }

  /** Before the first page nothing is pending and nothing appended. */
  lemma ScheduledNone(recordsOf: nat -> seq<Record>, products: seq<Record>)
    ensures Scheduled(recordsOf, products, products, [], [], 1)
  {
    assert Range(1, 1) == [] && FullBatches(0) == [] && products + [] == products;
  }

  /**
   * The records of pages before `page` are those through `last`: `page` comes right after
   * `last`, or there is no page at all (the loop stops at page 1 and no record is due).
   */
  lemma ConcatThrough(recordsOf: nat -> seq<Record>, page: int, maxPages: int)
    requires page == maxPages + 1 || (maxPages < 1 && page == 1)
    ensures Concat(recordsOf, 1, page) == Concat(recordsOf, 1, maxPages + 1)
  {
  }

  /** The pending state of the loop of `scrape_all` before page `page`. */
  ghost predicate Pending(batches: seq<seq<nat>>, pageTasks: seq<nat>, page: int) {
    && 10 * |batches| < page <= 10 * |batches| + 10
    && batches == FullBatches(|batches|)
    && pageTasks == Range(10 * |batches| + 1, page)
  }

  /** After the last page, the pending state and the leftover batch make up the whole schedule. */
  lemma PendingLast(batches: seq<seq<nat>>, pageTasks: seq<nat>, page: int, maxPages: int)
    requires Pending(batches, pageTasks, page)
    requires 1 <= page <= if maxPages >= 1 then maxPages + 1 else 1
    requires page > maxPages
    ensures pageTasks == [] ==> page == 10 * |batches| + 1 && batches == Schedule(maxPages)
    ensures pageTasks != [] ==> batches + [pageTasks] == Schedule(maxPages)
    ensures pageTasks == [] ==> batches + [] == batches
    ensures page == maxPages + 1 || (maxPages < 1 && page == 1)
  {
    ScheduleAt(maxPages, |batches|, page);
  }

  /** One page moves the pending state on, closing a batch at a multiple of 10. */
  /** A page before the tenth of its batch joins the pending pages. */
  lemma PendingOpen(batches: seq<seq<nat>>, pageTasks: seq<nat>, page: nat)
    requires Pending(batches, pageTasks, page) && page < 10 * |batches| + 10
    ensures Pending(batches, pageTasks + [page], page + 1)
  {
    assert pageTasks + [page] == Range(10 * |batches| + 1, page + 1);
  }

  /** The last page of a batch of ten closes it: the batch holds its ten pages, and nothing is pending. */
  lemma PendingClose(batches: seq<seq<nat>>, pageTasks: seq<nat>, page: nat)
    requires Pending(batches, pageTasks, page) && page == 10 * |batches| + 10
    ensures pageTasks + [page] == Range(10 * |batches| + 1, 10 * |batches + [pageTasks + [page]]| + 1)
    ensures Pending(batches + [pageTasks + [page]], [], page + 1)
  {
    assert pageTasks + [page] == Range(10 * |batches| + 1, page + 1);
  }

  /** The full batches of ten: pages 1-10, 11-20, and so on. */
  function FullBatches(k: nat): (batches: seq<seq<nat>>)
    ensures |batches| == k
  {
    if k == 0 then [] else FullBatches(k - 1) + [Range(10 * (k - 1) + 1, 10 * k + 1)]
  }

  /** The batches `scrape_all` awaits: the full batches of ten, then the remainder if there is one. */
  function Schedule(maxPages: int): (batches: seq<seq<nat>>)
    ensures |batches| == if maxPages <= 0 then 0 else (maxPages + 9) / 10
  {
    if maxPages <= 0 then []
    else
      var k := maxPages / 10;
      FullBatches(k) + if maxPages % 10 == 0 then [] else [Range(10 * k + 1, maxPages + 1)]
  }

  lemma MultipleOfTen(n: nat, page: int)
    requires 10 * n < page <= 10 * n + 10
    ensures page % 10 == 0 <==> page == 10 * n + 10
  {
    if page % 10 == 0 {
      var q := page / 10;
      assert page == 10 * q;
      assert n < q <= n + 1;
    }
  }

  /** Where the loop of `scrape_all` leaves off: `k` full batches and the pages after them. */
  lemma ScheduleAt(maxPages: int, k: nat, page: int)
    requires 1 <= page <= if maxPages >= 1 then maxPages + 1 else 1
    requires page > maxPages
    requires 10 * k < page <= 10 * k + 10
    ensures Schedule(maxPages) == FullBatches(k) + if page == 10 * k + 1 then [] else [Range(10 * k + 1, page)]
  {
    if maxPages >= 1 {
      assert page == maxPages + 1;
      var q, r := maxPages / 10, maxPages % 10;
      assert maxPages == 10 * q + r;
      assert q == k;
    }
  }

  /** Records appended batch after batch are the records of the pages of all batches. */
  lemma CloseBatch(recordsOf: nat -> seq<Record>, before: seq<Record>, mid: seq<Record>, products: seq<Record>,
                   pages: seq<nat>, start: nat, end: int)
    requires 1 <= start <= end && pages == Range(start, end)
    requires mid == before + Concat(recordsOf, 1, start)
    requires products == mid + Gather(recordsOf, pages)
    ensures products == before + Concat(recordsOf, 1, end)
  {
    GatherRange(recordsOf, start, end);
    ConcatSplit(recordsOf, 1, start, end);
    AppendAssoc(before, Concat(recordsOf, 1, start), Concat(recordsOf, start, end));
  }

  /** The records of `pages`, one page after another, when page `p` yields `recordsOf(p)`. */
  ghost function Gather(recordsOf: nat -> seq<Record>, pages: seq<nat>): seq<Record> {
    if pages == [] then [] else Gather(recordsOf, pages[..|pages| - 1]) + recordsOf(Last(pages))
  }

  /** Over the records of each page, `Gather` is `PagesRecords`. */
  lemma {:induction false} PagesRecordsGather(web: Web, base: string, recordsOf: nat -> seq<Record>, pages: seq<nat>)
    requires IsPageRecords(web, base, recordsOf)
    ensures PagesRecords(web, base, pages) == Gather(recordsOf, pages)
    decreases |pages|
  {
    if pages != [] {
      PagesRecordsGather(web, base, recordsOf, pages[..|pages| - 1]);
    }
  }

  /** The pages `lo..hi-1`, gathered one after another, are the pages `lo..hi-1` in order. */
  lemma {:induction false} GatherRange(recordsOf: nat -> seq<Record>, lo: nat, hi: int)
    ensures Gather(recordsOf, Range(lo, hi)) == Concat(recordsOf, lo, hi)
    decreases hi - lo
  {
    if hi > lo {
      GatherRange(recordsOf, lo, hi - 1);
      assert Range(lo, hi)[..hi - 1 - lo] == Range(lo, hi - 1);
    }
  }

  /** Pages `lo..mid-1` followed by pages `mid..hi-1` are pages `lo..hi-1`, whatever each page yields. */
  lemma {:induction false} ConcatSplit(recordsOf: nat -> seq<Record>, lo: nat, mid: nat, hi: int)
    requires lo <= mid <= hi
    ensures Concat(recordsOf, lo, mid) + Concat(recordsOf, mid, hi) == Concat(recordsOf, lo, hi)
    decreases hi - mid
  {
    if hi == mid {
      assert Concat(recordsOf, lo, mid) + [] == Concat(recordsOf, lo, mid);
    } else {
      ConcatSplit(recordsOf, lo, mid, hi - 1);
      AppendAssoc(Concat(recordsOf, lo, mid), Concat(recordsOf, mid, hi - 1), recordsOf(hi - 1));
    }
  }

  /** Pages `lo..mid-1` followed by pages `mid..hi-1` are pages `lo..hi-1`. */
  lemma {:induction false} RecordsBetweenSplit(web: Web, base: string, lo: nat, mid: nat, hi: int)
    requires lo <= mid <= hi
    ensures RecordsBetween(web, base, lo, mid) + RecordsBetween(web, base, mid, hi) == RecordsBetween(web, base, lo, hi)
    decreases hi - mid
  {
    if hi == mid {
      assert RecordsBetween(web, base, lo, mid) + [] == RecordsBetween(web, base, lo, mid);
    } else {
      RecordsBetweenSplit(web, base, lo, mid, hi - 1);
      AppendAssoc(RecordsBetween(web, base, lo, mid), RecordsBetween(web, base, mid, hi - 1), PageRecords(web, base, hi - 1));
    }
  }

  /** The records through page `hi - 1` are those through `hi - 2`, then page `hi - 1`'s. */
  lemma RecordsBetweenLast(web: Web, base: string, lo: nat, hi: int)
    requires lo < hi
    ensures RecordsBetween(web, base, lo, hi) == RecordsBetween(web, base, lo, hi - 1) + PageRecords(web, base, hi - 1)
  {
  }

  /** The full batches cover pages 1..10k in order. */
  lemma {:induction false} FlattenFullBatches(k: nat)
    ensures Flatten(FullBatches(k)) == Range(1, 10 * k + 1)
  {
    if k > 0 {
      FlattenFullBatches(k - 1);
      FlattenSnoc(FullBatches(k - 1), Range(10 * (k - 1) + 1, 10 * k + 1));
      RangeSplit(1, 10 * (k - 1) + 1, 10 * k + 1);
    }
  }

  /** Every page 1..max_pages is scheduled exactly once, in ascending order. */
  lemma FlattenSchedule(maxPages: int)
    ensures Flatten(Schedule(maxPages)) == Range(1, maxPages + 1)
  {
    if maxPages > 0 {
      var k := maxPages / 10;
      if maxPages % 10 != 0 {
        FlattenRemainder(k, maxPages, Schedule(maxPages));
      } else {
        FlattenFullBatches(k);
        assert FullBatches(k) + [] == FullBatches(k);
      }
    }
  }

  /** `k` full batches and a shorter last batch cover pages 1..max_pages in order. */
  lemma FlattenRemainder(k: nat, maxPages: int, batches: seq<seq<nat>>)
    requires 10 * k < maxPages < 10 * k + 10
    requires batches == FullBatches(k) + [Range(10 * k + 1, maxPages + 1)]
    ensures Flatten(batches) == Range(1, maxPages + 1)
  {
    FlattenFullBatches(k);
    FlattenSnoc(FullBatches(k), Range(10 * k + 1, maxPages + 1));
    RangeSplit(1, 10 * k + 1, maxPages + 1);
  }

  // ---- Properties ----

  lemma {:induction false} PagesRecordsAppend(web: Web, base: string, xs: seq<nat>, ys: seq<nat>)
    ensures PagesRecords(web, base, xs + ys) == PagesRecords(web, base, xs) + PagesRecords(web, base, ys)
    decreases |ys|
  {
    if ys == [] {
      assert xs + ys == xs;
    } else {
      var zs := ys[..|ys| - 1];
      assert (xs + ys)[..|xs + ys| - 1] == xs + zs;
      assert Last(xs + ys) == Last(ys);
      PagesRecordsAppend(web, base, xs, zs);
      AppendAssoc(PagesRecords(web, base, xs), PagesRecords(web, base, zs), PageRecords(web, base, Last(ys)));
    }
  }

  /** Every entry pairs the card's link with a stub whose `url` is that link and whose `sku` is empty. */
  lemma {:induction false} EntriesShape(cards: seq<Card>)
    ensures forall e :: e in Entries(cards) ==>
      e.1.Keys == StubKeys && e.1[Url] == Str(e.0) && e.1[Sku] == Str("")
  {
    if cards != [] {
      EntriesShape(cards[..|cards| - 1]);
    }
  }

  /** The entries of consecutive runs of cards follow one another: card order is kept. */
  lemma {:induction false} EntriesAppend(xs: seq<Card>, ys: seq<Card>)
    ensures Entries(xs + ys) == Entries(xs) + Entries(ys)
    decreases |ys|
  {
    if ys == [] {
      assert xs + ys == xs;
    } else {
      var zs := ys[..|ys| - 1];
      assert (xs + ys)[..|xs + ys| - 1] == xs + zs;
      assert Last(xs + ys) == Last(ys);
      EntriesAppend(xs, zs);
      var tail := match EntryOf(Last(ys)) case Some(e) => [e] case None => [];
      AppendAssoc(Entries(xs), Entries(zs), tail);
    }
  }

  /** A card that fails contributes nothing; one that succeeds contributes exactly its entry. */
  lemma EntriesOfCard(card: Card)
    ensures !IsStubCard(card) ==> Entries([card]) == []
    ensures IsStubCard(card) ==>
      Entries([card]) == [(card.link.value.href.value, ExtractStub(card).value)]
  {
    assert [card][..0] == [];
  }

  /** `process_product` runs once per entry: one record per stub, in entry order. */
  lemma {:induction false} ProductRecordsAt(web: Web, entries: seq<Entry>)
    ensures |ProductRecords(web, entries)| == |entries|
    ensures forall i :: 0 <= i < |entries| ==>
      ProductRecords(web, entries)[i] == Enriched(Fetch(web.detail(entries[i].0)), entries[i].1)
  {
    if entries != [] {
      var init := entries[..|entries| - 1];
      var prev := ProductRecords(web, init);
      var recs := ProductRecords(web, entries);
      ProductRecordsAt(web, init);
      assert recs == prev + [Enriched(Fetch(web.detail(Last(entries).0)), Last(entries).1)];
      forall i | 0 <= i < |init|
        ensures recs[i] == Enriched(Fetch(web.detail(entries[i].0)), entries[i].1)
      {
        assert recs[i] == prev[i] && init[i] == entries[i];
      }
    }
  }

  /** Every full batch holds ten pages and ends on a multiple of 10. */
  lemma {:induction false} FullBatchesShape(k: nat)
    ensures forall i :: 0 <= i < k ==>
      FullBatches(k)[i] == Range(10 * i + 1, 10 * i + 11) && |FullBatches(k)[i]| == 10
  {
    if k > 0 {
      FullBatchesShape(k - 1);
      assert forall i :: 0 <= i < k - 1 ==> FullBatches(k)[i] == FullBatches(k - 1)[i];
    }
  }

  /**
   * The batches hold between one and ten pages; every batch but the last
   * closes at a multiple of 10.
   */
  lemma ScheduleShape(maxPages: int)
    ensures var batches := Schedule(maxPages);
      forall i :: 0 <= i < |batches| ==> 1 <= |batches[i]| <= 10
    ensures var batches := Schedule(maxPages);
      forall i :: 0 <= i < |batches| - 1 ==> Last(batches[i]) % 10 == 0
  {
    if maxPages > 0 {
      var k := maxPages / 10;
      var full := FullBatches(k);
      var rest: seq<seq<nat>> := if maxPages % 10 == 0 then [] else [Range(10 * k + 1, maxPages + 1)];
      var batches := Schedule(maxPages);
      assert batches == full + rest;
      FullBatchesShape(k);
      forall i | 0 <= i < k
        ensures Last(full[i]) == 10 * (i + 1)
      {
        RangeAt(10 * i + 1, 10 * i + 11);
      }
      // The remainder batch holds the pages after 10 * k: between one and nine of them.
      assert rest != [] ==> 10 * k < maxPages < 10 * k + 10 && |rest[0]| == maxPages - 10 * k;
      assert |batches| == k + |rest|;
      forall i | 0 <= i < |batches|
        ensures 1 <= |batches[i]| <= 10
      {
        if i < k {
          assert batches[i] == full[i];
        } else {
          assert batches[i] == rest[0];
        }
      }
      forall i | 0 <= i < |batches| - 1
        ensures Last(batches[i]) % 10 == 0
      {
        assert batches[i] == full[i];
      }
    }
  }
}
