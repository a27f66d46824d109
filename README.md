# Petlebi product scraper — a Dafny model of its record-building rules

The repository crawls the paginated product listing of the Petlebi pet shop,
builds one product record per listing card (a *stub* of eight fields read from
the card's GTM payload, enriched with barcode, description and image from the
product's detail page) and hands the records to a JSON file or a MySQL table.
Failures are classified into kinds by an error handler that also decides which
kinds are worth retrying.

This project models, with HTTP and HTML replaced by abstract inputs:

- `errors.dfy` — module `ErrorHandler`: the failure classification of
  `ErrorHandler` and its retry predicate, as total functions.
- `pages.dfy` — module `Pages`: the inputs. A GET either raises or answers a
  status and a document; a document is its body text (Python tests it with
  `not html`) together with what the HTML parser finds in it. A listing card is
  an optional anchor with an optional `href` and an optional decoded GTM payload;
  a detail page is a list of "about" panels (barcode rows and the children of the
  description span) plus an optional image anchor `href`. The web is a
  parameter `Web` mapping each URL to what a GET of it yields. Also here: the
  `fetch` status rule and the page-URL scheme.
- `extract.dfy` — module `Extract`: the rules both scrapers share: the stub built
  from a card, the barcode/description/image read from a detail page, and the
  dict `update` that merges them. Records are maps from field names to values,
  so a field that the code never sets is absent, not empty.
- `async_scraper.dfy` — module `AsyncScraper`: class `AsyncPetlebiScraper` with
  `products` as a sequence field that `process_product` appends to, and the
  batch loop of `scrape_all` run as a sequential schedule. The loop is reasoned
  about over the records of each page taken as one function of the page number
  (`Concat`, `Gather`), which `ScrapeAll` ties back to `RecordsBetween`.
- `scraper.dfy` — module `Scraper`: class `PetlebiScraper`, the sequential
  scraper with its own failure shape (a failed detail fetch yields `{}`), and
  lemmas relating its output to the async scraper's.
- `database.dfy` — module `Database`: the row tuple `import_products` builds,
  its insert loop with the early exit, and the command splitting of
  `run_sql_file`. The MySQL server is a parameter that accepts or refuses each
  statement given those executed before it.
- `text.dfy`, `wrappers.dfy` — Python's `split`, `[-1]`, `strip`,
  `replace('\n', ' ')` and the decimal rendering of an int, and `Option`.

The model follows the code as written:

- No price is validated anywhere; records carry whatever the payload holds.
- A failed detail fetch does not set the enrichment fields to `""`. The async
  scraper returns the stub as it was (async_scraper.py:71-72). The sequential
  scraper merges `{}` into it (scraper.py:54, 89-90). Either way the record
  lacks `barcode`, `description` and `image`, which is why the importer reads
  them with `.get(..., '')` (database.py:66, 69-70).
- The async scraper's record order depends on task scheduling. The model runs
  the tasks in launch order, which is one of the orders the code can produce.

## Model

| member | source | states |
|---|---|---|
| `ErrorHandler.HandleRequestError` | error_handler.py:8-29 | No status gives `connection_error`. Statuses 404, 403 and 429 give `not_found`, `forbidden` and `rate_limited`, and are tested before the 5xx rule. Any other status ≥ 500 gives `server_error`; every remaining status, including those below 400, gives `http_error`. Each kind holds exactly on its own inputs. |
| `ErrorHandler.HandleParseError` | error_handler.py:31-34 | Every parse error is classified `parse_error`. |
| `ErrorHandler.HandleDatabaseError` | error_handler.py:36-56 | errno 1045, 1049, 1146 and 1062 give `access_denied`, `unknown_database`, `table_not_found` and `duplicate_entry`. Any other errno, or none, gives `database_error`. |
| `ErrorHandler.HandleFileError` | error_handler.py:58-71 | FileNotFoundError, PermissionError and IsADirectoryError give `file_not_found`, `permission_denied` and `is_directory`; anything else gives `file_operation_error`. |
| `ErrorHandler.ShouldRetry` | error_handler.py:73-80 | Retry holds exactly for `connection_error`, `server_error` and `rate_limited`. |
| `ErrorHandler.RetryRequestError` | error_handler.py:10-29 | A request failure is retried exactly when it has no status, or status 429, or status ≥ 500. |
| `ErrorHandler.NoRetryOutsideRequests` | error_handler.py:31-80 | Parse, database and file failures are never retried. |
| `Pages.Fetch` | async_scraper.py:17-30 | `fetch` yields a body exactly for status 200, and that body is the response's; any other status or an exception yields None. |
| `Pages.PageUrl` | async_scraper.py:116-119 | The listing URL of a page equals the bare base URL exactly for page 1. |
| `Pages.PageUrlPrefix` | async_scraper.py:116-119 | Every listing URL starts with the base URL, and it equals the bare base URL exactly for page 1. |
| `Pages.PageUrlNumber` | async_scraper.py:116-119 | For page N other than 1, the URL is the base URL, then `?page=`, then decimal digits that read back as N. |
| `Pages.PageUrlInjective` | async_scraper.py:116-119 | Distinct pages get distinct URLs. |
| `Pages.PageUrlSeven` | async_scraper.py:119 | Page 7 resolves to `base?page=7`. |
| `Pages.Range` | async_scraper.py:161 | `range(lo, hi)`: hi - lo page numbers, none when hi ≤ lo. |
| `Pages.RangeAt` | async_scraper.py:161 | `range(lo, hi)` lists `lo, ..., hi - 1`, each once, in ascending order. |
| `Text.LastSegment` | async_scraper.py:56 | `split('>')[-1]` contains no `>`. |
| `Text.Split` | async_scraper.py:56 | Python's `split` on one character: at least one piece, and no piece contains the separator. Empty pieces are kept. |
| `Text.Strip` | async_scraper.py:88 | Python's `strip()`: never longer than the input, and the result neither starts nor ends with whitespace. |
| `Text.ReplaceNewlines` | async_scraper.py:94 | `replace('\n', ' ')` keeps the length and leaves no newline. |
| `Text.Decimal` | async_scraper.py:119 | The page number as an f-string writes it: at least one character, with a leading `0` only for the number 0. |
| `Text.LastSegmentIsTail` | async_scraper.py:56 | The last segment ends the string, and a `>` precedes it unless it is the whole string. With no `>`, it is the whole string. |
| `Text.JoinSplit` | async_scraper.py:56 | Joining the pieces of `split` with the separator gives the string back. |
| `Text.SplitJoin` | database.py:46 | Splitting a join of separator-free pieces gives the pieces back. |
| `Text.StripIsCore` | async_scraper.py:88 | A string is leading whitespace, then its `strip()`, then trailing whitespace, and the stripped text neither starts nor ends with whitespace. |
| `Text.StripEmpty` | database.py:48 | `strip()` yields `''` exactly when every character is whitespace. |
| `Text.ReplaceNewlinesAt` | async_scraper.py:94 | `replace('\n', ' ')` turns each newline into a space and keeps every other character. |
| `Text.ParseDecimalOfDecimal` | async_scraper.py:119 | The decimal rendering of a page number consists of digits and reads back as that number. |
| `Extract.ExtractStub` | async_scraper.py:45-60 | A card yields a stub exactly when it has a container and anchor, an `href`, a payload object with all six keys, and a string category. The stub has exactly the eight stub keys. `url` is the `href`, `sku` is `""`, `stock` is the payload's `dimension2`, and the category is the last `>` segment of the payload's category, with no `>` in it. |
| `Extract.StubCategory` | async_scraper.py:56 | A stub's category ends the payload's category path. A `>` precedes it unless it is the whole path. With no `>` in the path, it is the whole path. |
| `Extract.CategoryExample` | async_scraper.py:56 | The path `Pet Shop>Dog>Food` yields the category `Food`. |
| `Extract.Details` | async_scraper.py:74-107 | A parsed detail page contributes exactly `barcode`, `description` and `image`, all strings, and the description holds no newline. |
| `Extract.ReadAboutPanels` | async_scraper.py:78-94 | The nested loops over the about panels compute the barcode and description that the fold functions define, and the description holds no newline. |
| `Extract.ReadBarcodeRows` | async_scraper.py:84-88 | The loop over one panel's rows lets each `BARKOD` row overwrite the barcode. |
| `Extract.ReadDescriptionSpan` | async_scraper.py:91-94 | Enumerating the description span's children reads only the second child, stripped, with its newlines replaced by spaces. With fewer than two children, the earlier description stays. |
| `Extract.RowBarcode` | async_scraper.py:87-88 | The barcode a `BARKOD` row yields: `""` without a value cell, and always stripped text. |
| `Extract.BarcodeAfterRows` | async_scraper.py:84-88 | The barcode after one panel's rows, each `BARKOD` row overwriting it. A stripped start value stays stripped. |
| `Extract.BarcodeAfterPanels` | async_scraper.py:82-88 | The barcode after the rows of every panel in order. A stripped start value stays stripped. |
| `Extract.DescriptionAfterPanels` | async_scraper.py:82-94 | The description after every panel in order, the last panel with a second span child deciding. No newline enters it. |
| `Extract.PageBarcode` | async_scraper.py:82-88 | The barcode of a page comes from its last row labelled exactly `BARKOD`, across all panels in order, and is `""` when there is no such row. |
| `Extract.LastBarcodeRowWins` | async_scraper.py:84-88 | Among a panel's rows, the last `BARKOD` row decides the barcode. |
| `Extract.NoBarcodeRow` | async_scraper.py:78-88 | Without a `BARKOD` row, the barcode keeps its initial value. |
| `Extract.BarcodeOverAllRows` | async_scraper.py:82-88 | Visiting the panels one after another is the same as visiting all their rows in document order. |
| `Extract.LastDescriptionWins` | async_scraper.py:82-94 | The last panel whose description span has a second child decides the description. |
| `Extract.NoDescription` | async_scraper.py:79-94 | Without such a panel, the description keeps its initial value. |
| `Extract.DescriptionHasNoNewline` | async_scraper.py:94 | A description never holds a newline. |
| `Extract.Update` | scraper.py:54 | `update` keeps the record's keys and adds the patch's. Patch values win, and every other field keeps its value. |
| `Extract.EnrichmentKeepsStub` | async_scraper.py:103-107 | Merging detail fields into a stub keeps all eight stub fields unchanged and adds exactly the detail fields. |
| `AsyncScraper.EntryOf` | async_scraper.py:43-66 | A card yields an entry exactly when its stub can be built. The entry pairs the stub with its `href`, and the stub's `url` is that `href`. |
| `AsyncScraper.Entries` | async_scraper.py:43-66 | The entries of the cards in card order, failing cards left out. There is at most one entry per card, one for every card when all succeed, and none when all fail. |
| `AsyncScraper.ListingEntries` | async_scraper.py:32-67 | What `parse_product_list` returns: nothing for a failed fetch, otherwise at most one entry per card. An empty body also gives `[]`. |
| `AsyncScraper.EntriesNext` | async_scraper.py:42-66 | One more card adds its entry if its stub can be built, and nothing otherwise. |
| `AsyncScraper.Enriched` | async_scraper.py:69-112 | What `parse_product_detail` returns. Without a body, the stub as it was. With a body, the stub's keys plus exactly the three detail keys. Every other stub field keeps its value. |
| `AsyncScraper.ProductRecords` | async_scraper.py:131-148 | The records `process_product` appends for a list of entries: exactly one per entry. |
| `AsyncScraper.PageRecords` | async_scraper.py:114-136 | The records one page contributes: none when the listing fetch fails, otherwise one per listing entry, so at most one per card. |
| `AsyncScraper.PagesRecords` | async_scraper.py:114-136 | The records of a list of pages, page after page. None when every listing fetch fails. |
| `AsyncScraper.RecordsBetween` | async_scraper.py:161-174 | The records of pages lo..hi-1, page after page, as `ScrapeAll` appends them. None when every listing in the range fails. |
| `AsyncScraper.FullBatches` | async_scraper.py:161-170 | The batches closed at each multiple of 10: k of them. |
| `AsyncScraper.Schedule` | async_scraper.py:161-174 | The batches `scrape_all` awaits: the full batches of ten, then the remainder if there is one. There are ⌈max_pages / 10⌉ batches, and none for max_pages ≤ 0. |
| `AsyncScraper.EntriesShape` | async_scraper.py:45-63 | Every entry's stub has exactly the eight stub keys, with `url == href` and `sku == ""`. |
| `AsyncScraper.EntriesAppend` | async_scraper.py:43-63 | Entries follow card order: the entries of two runs of cards are concatenated. |
| `AsyncScraper.EntriesOfCard` | async_scraper.py:43-65 | A failing card contributes no entry; a good one contributes exactly its own. |
| `AsyncScraper.ProductRecordsAt` | async_scraper.py:131-148 | One record per entry, in entry order, each the entry's stub enriched from its own detail fetch. |
| `AsyncScraper.FlattenSchedule` | async_scraper.py:161-174 | The batches that `scrape_all` awaits, put together, are pages 1..max_pages, each once, in ascending order. |
| `AsyncScraper.ScheduleShape` | async_scraper.py:161-174 | Every batch holds 1 to 10 pages, and every batch but the last closes on a multiple of 10. |
| `AsyncScraper.FullBatchesShape` | async_scraper.py:166-170 | The k-th full batch is pages 10k+1..10k+10. |
| `AsyncScraper.RecordsBetweenSplit` | async_scraper.py:161-174 | The records of consecutive page ranges, put together, are the records of the joined range. |
| `AsyncScraper.ConcatSplit` | async_scraper.py:161-174 | The same joining of consecutive page ranges, whatever records each page yields. |
| `AsyncScraper.ConcatIsRecordsBetween` | async_scraper.py:161-174 | Each page's records, put together in page order, are `RecordsBetween` for the range. |
| `AsyncScraper.PagesRecordsGather` | async_scraper.py:168-174 | Running a list of pages gives each page's records, page after page, in list order. |
| `AsyncScraper.PagesRecordsAppend` | async_scraper.py:168-174 | Running pages xs and then pages ys gives the records of xs followed by those of ys. |
| `AsyncScraper.GatherRange` | async_scraper.py:161-171 | The pending pages lo..hi-1, run in list order, give the records of pages lo..hi-1 in page order. |
| `AsyncScraper.CloseBatch` | async_scraper.py:168-174 | After the pages before `start`, the batch start..end-1 makes the records those of pages 1..end-1. |
| `AsyncScraper.FlattenRemainder` | async_scraper.py:173-174 | The full batches of ten, then the shorter leftover batch, cover pages 1..max_pages in order. |
| `AsyncScraper.AsyncPetlebiScraper.constructor` | async_scraper.py:10-15 | A missing or falsy `base_url`/`max_pages` falls back to the configured value, and `products` starts empty. |
| `AsyncScraper.AsyncPetlebiScraper.ParseProductList` | async_scraper.py:32-67 | An empty or missing body gives `[]`. Otherwise, the loop gives one entry per good card, in card order, and skips the failing cards. |
| `AsyncScraper.AsyncPetlebiScraper.ParseProductDetail` | async_scraper.py:69-112 | The result is the stub, enriched exactly as `Enriched` states. |
| `AsyncScraper.AsyncPetlebiScraper.ProcessProduct` | async_scraper.py:138-151 | Exactly one record is appended, whatever the detail fetch yields, and the earlier records stay. |
| `AsyncScraper.AsyncPetlebiScraper.ProcessPage` | async_scraper.py:114-136 | The page's records are appended after the existing ones. |
| `AsyncScraper.AsyncPetlebiScraper.ProcessEntries` | async_scraper.py:131-136 | The entries' records are appended in entry order. |
| `AsyncScraper.PagesRecordsNext` | async_scraper.py:168-174 | One more page of a batch appends exactly that page's records. |
| `AsyncScraper.AsyncPetlebiScraper.RunBatch` | async_scraper.py:168-174 | Awaiting a batch appends its pages' records in page order. |
| `AsyncScraper.AsyncPetlebiScraper.AwaitBatch` | async_scraper.py:168-174 | Awaiting the batch of pages start..end-1 after the pages before `start` leaves the records of pages 1..end-1 in order. |
| `AsyncScraper.AsyncPetlebiScraper.SchedulePage` | async_scraper.py:161-171 | Each turn adds the page to the pending tasks. At a multiple of 10, the pending batch is awaited and the list is reset. |
| `AsyncScraper.AsyncPetlebiScraper.AwaitRemainder` | async_scraper.py:173-174 | Leftover pages are awaited last, which completes the schedule. |
| `AsyncScraper.AsyncPetlebiScraper.LaunchPages` | async_scraper.py:161-174 | The loop and last `gather` of `scrape_all`: the list gains the records of pages 1..max_pages in page order, and the batches awaited are exactly `Schedule(max_pages)`. |
| `AsyncScraper.AsyncPetlebiScraper.ScrapeAll` | async_scraper.py:153-179 | Returns `products`, which is the old list followed by the records of pages 1..max_pages in order. Its batches are exactly `Schedule(max_pages)`. |
| `Scraper.DetailsAt` | scraper.py:85-129 | `get_product_details` gives `{}` exactly when the GET raises or answers other than 200. Otherwise, it gives exactly the three detail keys. |
| `Scraper.CardRecord` | scraper.py:49-55 | A card gets a record exactly when `extract_product_data` gives a stub. The record holds the eight stub keys, with `sku == ""`. |
| `Scraper.CardOutput` | scraper.py:49-58 | What one card appends: at most one record, which holds the eight stub keys. |
| `Scraper.CardRecords` | scraper.py:48-55 | The records `scrape_page` appends for its cards: at most one per card, each holding the eight stub keys with `sku == ""`. |
| `Scraper.PageProducts` | scraper.py:36-62 | The records `scrape_page(url)` appends: none without a 200 answer, otherwise at most one per card, each holding the eight stub keys. |
| `Scraper.SiteRecords` | scraper.py:16-34 | The records of pages lo..hi-1. Every one of them holds the eight stub keys. |
| `Scraper.SiteRecordsFromPages` | scraper.py:16-34 | Every record of pages lo..hi-1 comes from one of those pages, and every record of each of those pages is present, including when another page failed. |
| `Scraper.EmptyDetailsKeepStub` | scraper.py:50-55 | When the details are `{}`, the appended record is the stub and lacks all three enrichment keys. |
| `Scraper.CardRecordShape` | scraper.py:50-55 | Each appended record keeps all eight stub fields unchanged, and has either no detail key or all three. |
| `Scraper.CardRecordsAppend` | scraper.py:48-55 | Records follow card order. |
| `Scraper.CardRecordsAt` | scraper.py:48-55 | Each valid stub gets exactly one record, in card order: the stub updated with its details. |
| `Scraper.CardRecordsUpdate` | scraper.py:48-55 | The records of the cards are the async scraper's entries, each stub updated with the details fetched from its URL. |
| `Scraper.SiteRecordsSplit` | scraper.py:16-34 | The records of consecutive page ranges, put together, are the records of the joined range. |
| `Scraper.SameRecord` | scraper.py:54 | When no 200 answer has an empty body, merging `{}` and returning early build the same record. |
| `Scraper.EmptyDetailBodyDiffers` | scraper.py:92-100 | A 200 answer with an empty body is where the two scrapers differ. The sequential one adds the three fields; the async one does not. |
| `Scraper.SamePageRecords` | scraper.py:36-62 | When no 200 detail answer has an empty body (`DetailBodiesNonEmpty`) and no 200 listing answer with an empty body has cards (`EmptyListingsHaveNoCards`), both scrapers collect the same records from a page. |
| `Scraper.SameSiteRecords` | scraper.py:14-34 | Under the same two hypotheses, `DetailBodiesNonEmpty` and `EmptyListingsHaveNoCards`, both scrapers collect the same records for pages 1..N. |
| `Scraper.PetlebiScraper.constructor` | scraper.py:9-12 | A missing or falsy `base_url`/`max_pages` falls back to the configured value, and `products` starts empty. |
| `Scraper.PetlebiScraper.ScrapeAllPages` | scraper.py:14-34 | Visits the URLs of pages 1..max_pages in ascending order under the page-URL scheme. It appends each page's records after those of earlier pages, including after a failed page, and returns `products`. |
| `Scraper.PetlebiScraper.ScrapeNextPage` | scraper.py:17-27 | One turn builds the page's URL and scrapes it. |
| `Scraper.PetlebiScraper.ScrapePage` | scraper.py:36-62 | Without a 200 answer: False, and nothing is appended. Otherwise: True, and the records of the good cards are appended in order. |
| `Scraper.PetlebiScraper.ScrapeCard` | scraper.py:49-55 | A good card's stub, updated with its details, is appended once; a failing card appends nothing. |
| `Scraper.PetlebiScraper.ExtractProductData` | scraper.py:64-83 | Gives None on a missing element, a missing key, bad JSON or a non-string category. Otherwise, it gives exactly the eight stub keys, with `url == href` and `sku == ""`. |
| `Scraper.PetlebiScraper.GetProductDetails` | scraper.py:85-129 | Gives `{}` without a 200 answer. Otherwise, it gives exactly barcode/description/image, each a string starting from `""` and overwritten by the panel loops. |
| `Scraper.FillBarcode` | scraper.py:105-110 | The row loop overwrites only `barcode`, with the last `BARKOD` row's value. |
| `Scraper.FillDescription` | scraper.py:113-119 | The span loop overwrites only `description`, with the second child's text. |
| `Database.GetOrEmpty` | database.py:66-73 | `product.get(field, '')`: the stored value of a present field, and `''` for a missing one. |
| `Database.ToRow` | database.py:63-74 | A row exists exactly when url/name/price/stock are present. It has ten values in the order url, name, barcode, price, stock, image, description, sku, category, brand, with `''` for a missing optional field. |
| `Database.FirstMissing` | database.py:58-68 | Finds the first product without a row: every product before it has one. |
| `Database.RunStatements` | database.py:57-79 | The cursor runs the statements in order until one raises. The executed statements are a prefix of those given, and the run is ok exactly when all of them ran. |
| `Database.Inserts` | database.py:58-75 | The insert statements of the products, in order: at most one per product. |
| `Database.Import` | database.py:55-79 | What `import_products` does: at most one insert per product. True only when every product has url/name/price/stock; a product lacking one forces False. |
| `Database.RunStatementsPrefix` | database.py:57-79 | The statements that ran are a prefix of those given. All of them ran exactly when the run is ok; otherwise, the server refused the next one. |
| `Database.RunStatementsStops` | database.py:57-79 | After a statement raises, nothing more runs. |
| `Database.RunStatementsAll` | database.py:58-76 | When the server accepts every statement in turn, all of them run. |
| `Database.InsertsNext` | database.py:63-75 | One more product adds its insert when it has a row, and nothing otherwise. |
| `Database.InsertsAt` | database.py:58-75 | Products that all have rows give exactly one insert each, in input order. |
| `Database.ImportInserts` | database.py:55-79 | The inserts executed are those of the first products, in input order, and the result is True exactly when every product was inserted. |
| `Database.ImportMissingField` | database.py:64-79 | A product lacking url/name/price/stock makes the result False. The inserts that ran stay, and none is for that product or a later one. |
| `Database.ImportAll` | database.py:55-76 | When every product has its required fields and the server accepts every insert, exactly one insert runs per product, in order, and the result is True. |
| `Database.Database.ImportProducts` | database.py:55-79 | The loop executes the inserts that `Import` states and returns its verdict. Earlier executions stay. |
| `Database.Database.constructor` | database.py:7-9 | A new connection has executed no statement. |
| `Database.Database.RunSqlFile` | database.py:41-53 | An unreadable file gives False and runs nothing. Otherwise, the script's non-blank `;` segments run as written, in file order, until one raises. |
| `Database.Database.RunSegment` | database.py:47-49 | One segment runs unless its stripped text is empty. |
| `Database.Blank` | database.py:47-48 | A blank segment is one whose every character is whitespace. |
| `Database.SegmentCommand` | database.py:47-49 | A segment gives at most one command. It gives none exactly when its `strip()` is `''`, and otherwise runs the segment as written. |
| `Database.CommandsNext` | database.py:47-49 | One more segment adds its command, if any. |
| `Database.StripBlank` | database.py:48 | `strip() != ''` holds exactly for the segments that are not all whitespace. |
| `Database.Commands` | database.py:47-49 | The segments that are not blank, as `Execute` statements in order: at most one per segment, none of them blank. |
| `Database.ScriptCommands` | database.py:44-49 | What `run_sql_file` executes for a script: non-blank `;`-free segments, each run as written. |
| `Database.CommandsAreSegments` | database.py:46-49 | Every command executed is one of the segments, unstripped and not blank. |
| `Database.CommandsOfSegment` | database.py:48-49 | A blank segment is dropped, and a non-blank one is kept as written. |

## Left out

- Concurrency: the asyncio semaphore, `create_task` and `gather` are not modelled, so the global in-flight bound is not stated. Async tasks run one after another in launch order.
- AsyncScraper.AsyncPetlebiScraper.ScrapeAll: the record order it states holds for the launch-order interleaving only. The code guarantees no order between concurrent products or pages.
- Timing: `time.time`, `time.sleep`, `asyncio.sleep` and the elapsed-time report.
- Console output and logging: every `print` and `self.logger` call. The `url`, `operation` and `filename` arguments of the error handlers only feed log lines.
- The network: `requests.get`, `aiohttp` and response decoding are the `Web` parameter. A GET either raises or answers a status and a body, and `Web` gives the same answer to every GET of the same URL. `SameRecord`, `SamePageRecords` and `SameSiteRecords` rely on this.
- HTML parsing: BeautifulSoup's search is replaced by the abstract `Card`, `Panel` and `DetailDom` values. `json.loads` failure, and a payload that is not a JSON object, is the payload `None`.
- Text.Strip: strips the ASCII whitespace of `str.strip()` only: space, tab, line feed, vertical tab, form feed, carriage return and 0x1C-0x1F. It keeps the non-ASCII whitespace Python also strips, such as U+0085, U+00A0 and U+2028.
- ErrorHandler.HandleRequestError: takes the status as an optional int. An error whose `status_code` attribute exists but is not an int is not modelled.
- The sinks: `run_and_save`, `save_to_json` (JSON writing), `connect`, `create_database`, `import_products_from_json`, `commit_and_close` and file reading. `run_sql_file` takes the file's contents, or None when it cannot be read.
- The MySQL server: it is the `Server` parameter, which accepts or refuses each statement. A refusal stands for any exception of `cursor.execute`.
- The CLI and configuration: main.py, config.py and logger.py are not part of this model. Configured values are parameters.
- petlebi_scrapy.py and import_products.py are not part of this model. They are a legacy script and a module-level duplicate of the importer.
