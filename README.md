# Amazon wishlist price tracker — verified model of the scraping and ingestion core

The system scrapes a public Amazon (Brazil) wishlist and stores each product
once, with one price-history row per scrape in which it has a price. This
project models its core in Dafny and proves properties of the model:

- **Page extraction** (`scraper/core.py`): reading the list name, the product
  code (ASIN) in a product link, and the name, link, image and price of each
  item node. It also covers how `executar_scraping` turns a rendered page into
  one of four outcomes: a listing, a "not found" rejection, an "empty or
  private" rejection, or the generic scraping error.
- **The older extractor** (`src/utils/scraping.py`), and how it relates to
  the newer one.
- **Ingestion** (`api/endpoints/wishlist.py`):
  - the URL check and the mapping of scraper errors to HTTP statuses;
  - `processar_dados_raspados_no_db`, which reconciles a scrape with the
    stored catalog. It creates a product for each ASIN not found in the
    lookup map and appends a price-history row for each priced item, in one
    transaction.
- **The tables** (`db/models.py`) `produtos` and `historico_precos`. Their
  column constraints are a validity predicate that every successful ingestion
  keeps.

The browser session and the HTML parser are outside the model. A page is the
abstract `Dom.Page`: an optional error heading, an optional list-name text, and
item nodes. Each node has an optional anchor (title and href), an optional
image (src) and an optional price element holding an optional hidden text.

Modules, one per file:

- `Wrappers`: `Option`, `Result`.
- `Text`: `str.strip`, `in`, `lower` and `upper`.
- `Price`: `re.sub(r"[^\d,]", "", …)` and `float` on the cleaned text, as an
  exact decimal.
- `Asin`: the `/[dg]p/` code search.
- `Timestamp`: `strftime` and `strptime` with `%Y-%m-%d %H:%M:%S`.
- `Dom`: the abstract page and the item record.
- `ScraperCore`: `scraper/core.py`.
- `LegacyScraping`: `src/utils/scraping.py`.
- `Models`: `db/models.py`.
- `Wishlist`: `api/endpoints/wishlist.py`.

The reconciler is specified by the function `Wishlist.Run`, one `Step` per
item over a `Session` holding the pending tables. The class `Wishlist.Catalog`
holds the committed tables. Its method `ProcessScraped` runs the loop
imperatively and is proved equal to `Run`. It commits only when the whole
batch succeeds.

Behaviours of the code that a reader might not expect, all modelled as written:

- The lookup map is built once, before the loop, from products stored
  earlier. So an ASIN that is new and appears twice in one batch is inserted
  twice. The second insert breaks `unique=True` and the whole transaction is
  lost (`Wishlist.RepeatedNewAsinAborts`).
- ASINs are unique across the whole table, not per wishlist. The tables hold
  no wishlist.
- In `scraper/core.py`, a malformed price raises `ValueError`. The per-item
  handler only catches `AttributeError` and `TypeError`, so the error ends
  the whole scrape with the generic error (`ScraperCore.ExtractAll`,
  `ScraperCore.Classify`).
- An item without a price still creates its product; it only gets no history
  row.

## Model

| member | source | states |
|---|---|---|
| Text.Strip | scraper/core.py:16 | The result is a contiguous slice of the input. Everything cut from either end is whitespace. The result neither starts nor ends with whitespace. |
| Text.Contains | scraper/core.py:91 | `needle in hay` holds iff the needle occurs at some index of the haystack. |
| Text.Lower | scraper/core.py:91 | Same length. Each upper-case ASCII letter becomes its lower-case letter (code point plus 32). Every other character is kept. |
| Text.Upper | scraper/core.py:22 | Same length. Each lower-case ASCII letter becomes its upper-case letter (code point minus 32). Every other character is kept. |
| Text.LowerAppend | scraper/core.py:91 | Lower-casing distributes over concatenation. |
| Price.NatOfAppend | scraper/core.py:51 | The value of a digit string splits at any point: value(a+b) = value(a)·10^\|b\| + value(b). |
| Price.Clean | scraper/core.py:49 | `re.sub(r"[^\d,]", "", t)` keeps only digits and commas. Text made only of kept characters comes back unchanged; text with none comes back empty. With `CleanAppend` this fixes the result: the kept characters, in order. |
| Price.CleanAppend | scraper/core.py:49 | Cleaning distributes over concatenation. |
| Price.CleanIgnoresStrip | scraper/core.py:47-49 | Stripping before cleaning makes no difference: Clean(Strip(t)) = Clean(t). |
| Price.ParseFloat | scraper/core.py:51 | `float` on digits and dots succeeds iff there is a digit and at most one dot. |
| Price.ParseFloatValue | scraper/core.py:51 | Without a dot the value is the integer. With a dot at k, the value is the integer part times 10^m plus the m-digit fraction, at scale m. |
| Price.DottedValue | scraper/core.py:51 | With its first dot at k, both sides of the dot are numerals and the value joins them, scaled by the fraction length. |
| Price.ToFloat | scraper/core.py:51 | `float(cleaned.replace(",", "."))` succeeds iff the cleaned text has a digit and at most one comma. The comma is the decimal point. |
| Price.BrazilianPriceCleaned | scraper/core.py:47-49 | Cleaning "R$ 1.234,56" gives "1234,56": the currency sign, the space and the thousands dot are dropped. |
| Price.BrazilianPriceValue | scraper/core.py:51 | "1234,56" reads as exactly 1234.56. |
| Asin.SearchFrom | scraper/core.py:20-21 | The found index is a match and no earlier index matches. None means no index matches. |
| Asin.ExtractAsin | scraper/core.py:18-22 | Returns None iff the pattern matches nowhere. Otherwise returns the ten `[A-Z0-9]` characters after `/dp/` or `/gp/` at the leftmost match. These are followed by `/`, `?`, the end, or a final newline. |
| Asin.UpperKeepsCode | scraper/core.py:22 | `.upper()` leaves a matched code unchanged. |
| Asin.NoMarkerNoCode | scraper/core.py:20-22 | A link containing neither `/dp/` nor `/gp/` has no code. |
| Dom.RecordFields | scraper/core.py:34-54 | The record of an anchored node: the title or "Nome não encontrado", the store prefix plus the href (or nothing), the image src or "Imagem não encontrada", the ASIN found in that full link, the price and the stamp. |
| Dom.CodeFromProductHref | scraper/core.py:35-40 | An href of the form `/dp/<code>` followed by `/`, `?` or nothing yields `<code>` as the item's ASIN. |
| Timestamp.Padded | scraper/core.py:63 | A zero-padded decimal of the given width, made of digits. |
| Timestamp.PaddedReads | scraper/core.py:63 | Reading a padded numeral back gives the number. |
| Timestamp.Format | scraper/core.py:63 | `strftime("%Y-%m-%d %H:%M:%S")` is 19 characters long. |
| Timestamp.Parse | api/endpoints/wishlist.py:93 | `strptime` accepts only the `YYYY-MM-DD HH:MM:SS` layout and only real dates and times. |
| Timestamp.ParseFormat | api/endpoints/wishlist.py:93 | A stamp written by `strftime` is always read back as the same date and time. |
| Timestamp.FormatParse | api/endpoints/wishlist.py:93 | Every text `strptime` accepts is exactly what `strftime` writes for the result. |
| ScraperCore.ListName | scraper/core.py:13-16 | A missing list-name element gives "Nome não encontrado". Otherwise the text with its whitespace margins cut off: a contiguous slice, the cut parts all whitespace, and neither end whitespace. |
| ScraperCore.PriceOf | scraper/core.py:42-53 | No price element, no hidden span, or an empty cleaned text gives `None`. A nonempty cleaned text without a digit, or with two commas, raises `ValueError`. Otherwise the price is `ToFloat` of the cleaned text. |
| ScraperCore.ExtractItem | scraper/core.py:24-58 | Returns None iff the node has no anchor. Raises iff an anchored node's price raises, and only with `ValueError`. |
| ScraperCore.ItemFields | scraper/core.py:34-54 | The record has: the title or "Nome não encontrado"; the store prefix plus the href; the image src or "Imagem não encontrada"; the ASIN of the full link; the price; the stamp. |
| ScraperCore.Anchored | scraper/core.py:66-69 | Keeps only nodes of the page that have an anchor, and keeps every such node. |
| ScraperCore.AnchoredAppend | scraper/core.py:66-69 | Filtering distributes over concatenation, so page order is kept. |
| ScraperCore.AnchoredOne | scraper/core.py:66-69 | A single node is kept iff it has an anchor. With `AnchoredAppend` this fixes the result: the anchored nodes, in page order. |
| ScraperCore.ExtractAll | scraper/core.py:60-71 | The only exception that escapes the loop is `ValueError`. |
| ScraperCore.ExtractAllFails | scraper/core.py:66-69 | The loop fails iff some node's extraction raises. |
| ScraperCore.FirstFailure | scraper/core.py:66-69 | A failing loop fails with the exception of the first node whose extraction raises; every earlier node is extracted without raising. |
| ScraperCore.FailureHasCause | scraper/core.py:66-69 | A failing loop has a node whose extraction raises. |
| ScraperCore.CauseFails | scraper/core.py:66-69 | A node whose extraction raises makes the whole loop fail. |
| ScraperCore.ExtractAllRecords | scraper/core.py:60-71 | On success there is one record per anchored node, in order, each with the shared stamp. |
| ScraperCore.ExtractItems | scraper/core.py:60-71 | The loop equals `ExtractAll` over the page's nodes with the current time formatted once. |
| ScraperCore.PrefixFailure | scraper/core.py:66-69 | An exception in a prefix of the nodes is the exception of the whole loop. |
| ScraperCore.SaysNotFound | scraper/core.py:91 | The heading contains "não encontrada" (case-sensitive), or its lower-cased text contains "not found". Its consequences are the three lemmas below. |
| ScraperCore.NotFoundAnyCase | scraper/core.py:91 | A heading holding any case variant of "not found" marks the list as missing. |
| ScraperCore.NotFoundCaseVariants | scraper/core.py:91 | "Not Found" and "NOT FOUND" are such variants. |
| ScraperCore.NaoEncontradaFound | scraper/core.py:91 | A heading holding "não encontrada" anywhere marks the list as missing. |
| ScraperCore.Classify | scraper/core.py:88-116 | A "not found" rejection iff the heading says so. The "empty or private" rejection iff it does not, nothing was extracted and the list name is missing. The generic error iff an item raised. Otherwise a listing with the list name, the items and their count. |
| ScraperCore.Scrape | scraper/core.py:82-118 | A driver failure becomes the generic error with its message. A rendered page is classified as above. |
| LegacyScraping.ListName | src/utils/scraping.py:5-7 | The raw list-name text, not stripped, or "Nome não encontrado" when the element is missing. |
| LegacyScraping.ListNameStrippedByCore | src/utils/scraping.py:5-7 | The newer extractor's list name is the older one's, stripped. |
| LegacyScraping.PriceOf | src/utils/scraping.py:37-44 | No price element gives None. A missing hidden span raises `AttributeError`. An empty cleaned text raises `TypeError` (`float(None)`). A nonempty cleaned text raises `ValueError` iff `ToFloat` rejects it; otherwise the price is `ToFloat` of it. |
| LegacyScraping.ExtractItem | src/utils/scraping.py:28-47 | A node without an anchor raises `AttributeError`. An anchored node raises exactly its price's exception. Succeeds iff it has an anchor and its price does not raise, with the same record as the newer extractor. |
| LegacyScraping.ExtractItems | src/utils/scraping.py:9-12 | On success there is one record per node. |
| LegacyScraping.ItemsRecords | src/utils/scraping.py:12 | On success, record k is node k's record, for every node. |
| LegacyScraping.ItemsSucceed | src/utils/scraping.py:12 | The list comprehension completes iff no node raises. |
| LegacyScraping.FirstFailure | src/utils/scraping.py:12 | A failing comprehension fails with the exception of its first raising node. |
| LegacyScraping.ExtractPage | src/utils/scraping.py:9-15 | On success there is one record per item node, and every record's stamp reads back as the one instant the clock gave. |
| LegacyScraping.ItemAgreesWithCore | src/utils/scraping.py:28-47 | When the older extractor succeeds on a node, the newer one returns the same record. |
| LegacyScraping.AllAnchored | src/utils/scraping.py:9-12 | When the older extractor succeeds, every node has an anchor. |
| LegacyScraping.AgreesWithCore | src/utils/scraping.py:9-12 | When the older extractor succeeds on a list, the newer one returns the same list. |
| Models.CatalogValid | db/models.py:18-42 | The table constraints: primary keys below the next id and increasing, `asin` not null and unique, `link_produto` unique, and every history row referencing a product. Its consequences are stated by `CatalogKeys`. |
| Models.CatalogKeys | db/models.py:22-40 | In valid tables the id and the ASIN each identify one product, and every history row's `produto_id` names an existing product. |
| Models.CheckInsert | db/models.py:21-24 | A flushed product is accepted iff its ASIN is not null and neither its ASIN nor its link is already stored. It is refused as null exactly when the ASIN is null. |
| Models.InsertKeepsValid | db/models.py:18-24 | An accepted insert with the next id keeps the tables valid. |
| Models.AppendKeepsValid | db/models.py:31-39 | A history row with the next id that references a stored product keeps the tables valid. |
| Models.HistoryOf | db/models.py:27-28 | `historico_precos` of a product holds exactly the rows whose `produto_id` is its id; `HistoryOfAppend` and `HistoryOfOne` fix their order and that each appears once. |
| Models.HistoryOfAppend | db/models.py:27-28 | Appending rows appends to each product's history, in order. |
| Models.HistoryOfOne | db/models.py:27-28 | A single row belongs to a product's history, exactly once, iff its `produto_id` is the product's id; with `HistoryOfAppend` this makes the history the rows of the table that reference the product, each once and in table order. |
| Models.FindByAsin | api/endpoints/wishlist.py:75-78 | Finds a stored product with that non-null ASIN, or reports that no stored product has it. |
| Wishlist.ValidateUrl | api/endpoints/wishlist.py:106-112 | Accepted iff the URL contains both "amazon.com" and "/hz/wishlist/ls/". Otherwise a 400 with the fixed detail. |
| Wishlist.WishlistShapeAccepted | api/endpoints/wishlist.py:106-112 | Every URL with "amazon.com" followed somewhere later by "/hz/wishlist/ls/" is accepted. |
| Wishlist.BrazilianStoreAccepted | api/endpoints/wishlist.py:106-112 | Every `https://www.amazon.com.br/hz/wishlist/ls/<id>` URL is accepted. |
| Wishlist.ScraperErrors | api/endpoints/wishlist.py:114-122 | Raises iff the result carries a nonempty error code. The detail is the error text. The status is 404 iff the code is WISHLIST_NOT_FOUND, 400 iff WISHLIST_EMPTY_OR_PRIVATE, and 500 otherwise. |
| Wishlist.ClassifiedStatus | api/endpoints/wishlist.py:114-122 | For a classified scrape: 404 iff the list is missing, 400 iff empty or private. Listings and the generic error pass through. |
| Wishlist.ItemsToProcess | api/endpoints/wishlist.py:68-71 | Only a listing has items to process; for one it is exactly its items. Everything else is an empty batch. |
| Wishlist.Step | api/endpoints/wishlist.py:77-100 | One iteration. It raises an integrity error only when the ASIN is not in the lookup map and the insert is refused, with that refusal. It raises on the stamp only for a priced item whose stamp `strptime` rejects. On success the counter goes up iff the item is priced. |
| Wishlist.Run | api/endpoints/wishlist.py:77-100 | The loop up to the first exception. On success the counter has grown by the number of priced items. |
| Wishlist.Priced | api/endpoints/wishlist.py:90-100 | The items that get a history row, one per counted item. |
| Wishlist.PricedAppend | api/endpoints/wishlist.py:90-91 | Selecting the priced items distributes over concatenation, so input order is kept. |
| Wishlist.PricedOne | api/endpoints/wishlist.py:90-91 | A single item is selected iff it has a price. With `PricedAppend` this fixes the result: the priced items, in order. |
| Wishlist.ProcessItem | api/endpoints/wishlist.py:77-100 | One pass of the loop body returns exactly what the specification step `Step` returns. |
| Wishlist.StepStores | api/endpoints/wishlist.py:78-88 | One successful iteration keeps the stored products and leaves the item's ASIN stored. |
| Wishlist.AttachedFacts | api/endpoints/wishlist.py:78-88 | Finding or adding the item's product only appends. It adds a product iff the ASIN is not in the lookup map. That product is built from the item's ASIN, name, link and image under the next id, and the next id advances. A product with the item's ASIN is left under the id the history row uses. |
| Wishlist.AttachedValid | api/endpoints/wishlist.py:80-88 | Adding a product the database accepts keeps the tables valid. |
| Wishlist.RowAppendedValid | api/endpoints/wishlist.py:94-99 | Appending a price row for a stored product, with the next id, keeps the tables valid. |
| Wishlist.StepShape | api/endpoints/wishlist.py:77-100 | A successful iteration passed the insert check. It returns the session with the product attached, plus the item's row when it has a price. |
| Wishlist.StepKeepsValid | api/endpoints/wishlist.py:77-100 | One successful iteration keeps the session valid. |
| Wishlist.StepFacts | api/endpoints/wishlist.py:77-100 | One successful iteration only appends. It adds a product iff the ASIN is not in the lookup map, built from the item's ASIN, name, link and image under the next id, and a history row iff the item has a price. That row belongs to the item. The counter goes up with the row. |
| Wishlist.RunShape | api/endpoints/wishlist.py:62-103 | A successful pass only appends. It adds one product per item missing from the lookup map and one history row per priced item. The count equals the number of rows added. |
| Wishlist.Unmapped | api/endpoints/wishlist.py:77-81 | The items whose ASIN is not in the lookup map, one per created product, each taken from the batch. |
| Wishlist.UnmappedAppend | api/endpoints/wishlist.py:77-81 | The selection distributes over concatenation. |
| Wishlist.UnmappedOne | api/endpoints/wishlist.py:78-80 | A single item is selected iff its ASIN is not in the lookup map. With `UnmappedAppend` this fixes the result: those items, in order. |
| Wishlist.RunProducts | api/endpoints/wishlist.py:77-88 | The products a successful pass creates are, in order, one per item missing from the lookup map, each carrying that item's ASIN, name, link and image, under consecutive ids. |
| Wishlist.RunKeepsValid | api/endpoints/wishlist.py:62-103 | A successful pass from valid tables leaves them valid. |
| Wishlist.RunStores | api/endpoints/wishlist.py:77-88 | After a successful pass, every item's ASIN is stored. |
| Wishlist.RowsGrow | api/endpoints/wishlist.py:90-99 | If the rows of an item prefix are in place, adding the last item's row (when it has a price) gives the rows of the whole list. |
| Wishlist.RunRows | api/endpoints/wishlist.py:90-99 | The appended rows correspond one-to-one and in order to the priced items. Each has its item's price and parsed stamp, and references the product with its ASIN. |
| Wishlist.FailsAt | api/endpoints/wishlist.py:77-102 | If the iteration for one item raises, the whole batch fails. |
| Wishlist.RunPrefixFailure | api/endpoints/wishlist.py:77-102 | An exception in a prefix of the batch is the exception of the whole batch. |
| Wishlist.NullAsinAborts | api/endpoints/wishlist.py:80-88 | An item without an ASIN aborts the whole batch. |
| Wishlist.BadStampAborts | api/endpoints/wishlist.py:93 | A priced item whose stamp `strptime` rejects aborts the whole batch. |
| Wishlist.RepeatedNewAsinAborts | api/endpoints/wishlist.py:74-88 | An ASIN absent from the lookup map that occurs twice in a batch aborts the whole batch. |
| Wishlist.RunKnownItems | api/endpoints/wishlist.py:77-100 | If every item is in the lookup map and every priced stamp parses, the pass succeeds, creates no product and counts every priced item. |
| Wishlist.ReingestCreatesNothing | api/endpoints/wishlist.py:62-103 | Ingesting the same batch again after a success creates no product. It appends one more row per priced item. |
| Wishlist.ScrapedStampsParse | scraper/core.py:63 | Every stamp the extractor writes is read back by the reconciler as the scrape time, to the second. |
| Wishlist.CrashedPassesAsEmpty | api/endpoints/wishlist.py:68-71 | The generic scraping error is not rejected and is ingested as an empty batch. |
| Wishlist.Catalog.constructor | db/models.py:18-42 | The catalog starts empty and valid. |
| Wishlist.Catalog.ProcessScraped | api/endpoints/wishlist.py:62-103 | The loop returns what `Run` returns. On failure the catalog is unchanged. On success the catalog is `Run`'s tables and stays valid, the tables are only appended to, and the result is the number of priced items. |

## Left out

- The browser (Selenium), the two-second wait and the HTML parser (BeautifulSoup) are not modelled. A page is the abstract `Dom.Page`, so selector matching is not modelled.
- The clock is a parameter: `ExtractItems` and `Scrape` take the current time.
- FastAPI routing, the request payload type, the `get_db` dependency, the response models and the two read endpoints are not modelled. Neither are SQLAlchemy's session and identity map, autoincrement, SQLite itself, or concurrent requests.
- The endpoint wrapper that turns every other exception into a 500 is not modelled.
- `Price.ParseFloat`: the value is an exact decimal, not a binary double, so rounding is not modelled. Only text of digits and dots is parsed, which is all that cleaning leaves.
- `Timestamp.Parse`: accepts only the fixed-width layout. Python's `strptime` also accepts single-digit month, day, hour, minute and second fields, a space-padded day, and any run of whitespace in place of the space between date and time. The model rejects those texts.
- `Timestamp.DateTime` has no microseconds: the clock is read at second resolution. `datetime.now()` carries microseconds, which `strftime` drops, so a stamp reads back as the scrape time truncated to the second.
- `Timestamp.Format`: assumes `%Y` writes four digits. Some platforms write years below 1000 without padding.
- `Text.Lower`, `Text.Upper` and `Price.Clean` treat only ASCII letters and ASCII digits. Python also lowers non-ASCII letters and `\d` also matches other Unicode digits.
- `Wishlist.ScraperErrors`: a result carrying `"error_code"` but no `"error"` would raise `KeyError`. The scraper never produces one, so this is not modelled.
- `Models.Produto`: `nome` and `link_produto` are always strings. The reconciler only writes strings, so the null `link_produto` that the schema allows, and a null `nome`, are not represented.
- The lookup map is built with `Produto.asin.in_(asins)`, which is modelled as a search over all stored products. Both give the same product for a given ASIN.
- `ScraperCore.FloatErrorMessage` writes the message of the `ValueError` that `float` raises. `str(e)` quotes the text with `repr`, which equals plain single quotes for the digit-and-dot texts that reach it.
- `src/main.py`, `src/config`, `scraper/config.py` and `api/main.py` are not part of this model. They are drivers and configuration.
