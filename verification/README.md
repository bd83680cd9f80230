# Shopify product price sync — Dafny model

A model of the synchronisation logic of a small Express service
(`src/index.js`) that keeps a local SQLite `products` table in step with the
product variants of a Shopify store:

- **Pagination** — `fetchProductVariants` asks the GraphQL API for one page
  of at most 50 variants and maps each edge to `{id, title, original_price}`;
  `fetchAllProductVariants` starts with a `null` cursor, feeds each page's
  `endCursor` into the next query, appends the pages in order and stops after
  the first page whose `hasNextPage` is false. Any error is rethrown.
- **Full resync** (`GET /sync-products`) — fetch everything, truncate the
  table, insert the fetched records one at a time, answer with the list.
- **Batch price update** (`POST /update-prices-shopify`) — for each parsed
  line `{product_id, new_price}` of the uploaded CSV, patch `updated_price`
  of the row with that id; select the rows whose `updated_price` is not
  NULL; for each, strip the first occurrence of
  `gid://shopify/ProductVariant/` from its id and send
  `productVariant.update(key, {price: updated_price})`.

The remote and the database are plain data. A remote is the sequence of
answers it gives to successive calls (the loops are deterministic, so this
covers every remote); the cursors sent and the update calls made are part of
each result. The table is a sequence of rows in insertion order (a choice of
the model: the selection query has no ORDER BY). Prices are
opaque strings, passed through unchanged (a choice of the model; see the
schema line under "Left out").

Modules: `Wrappers` (Option, Result), `JsString` (`indexOf` and `replace`
with a string pattern), `Shopify` (remote data, edge mapping, id
translation), `Pagination`, `Store` (the table and its queries), `Sync`
(the resync handler) and `PriceSync` (the price update handler).

## Model

| member | source | states |
|---|---|---|
| Shopify.ProductsOf | src/index.js:140-146 | one record per edge, same count and order, with `id`, `title` and `original_price` taken from the node's `id`, `title` and `price` |
| Shopify.ProductsOfLossless | src/index.js:140-146 | the mapping loses nothing: every edge is recovered, in order, from the records |
| Shopify.FetchProductVariants | src/index.js:135-155 | a failing GraphQL call is rethrown with the same error; otherwise the page's records are the edge mapping of its edges (one per edge, fields copied) and it carries the page's own `hasNextPage` and `endCursor` |
| JsString.IndexOf | src/index.js:101 | the result is an occurrence of the pattern with none before it, and `None` means the pattern occurs nowhere from the start position on |
| JsString.ReplaceFirst | src/index.js:101 | `replace` with a string pattern leaves a string without the pattern unchanged, and otherwise replaces exactly the first occurrence, keeping everything before and after it; a leading copy is the one replaced |
| Shopify.VariantKey | src/index.js:101 | an id without `gid://shopify/ProductVariant/` is used unchanged; an id containing it anywhere loses its first copy and nothing else; for an id starting with it, re-prefixing the key gives the id back |
| Shopify.VariantKeyOfGid | src/index.js:101 | the key of `gid://shopify/ProductVariant/` + k is k |
| Shopify.VariantKeyExample | src/index.js:101 | the key of `gid://shopify/ProductVariant/12345` is `12345` |
| Shopify.VariantKeyNotInjective | src/index.js:101 | `12345` and its global id give the same key, and a doubled prefix keeps one copy |
| Pagination.FirstFinal | src/index.js:165-170 | the loop ends at the first answer that is an error or a page without a next page, and at no earlier one |
| Pagination.AllProductsLength | src/index.js:160-172 | the gathered list holds as many records as the fetched pages hold edges |
| Pagination.AllProductsAppend | src/index.js:167 | gathering over consecutive pages concatenates their records in page order |
| Pagination.Paginate | src/index.js:165-170 | from a cursor and the records gathered so far: one query per answer up to the first final one, each after the first sent with the previous page's `endCursor`; the result is the gathered records followed by every fetched page's records, or the first error |
| Pagination.FetchAllProductVariants | src/index.js:159-177 | the first query uses the `null` cursor, each later one the previous `endCursor`, no query follows the first page without a next page; the result is the concatenation of every fetched page's records with length the sum of the page sizes, or the error of the failing page with no partial list |
| Store.Insert | src/index.js:50 | an insert appends the row with `updated_price` NULL exactly when its id is new, fails with the duplicate id otherwise, and keeps ids unique |
| Store.InsertEach | src/index.js:48-51 | the insert loop succeeds exactly when the records' ids are distinct and new, and then appends one row per record in order; on failure there is a position k such that the products before k were distinct and new and are all stored, product k's id was then already stored, and the error names it |
| Store.PatchById | src/index.js:88-90 | a patch sets `updated_price` of the rows with that id, changes no other column and no other row, and is a no-op for an absent id |
| Store.LastPrice | src/index.js:87-91 | the price the last file line naming an id asks for, and none exactly when no line names it |
| Store.PatchAll | src/index.js:87-91 | after the patch loop every row keeps its id, title, original price and position; its `updated_price` is the last file price for its id, and a row no line names is unchanged |
| Store.Pending | src/index.js:96 | the selection holds exactly the stored rows whose `updated_price` is not NULL, each as many times as it is stored (so each row once) and no other row; table order is stated by `Store.PendingAppend` |
| Store.PendingAppend | src/index.js:96 | the selection keeps table order |
| Sync.SyncProducts | src/index.js:41-58 | a failed fetch leaves the table untouched and answers the error; the resync answers the fetched list exactly when the fetch succeeds with distinct ids, and then the table is the fetched records in order with no pending price |
| Sync.ResyncReplacesTable | src/index.js:45-51 | after a successful resync the table holds exactly the fetched records, none with a pending price |
| Sync.ResyncForgetsOldTable | src/index.js:45-51 | once the fetch succeeds, the resync's outcome does not depend on the table it started from |
| Sync.ResyncIdempotent | src/index.js:43-51 | resyncing twice against the same remote gives the same table, answer and queries as resyncing once |
| Sync.SyncOnePageExample | src/index.js:43-51 | one page with one variant and no next page: one query with the `null` cursor and a table holding exactly that variant |
| Sync.ResyncNotAtomic | src/index.js:45-51 | an example of the non-atomic replace: for a table holding one old row and a remote sending two variants with id `v`, the resync answers a duplicate-id error and leaves only the first `v` row, the old row gone |
| PriceSync.PushAll | src/index.js:99-105 | the calls are one per selected row, in selection order, with the translated id and that row's `updated_price`; the loop completes exactly when every call succeeds, and otherwise stops right after the first failing call with its error |
| PriceSync.UpdatePrices | src/index.js:87-105 | the table after the handler keeps every row's id, title, original price and position, with `updated_price` the last file price for its id (pushing changes nothing locally); the calls are one per row with a pending price, in selection order; it succeeds exactly when every call succeeds, and on failure the last call made is the first rejected one and the error is its reason |
| PriceSync.UpdateFor | src/index.js:101-104 | the call carries the row's pending price and the key `Shopify.VariantKey` gives its id (the first variant prefix removed wherever it stands): re-prefixing a global id's key gives the id back, and an id without the prefix is sent unchanged |
| PriceSync.PushKeepsPendingPrices | src/index.js:96-105 | a push never clears `updated_price`: every row the file named stays selected |
| PriceSync.UpdatePricesExample | src/index.js:87-105 | a file setting 12.50 on `gid://x/1` patches that row and sends one update keyed by the unchanged id |
| PriceSync.UpdateForGid | src/index.js:101-104 | a row with a global variant id is sent under its bare key with its pending price |

## Left out

- HTTP routing, the `/products` listing, the static `index.html`, the JSON responses and the upload middleware (`fileExists`, `fileExtLimiter`, `fileSizeLimiter`): plumbing; the middleware is not part of this model.
- `file.mv` and the `Date.now()` file name: file system I/O and the clock.
- CSV decoding by `csv-parser`: a foreign library; lines enter the model already parsed, with both columns present.
- The Shopify client, its `autoLimit` pacing and the credentials from the environment: network calls, modelled only by the answers they return.
- `knexfile.js` and `config/database.js`: connection and migration settings with no logic. The table's schema is not part of this model; the `id` column is taken to be a unique key, so an insert of an id already stored fails, and the `original_price` and `updated_price` columns are taken to store the strings they are given unchanged (text affinity). With a numeric column SQLite would store `"12.50"` as 12.5 and the update call would carry that number.
- Database failures other than a duplicate id (a failing truncate, a failing patch): storage I/O.
- Pagination.FetchAllProductVariants: does not model a remote that answers `hasNextPage: true` forever (the source then loops forever); the answers must reach a final one.
- Concurrent requests and logging: each handler is modelled as running alone on a table no other request touches. Express serves requests concurrently and every `await` (src/index.js lines 43, 46, 50, 88-90, 96 and 104) lets another request's queries run, so two resyncs can both truncate and interleave their inserts (one then failing on a duplicate id), and a resync can truncate the table while a price update is still pushing. The `console.log`/`console.error` calls in the catch blocks are output only and are not modelled.
- PriceSync.UpdatePrices: runs the patches before the selection. In the source the patch loop runs in an unawaited stream callback, so the selection at line 96 can run before, during or after the patches; the source does not guarantee this order.
- PriceSync.PushAll: requires an answer for every selected row; only those up to the first failure are consumed.
- The page size of 50 (`first: 50`) is not enforced on the answers: it bounds payloads, not correctness.
- Row order: the table keeps rows in insertion order and the selection returns them in that order. `whereNotNull('updated_price')` has no ORDER BY, so in the source the push order is whatever order SQLite's scan yields; the model's push-order statements are relative to the selection as modelled.

## Where the source departs from the intended behaviour

A careful synchronisation service would do more than this code does; the
model follows the code.

- The resync is not atomic: the table is truncated and then filled one insert
  at a time, so a failing insert leaves a partly filled table (the insert
  loop's failure state is stated by `Store.InsertEach`; `Sync.ResyncNotAtomic`
  is a worked instance).
- The push loop has no per-record failure isolation and builds no summary:
  the first failing update ends the handler with an error and later rows are
  not sent (`PriceSync.PushAll`).
- A file line whose id has no row is silently ignored rather than reported
  (`Store.PatchById`).
- `updated_price` is never cleared after a push, so every later upload
  resends every price set before, until the next resync truncates the table
  and re-inserts every row with `updated_price` NULL
  (`PriceSync.PushKeepsPendingPrices`, `Sync.ResyncReplacesTable`).
- The id translation is not lossless: it removes the first occurrence of the
  prefix wherever it stands, and a bare key and its global id translate to the
  same key (`Shopify.VariantKeyNotInjective`).
