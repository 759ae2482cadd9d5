# Shopify → SQL Server sync engine, modelled in Dafny

The engine copies three Shopify resources (orders, products, customers) into
SQL Server tables. For each resource it walks the GraphQL connection page by
page (100 edges a page, following `pageInfo.hasNextPage` and the last edge's
cursor), maps each node to a flat row, and then writes every row with a
`MERGE … WITH (HOLDLOCK)` keyed on `Id`. Every upstream request goes through a
single rate limiter that keeps successive requests at least 250 ms apart.
Outcomes go to a log table (`dbo.SyncLogs`), keyed by the current millisecond.
A run syncs one named resource or all three in order, then logs
"Sync completed" or the error it caught under the resource name (or `all`).

The model is built in layers:

- `Rows`: JavaScript values, object literals as ordered property lists, and tables.
- `GlobalId`: `extractId`, the numeric tail of a Shopify global id.
- `RateLimit`: the wait before each request.
- `Merge`: the column, value and `UPDATE SET` lists of the `MERGE`, and what the
  statement does to a table.
- `Records`: node-to-row mapping of the three fetchers, and the orders
  `updated_at` filter.
- `Machine`: the engine's whole state as a value: clock, `lastRequestTime`, tables,
  write counter and the trace of requests sent. It also holds the three primitive
  steps: one rate-limited request, one `upsert`, one `saveLog`.
- `Pages`: the fetchers' page loop as a function over the sequence of answers the
  store gives, with the properties of the rows and requests it produces.
- `Runs`: the syncs' write loop with its reference meaning (merging the rows in
  order), the three syncs, and `run`.
- `SyncEngine.Engine`: a class whose fields are the engine's mutable state and
  whose methods (loops included) are the source's functions. Each method is proved
  to produce exactly the state the functions above describe, and to keep the
  invariant `Machine.Good`: requests spaced by the rate limit, every table keyed
  by `Id`.

The environment becomes parameters:

- what the store answers to each page request (`Pages.PageResult`);
- which write attempts the database rejects, and how long a write takes (`Machine.Env`);
- the clock. It advances by the rate-limit sleep, by each request's round trip,
  and by each write.

Some behaviours of the code the model keeps, which are easy to miss:

- The limiter measures the interval from the moment the previous request was
  sent, not from when it returned.
- A sync fetches every page before it writes any row. Rows of pages fetched
  before a fetch error are still written afterwards, because the fetcher
  returns them.
- No resource isolates per-item write failures. The first write error of any
  sync escapes to `run`, which skips the remaining resources.
- A log write can throw. Inside a fetcher's `catch`, that error escapes the
  fetcher and the rows are lost. Inside `run`'s `catch`, it escapes `run`.
- Log entries are keyed by `Date.now()`, so two entries written in the same
  millisecond collapse into one (`Machine.SameMillisecondLogsCollide`).
- A look-back of `--hours` that puts the filter bound outside the range of a
  JavaScript `Date` makes `toISOString` throw `RangeError: Invalid time value`
  before the orders fetch sends anything. `run` catches it, and in the default
  branch products and customers are then skipped (`Runs.SyncOrdersBadHours`).

## Model

| member | source | states |
|---|---|---|
| GlobalId.ExtractId | sync.js:69-72 | a number exactly when the id ends in a slash followed by one or more digits, and then the decimal value of those digits; `null` otherwise |
| GlobalId.DecimalRoundTrip | sync.js:71 | parsing the decimal text of a number gives the number back |
| GlobalId.ExtractIdRoundTrip | sync.js:69-72 | any prefix, then a slash, then the decimal text of `n`, extracts to `n` |
| GlobalId.ExtractIdRejects | sync.js:70-71 | an id whose text after the final slash is empty or not all digits gives `null` |
| RateLimit.Wait | sync.js:35-36 | the sleep is never negative and at most 250 ms. It is zero exactly when 250 ms have already passed. Sleeping it brings the clock to the later of now and the previous start plus 250 ms |
| Rows.BindingsOfRow | sync.js:43-49 | the parameters bound to the statement are exactly the object's keys, each bound to its own value |
| Merge.ListsAligned | sync.js:43-45 | the column list and the value list have one entry per key, in key order: `[k]` and `@k` |
| Merge.UpdateListContents | sync.js:46 | the `UPDATE SET` list assigns every key except the key column, each to its own parameter, and holds nothing else |
| Merge.Apply | sync.js:51-55 | the merged table has exactly the old keys plus the item's key |
| Merge.ApplyKeyed | sync.js:51-55 | a table whose rows are filed under their own key stays so after the merge |
| Merge.ApplyStores | sync.js:54-55 | after the merge, the row under the item's key carries every one of the item's columns with its value, whether it was updated or inserted |
| Merge.ApplyFrame | sync.js:53 | every row with another key is unchanged |
| Merge.ApplyIdempotent | sync.js:51-55 | upserting the same item twice leaves the table as upserting it once |
| Merge.ApplyLaterWins | sync.js:51-55 | a later item with the same key and at least the same columns overrides everything an earlier one wrote |
| Records.IdValueRoundTrip | sync.js:92 | a global id ending in a slash and the decimal text of `n` is stored as the number `n` |
| Records.IdValueRejects | sync.js:92 | a global id whose last segment is empty or not all digits is stored as `null` |
| Records.MapOrder | sync.js:89-99 | mapping fails exactly when the price path meets `null`, with V8's `TypeError` message for `shopMoney` or `amount`. On success the row has the seven order columns in order. The id is the extracted id. The order number falls back to the name when falsy. The customer id is the customer's extracted id, and `null` when there is no customer. The creation and update times and the price amount are the node's own. The raw JSON is the node's text |
| Records.MapProduct | sync.js:127-133 | never fails; the five product columns in order: the extracted id, the node's title, creation and update times, and its raw JSON |
| Records.MapCustomer | sync.js:161-167 | never fails; the five customer columns in order: the extracted id, the node's email, creation and update times, and its raw JSON |
| Records.OrdersFilter | sync.js:78 | no bound when `hours` is falsy. Otherwise the bound is `hours` hours before the clock, and the computation throws "Invalid time value" exactly when that lies outside the range of a `Date` |
| Records.OrdersFilterRange | sync.js:78 | with a clock from the epoch to the end of the `Date` range, a look-back of up to 2.4 billion hours gives a bound in the past, and one of more than 4.8 billion hours throws |
| Records.ItemOfRow | sync.js:182-190 | rebuilding an object from a row with exactly those, distinct, property names gives the row back |
| Records.SyncOrderItem | sync.js:182-190 | the item `syncOrders` writes equals the row `fetchOrders` pushed |
| Records.SyncProductItem | sync.js:198-204 | the item `syncProducts` writes equals the row `fetchProducts` pushed |
| Records.SyncCustomerItem | sync.js:212-218 | the item `syncCustomers` writes equals the row `fetchCustomers` pushed |
| Machine.Posted | sync.js:34-39 | the request starts after the sleep, at least 250 ms after the previous start. It is appended to the trace with its resource, cursor clause and filter. `lastRequestTime` becomes its start. Tables and writes are unchanged |
| Machine.PostedGood | sync.js:35-37 | a request keeps every pair of requests in the trace at least 250 ms apart |
| Machine.Write | sync.js:41-58 | one write attempt. It succeeds exactly when the database raises no fault, the table exists and the item's `Id` is present and not `null`. Then exactly that table is merged with the item. On failure no table changes. The attempt is counted and takes its time either way |
| Machine.WriteGood | sync.js:57 | a write keeps the engine invariant |
| Machine.LogItemBindings | sync.js:61-66 | a log entry binds `Id` and `CreatedAt` to the current millisecond, and `Resource` and `Message` to its arguments |
| Machine.LogEntryStored | sync.js:61-66 | merging a log entry files its message and resource under its millisecond |
| Machine.SaveLog | sync.js:60-67 | the log write succeeds exactly when the database raises no fault and the log table exists. Then the log table is the old one with this message and resource merged in under the current millisecond: that key is added, and every other entry stays as it was. On failure no table changes. No other table changes either way, and no request is sent |
| Machine.SaveLogGood | sync.js:60-67 | a log write keeps the engine invariant |
| Machine.SameMillisecondLogsCollide | sync.js:62 | two log writes in the same millisecond leave one entry for that millisecond, holding the second message and resource |
| Pages.Abandon | sync.js:103-106 | the `catch`: one log write under the resource. The collected rows come back only if that write succeeds; the tables are then the old ones with the error's entry merged into the log, every other entry and table kept. If the write throws, no table changes |
| Pages.Walk | sync.js:79-107 | each turn of the page loop sends one request, so the trace only grows |
| Pages.MapEdgesShift | sync.js:89-101 | mapping a page pushes the same rows and stops at the same error whatever rows came before. The cursor held afterwards is the page's own last cursor, or the one held before if the page pushed none |
| Pages.MapEdgesCursor | sync.js:100 | after a page mapped without error, the held cursor is the cursor of its last edge, or unchanged for a page with no edges |
| Pages.WalkContinues | sync.js:102 | a clean page with a next page leads to the next request, holding the page's rows and last cursor |
| Pages.WalkStops | sync.js:102-106 | a page without a next page ends the loop with the rows. A failed request or a mapping error goes to the `catch` |
| Pages.AbandonOutcome | sync.js:103-106 | the `catch` right after a request makes one write: the error's log entry, keyed by when that request returned, merged into the log with every other entry and table kept. If that write throws, no table changes |
| Pages.WalkRowsLast | sync.js:102-108 | the last page's outcome, as in `WalkRowsFrom`, when it is the first page walked: its rows, and on an error end one log write that keeps every other log entry and table |
| Pages.WalkRowsFrom | sync.js:77-108 | the rows returned are the rows of every page up to the first that stops the loop, in order. A clean end writes nothing. An error end makes exactly one write: the error's log entry under the resource, keyed by when the last request returned, is merged into the log, and every other log entry and table is kept. The rows come back only if that write succeeds; if it throws, no table changes |
| Pages.CursorAfterPage | sync.js:81 | the cursor held after a clean page is the last cursor received so far |
| Pages.WalkRequestsFrom | sync.js:79-81 | one request per page up to the stopping page and no more. Each goes to the resource with the fixed filter, and carries the last cursor received before it, when that cursor is non-empty |
| Pages.WalkFromStart | sync.js:74-109 | the whole fetch: the first request has no cursor. The requests follow the cursors. The rows returned are the concatenation of the pages' rows up to the stopping page |
| Pages.WalkFrame | sync.js:103-106 | a fetch changes no table but the log |
| Pages.WalkGood | sync.js:86-87 | a fetch keeps every request at least 250 ms after the previous one, and every table keyed |
| Pages.WalkResource | sync.js:80-87 | every request of a fetch goes to its own resource |
| Runs.FoldKeyed | sync.js:191 | writing rows in order keeps the table keyed by `Id` |
| Runs.FoldKeys | sync.js:181-192 | after the write loop the table holds the old keys plus the keys of the rows written |
| Runs.FoldUntouched | sync.js:181-192 | a stored row whose key no written row carries is unchanged |
| Runs.FoldLastWins | sync.js:181-192 | for each key, the last row written with it decides every column that row has |
| Runs.UpsertAllFrame | sync.js:181-192 | the write loop sends no request. It makes at most one attempt per row. It changes no table but its own, and keeps the set of tables |
| Runs.UpsertAllClock | sync.js:191 | each write attempt of the loop advances the clock by the write time |
| Runs.UpsertAllSucceeds | sync.js:181-192 | the loop completes exactly when every row can be written: the table exists, and every row has a key and meets no fault. Then one write was made per row, and the table is the old one with the rows merged in order |
| Runs.CleanFromCons | sync.js:181-192 | a run of writes all goes through exactly when the first does and the rest go through from the next attempt on |
| Runs.UpsertAllStops | sync.js:191 | when a write throws, nothing later is attempted. The error is the one that attempt raises |
| Runs.UpsertAllCleanBefore | sync.js:181-191 | when a write throws, every earlier row could be written |
| Runs.UpsertAllPartial | sync.js:191 | when a write throws, the table holds exactly the earlier rows merged in order |
| Runs.UpsertAllGood | sync.js:191 | the write loop keeps the engine invariant |
| Runs.SyncFrame | sync.js:179-193 | a sync sends requests only for its own resource, after the earlier ones. It changes no table but its own and the log |
| Runs.SyncGood | sync.js:179-193 | a sync keeps the engine invariant |
| Runs.SyncStores | sync.js:179-193 | a sync that returns without error leaves its table holding the rows of every page up to the stopping page, merged in order. After a clean fetch, the sync succeeds exactly when every one of those rows can be written |
| Runs.SyncOrdersBadHours | sync.js:78 | a look-back outside the `Date` range makes `syncOrders` throw "Invalid time value" with no request sent and nothing written |
| Runs.SyncDone | sync.js:179-221 | a sync that returns without error sent a request for its resource, and its table holds the rows of the pages up to the stopping page, merged in order |
| Runs.SyncOrdersStep | sync.js:179-193 | `syncOrders` requests only orders and changes only the orders table and the log |
| Runs.SyncProductsStep | sync.js:195-207 | `syncProducts` requests only products and changes only the products table and the log |
| Runs.SyncCustomersStep | sync.js:209-221 | `syncCustomers` requests only customers and changes only the customers table and the log |
| Runs.SingleEffect | sync.js:226-234 | a named resource's sync requests only that resource and leaves the other two tables unchanged |
| Runs.DefaultEffect | sync.js:235-239 | the default branch requests orders, then products, then customers, never going back |
| Runs.ChainStores | sync.js:235-238 | three syncs in a row, each storing its own rows and leaving the other tables alone, leave all three tables stored and all three resources requested |
| Runs.DefaultDispatchStores | sync.js:235-238 | when the default branch throws nothing, it requested orders, products and customers, and each table holds its resource's rows, up to the page that ended that walk, merged in order |
| Runs.DefaultStores | sync.js:223-247 | when a default run catches nothing, all three resources were requested, all three tables hold their resource's rows merged in order, and the last write is "Sync completed" under the scope |
| Runs.DispatchEffect | sync.js:225-240 | the `switch` requests only the selected resources, in the order orders, products, customers. It leaves the tables of unselected resources unchanged |
| Runs.ConcludeLogs | sync.js:241-246 | the end of `run`: a thrown error is the one caught. Only the `catch`'s own log write lets an error escape. When an error escapes, no table changed. Without an escape, the last write is the outcome's log entry under the scope, merged into the log with every other entry and table kept |
| Runs.RunLogsOutcome | sync.js:223-247 | a sync's error is what `run` catches. Only the `catch`'s own log write can let an error escape. When an error escapes, the `catch` changed no table. Without an escape, the last write is a log entry under the scope: "Sync completed" when nothing was caught, the caught message otherwise. It is merged into the log, and every other entry and table is as the `switch` left it |
| Runs.RunEffect | sync.js:223-247 | the same order and selection for a whole run, log writes included |
| Runs.RunStopsAtFirstError | sync.js:235-240 | in the default branch, a sync that throws is the error caught. No later resource is requested or written |
| Runs.RunGood | sync.js:223-247 | a whole run keeps all its requests at least 250 ms apart and every table keyed |
| SyncEngine.Engine.constructor | sync.js:33 | the engine starts with `lastRequestTime` 0, no requests, no writes, and the invariant holding |
| SyncEngine.Engine.RateLimitedPost | sync.js:34-39 | the new state is `Machine.Posted` of the old one. The invariant is kept |
| SyncEngine.Engine.Upsert | sync.js:41-58 | the new state and the error are `Machine.Write` of the old state. The invariant is kept |
| SyncEngine.Engine.SaveLog | sync.js:60-67 | the new state and the error are `Machine.SaveLog` of the old state. The invariant is kept |
| SyncEngine.Engine.Fetch | sync.js:79-108 | the page loop leaves the state, and returns the rows or the escaped error, as `Pages.Walk` from the first page. The invariant is kept |
| SyncEngine.Engine.Turn | sync.js:80-106 | one turn of the page loop on page `i`: when it ends the loop, the state and the result are those of `Pages.Walk` from that page. Otherwise the page asks for the next one, and `Pages.Walk` from the next page with the new state, rows and cursor is the same walk. The invariant is kept |
| SyncEngine.Engine.MapPage | sync.js:89-101 | the edge loop pushes the rows, holds the cursor and stops at the mapping error exactly as `Pages.MapEdges` |
| SyncEngine.Engine.FetchOrders | sync.js:74-109 | the orders fetch with the filter read from the clock at its start, as `Pages.Walk`. A filter out of the `Date` range throws "Invalid time value" and changes nothing |
| SyncEngine.Engine.FetchProducts | sync.js:111-143 | the products fetch, without a filter, as `Pages.Walk` |
| SyncEngine.Engine.FetchCustomers | sync.js:145-177 | the customers fetch, without a filter, as `Pages.Walk` |
| SyncEngine.Engine.UpsertRows | sync.js:181-192 | the write loop leaves the state and error of `Runs.UpsertAll` |
| SyncEngine.Engine.SyncOrders | sync.js:179-193 | the state and error of `Runs.SyncOrders` |
| SyncEngine.Engine.SyncProducts | sync.js:195-207 | the state and error of `Runs.SyncProducts` |
| SyncEngine.Engine.SyncCustomers | sync.js:209-221 | the state and error of `Runs.SyncCustomers` |
| SyncEngine.Engine.Run | sync.js:223-247 | the state, caught error and escaped error of `Runs.Run`. The invariant is kept |

## Left out

- Configuration from the environment, the fatal exit on a missing variable and the HTTP client setup: not engine logic.
- Command-line parsing: the options are the parameter `Runs.Options`, with `hours` already parsed. `None` stands for both `undefined` and the `NaN` that `parseInt` gives for text that is not a number.
- The hourly cron schedule and the direct start: each call of `Engine.Run` is one run. Overlapping runs are not modelled.
- The network and GraphQL: each request's answer is given as a `PageResult`. A transport failure, or a response without `data`, is `Failed` with its message. The query text is reduced to its resource, `after:` clause and `updated_at:>=` bound. Whether the store honours the filter is not modelled.
- `JSON.stringify(n)`: each node carries its JSON text as a field.
- Date values: `createdAt` and `updatedAt` pass through unchanged. The ISO text of the filter bound is the number of milliseconds it encodes. `new Date()` in a log entry is the current millisecond.
- `parseInt` precision: ids and `hours` are unbounded integers, and the loss of precision above 2^53 is not modelled. The filter bound is computed exactly; within the `Date` range JavaScript's arithmetic gives the same value.
- SQL Server: a table is a map from key to columns. Only `Id` is ever the key column. `Id` is taken as the primary key, so a `NULL` id is rejected. Other failures (connection, constraint, type) are the oracle `Env.faults`. The exact statement text is not produced, and its lists are proved separately in `Merge`. Column types and the connection pool are left out.
- Console output of `run`.
- Timers are exact: the sleep ends exactly `wait` milliseconds later.
- Pages.Walk: requires that some page ends the loop. If the store said `hasNextPage` forever, the source would loop forever, and that case is not modelled.
