# Order sync and staff annotations of a marketplace warehouse server

This project models, in Dafny, the core of a small warehouse server that
keeps an in-memory list of marketplace orders in line with the
marketplace's own listing, and lets staff annotate those orders. The core
lives in `Program.cs` and `Models.cs`:

- **Records** (`Models.cs`): an `Order` (id, status 0 = new / 1 = processed,
  assignee, creation time, items, a UI selection flag) and an `OrderItem`
  (ids, names, image, quantity, SKU, pick location, and four fields of a
  picking view). They are datatypes in module `Models`, with their defaults.
- **Sync pass** (`CoreEngineSync`): list the order ids of the last 15 days
  (one token refresh and one retry on an `error_auth` reply), remove the
  new orders the listing no longer shows, compute the listed ids not yet
  stored, fetch their details in batches of at most 50 and append one order
  per detail record. Module `Reconcile` states the pass as a function of the
  store, the clock reading and the marketplace's replies (`SyncSpec`), with
  the lemmas about it; `Store.OrderStore.Sync` runs the same pass step by
  step on the store and is proved equal to it.
- **Location** (module `Location`): the group of the first match of
  `\[(.*?)\]` in the variant label, or `"Kho"`. The regular expression's
  meaning (leftmost `[`, nearest `]`, no line feed in between) is stated as
  predicates and the scanning functions are proved to compute it.
- **Store and commands** (modules `Store`, `Commands`): the shared list
  `_dbOrders` is the class `OrderStore` holding a `seq<Order>`; every
  `lock` block is one method. `/api/assign` and `/api/ship` change the first
  order with the given id.
- **Product lookup** (module `Product`): the stock rule of `/api/product`
  and the reply it builds.

The marketplace's JSON replies are typed datatypes (module `Payloads`). A
property the code reads with `GetProperty` is an `Option`; a missing one
makes the code throw, which the model carries as an outcome. The
marketplace client, the clock and the token refresh are inputs (the
`Remote` datatype and the `now` parameter).

Behaviour of the code that the model keeps, and that a reader might not
expect:

- A record that lacks a property does not just skip that record. The
  exception leaves the whole pass. Orders already appended stay, including
  earlier orders of the same reply. Later batches are not fetched
  (`RunFromStops`, `SyncStops`).
- Orders are appended without a duplicate-id check. Id uniqueness is proved
  only under the condition that the new ids the pass fetches are distinct
  and every detail reply carries only requested ids, each at most once
  (`SyncUniqueNewIds`); a listing that repeats no id meets the first
  condition (`SyncUnique`).
- The default location is `"Kho"`, and a missing variant label throws
  instead of giving the default.
- The retried listing is read even if it again reports `error_auth`. A
  listing reply without `response.order_list` reads as an empty listing and
  prunes every new order (`SyncEmptyListing`).

## Model

| member | source | states |
|---|---|---|
| `Models.DefaultOrder` | Models.cs:5-13 | a fresh order has an empty id, status new (0), no assignee, creation time 0, no items and is not selected |
| `Models.DefaultItem` | Models.cs:15-30 | a fresh item has empty strings, zero ids and quantity, is not picked, has no picking order ids, total 0 and detail view off |
| `Location.CloseFrom` | Program.cs:87 | the lazy `.*?\]` from a position ends at the nearest `]` reached without a line feed, and there is none when the result is None |
| `Location.MatchFrom` | Program.cs:87 | the result is the leftmost `[` that opens a match, with its nearest closing bracket; None exactly when no `[` opens a match |
| `Location.LocationOf` | Program.cs:85-88 | the location is "Kho" or the text strictly inside a bracket pair of the label, so it is at least two characters shorter than the label |
| `Location.LocationOfMatch` | Program.cs:85-88 | with a leftmost match from `i` to `k`, the location is the text strictly between the brackets |
| `Location.LocationOfNoMatch` | Program.cs:86-88 | when no `[` opens a match, the location is "Kho" |
| `Location.LocationShape` | Program.cs:85-88 | a location never contains `]` or a line feed |
| `Location.LocationExampleBracket` | Program.cs:85-88 | "Red [A1-03]" gives "A1-03" |
| `Location.LocationExampleNone` | Program.cs:85-88 | "Red" gives "Kho" |
| `Location.LocationExampleFirstOfTwo` | Program.cs:85-88 | "x [A][B]" gives "A": the first match wins |
| `Location.LocationExampleLineFeed` | Program.cs:85-88 | a line feed between `[` and `]` prevents that match, so the next bracket pair is used |
| `Parsing.SkuText` | Program.cs:96 | a JSON null `model_sku` reads as "", a present one as its text |
| `Parsing.ItemFromRecord` | Program.cs:85-98 | an item is built exactly when every read property is present; it keeps the ids, names, raw label, image URL and quantity of the record, maps a null SKU to "", derives the location from the label and leaves the picking fields at their defaults |
| `Parsing.OrderFromRecord` | Program.cs:82-99 | an order is built only when id, creation time and item list are present; it is new and has one item per item record |
| `Parsing.OrderFromRecordSpec` | Program.cs:82-99 | an order is built exactly when id, creation time, item list and every item are complete; it has status new, no assignee, is unselected, and has one item per item record in record order |
| `Parsing.BuildOrder` | Program.cs:82-99 | the item loop builds the same order as the record-level definition, or throws in the same cases |
| `Parsing.ParseBatch` | Program.cs:80-101 | at most one order per record, and one per record exactly when no record throws |
| `Parsing.ParseBatchSpec` | Program.cs:80-101 | the orders added from a reply are those of its records in order up to the first record that throws, which builds no order |
| `Batching.BatchAt` | Program.cs:72 | `Skip(i).Take(50)`: the batch holds the ids from offset `i` on, 50 of them or all that remain if fewer |
| `Batching.BatchesFrom` | Program.cs:70-72 | every batch has 1 to 50 ids, the batches laid end to end are the ids from the offset on, and there are ceil(remaining / 50) of them |
| `Batching.BatchesFromWindows` | Program.cs:70-72 | every batch is its loop window at `i`, `i + 50`, `i + 100`, ..., so the split is the loop's and no other |
| `Batching.BatchesOf120` | Program.cs:70-72 | 120 new ids give three batches of sizes 50, 50 and 20 |
| `Reconcile.Stale` | Program.cs:62 | an order is removed only when it is new and its id is not listed; a processed order is never stale |
| `Reconcile.Pruned` | Program.cs:62 | an order survives pruning exactly when it is not a new order missing from the listing; processed orders always survive |
| `Reconcile.PrunedAppend` | Program.cs:62 | pruning distributes over concatenation, so survivors keep their relative order |
| `Reconcile.PrunedUnique` | Program.cs:62 | pruning a store with unique ids leaves unique ids |
| `Reconcile.NewIds` | Program.cs:65 | an id is new exactly when it is listed and no stored order has it |
| `Reconcile.NewIdsAppend` | Program.cs:65 | the new ids keep the listing's order |
| `Reconcile.NewIdsDistinct` | Program.cs:65 | a listing without repeated ids gives new ids without repeats |
| `Reconcile.LiveIds` | Program.cs:55-60 | an unreadable listing throws; one without `response.order_list` gives no ids; otherwise the ids are the entries' `order_sn` in order, and a missing one throws |
| `Reconcile.ListingUsed` | Program.cs:48-51 | the pass reads the first listing unless it mentions `error_auth`, and then the retried one |
| `Reconcile.ListingCalls` | Program.cs:46-53 | the pass first lists the 15-day window ending now; it refreshes exactly when that listing mentions `error_auth`, and lists a second time exactly when the refresh succeeds |
| `Reconcile.RunFrom` | Program.cs:67-105 | the batch loop makes no call exactly when there is no id left, makes at least one call before it throws, and never shrinks the store |
| `Reconcile.RunFromCalls` | Program.cs:70-73 | the batch loop makes only detail calls, for its batches in order: all of them when it runs to the end, a non-empty prefix when it throws |
| `Reconcile.RunFromStops` | Program.cs:70-101 | no sent batch but the last got a reply that throws, and the loop reports a throw exactly when the reply to the last sent batch throws, so it stops at the first throwing reply |
| `Reconcile.RunFromAdded` | Program.cs:70-101 | the batch loop adds exactly the orders built from the replies to the batches it sent, in sending order, after the store it started from |
| `Reconcile.RunFromStore` | Program.cs:70-101 | the batch loop only appends, the appended orders are those built from the replies to the sent batches, and every one is new, unassigned, unselected, with picking fields at their defaults |
| `Reconcile.RunFromUnique` | Program.cs:70-101 | the batch loop keeps ids unique when the ids to fetch are distinct, not yet stored, and the replies are honest |
| `Reconcile.SyncSpec` | Program.cs:43-107 | every pass starts with its listing calls, and a failed refresh leaves the store as it was with no other call |
| `Reconcile.SyncAuthRetry` | Program.cs:46-53 | an auth error causes exactly one refresh; at most two listing calls, both over the 15-day window; two exactly when the refresh succeeds; a failed refresh leaves the store untouched and fetches nothing |
| `Reconcile.SyncListingThrows` | Program.cs:55-60 | a listing reply that cannot be read ends the pass with the store untouched and nothing fetched |
| `Reconcile.SyncAfterListingStore` | Program.cs:55-101 | after a pass the survivors of pruning come first, unchanged and in order, followed only by freshly synced orders, which are those built from the replies to the detail calls |
| `Reconcile.SyncStops` | Program.cs:55-105 | once the refresh did not fail, a pass ends in an exception exactly when the listing cannot be read or the reply to the last batch it sent throws, and completes otherwise; no earlier batch got a throwing reply |
| `Reconcile.SyncStoresReplies` | Program.cs:62-101 | the store after a pass is the survivors of pruning followed by exactly the orders built from the replies to the detail calls the pass made, in call order |
| `Reconcile.SyncAfterListingCalls` | Program.cs:62-73 | the detail calls are the batches of the new ids computed after pruning, all of them when the pass completes; with no new id nothing is fetched or added |
| `Reconcile.SyncKeepsProcessed` | Program.cs:62 | a processed order is never removed by a pass, whatever the marketplace answers |
| `Reconcile.SyncKeepsKnownStatus` | Program.cs:62-100 | a pass writes no status other than 0 and 1 |
| `Reconcile.SyncEmptyListing` | Program.cs:55-62 | a listing reply without an order list removes every new order and keeps every processed one |
| `Reconcile.SyncUniqueNewIds` | Program.cs:62-100 | ids stay unique across a pass when the new ids fetched after pruning are distinct and every detail reply carries only requested ids, each once |
| `Reconcile.SyncUnique` | Program.cs:62-100 | the same when the listing repeats no id, which makes the new ids distinct |
| `Commands.FirstIndex` | Program.cs:145 | the position of the first order with the id, and None exactly when no order has it |
| `Commands.Assigned` | Program.cs:145 | assign keeps the number of orders |
| `Commands.Shipped` | Program.cs:151 | ship keeps the number of orders |
| `Commands.AssignedFrame` | Program.cs:145 | assign sets the assignee of the first order with the id, changes nothing else, and is a no-op for an absent id |
| `Commands.ShippedFrame` | Program.cs:151 | ship sets the status of the first order with the id to processed, changes nothing else, and is a no-op for an absent id |
| `Commands.ShipIdempotent` | Program.cs:151 | shipping twice gives the same store as shipping once |
| `Commands.AssignLastWins` | Program.cs:145 | of two assignments to the same id, the later one wins |
| `Commands.CommandsKeepUniqueIds` | Program.cs:142-153 | the commands keep the ids, so they keep ids unique |
| `Store.OrderStore.constructor` | Program.cs:18 | the store starts empty |
| `Store.OrderStore.RemoveStale` | Program.cs:62 | the lock block replaces the store by its pruned version and keeps every status known |
| `Store.OrderStore.NewIdsNow` | Program.cs:65 | the lock block reads the listed ids that no stored order has, in listing order, and changes nothing |
| `Store.OrderStore.AppendBatch` | Program.cs:78-102 | the lock block appends the orders of a reply up to the first record that throws, and reports the throw |
| `Store.OrderStore.SendBatch` | Program.cs:73-104 | one loop turn leaves the store as the reply to the batch dictates and reports a failure exactly when reading that reply throws |
| `Store.OrderStore.RunBatches` | Program.cs:67-106 | the batch loop leaves the store and the detail calls the batch-loop definition gives |
| `Store.OrderStore.Sync` | Program.cs:43-107 | one pass leaves the store, the call trace and the outcome that the pass definition gives |
| `Store.OrderStore.Assign` | Program.cs:142-147 | the store after `/api/assign` is the assign definition applied to the old store |
| `Store.OrderStore.Ship` | Program.cs:148-153 | the store after `/api/ship` is the ship definition applied to the old store |
| `Product.StockOf` | Program.cs:183-187 | stock is the v2 summary total if the summary exists, else the first legacy normal stock if the legacy list exists, else 0; an empty legacy list throws |
| `Product.StockSources` | Program.cs:183-187 | legacy stock is never read when the v2 summary exists, and only its first entry is read |
| `Product.VariationOf` | Program.cs:183-194 | a variation is read exactly when the model has a name and a stock by the stock rule; it carries that name, that stock and the item's first image |
| `Product.VariationsOf` | Program.cs:180-195 | one variation per model in model order, and a throw exactly when some model's variation throws |
| `Product.ProductSpec` | Program.cs:165-199 | the lookup does not throw exactly when the reply is readable and, if it lists an item, the first item has a name and a non-empty image list and every one of its models (if it has a model list) gives a variation; a reply with `success` false has an empty name and no variations; one with `success` true carries the first listed item's name |
| `Product.ReadVariations` | Program.cs:178-196 | the model loop gives one variation per model in order, or throws if any model does |
| `Product.LookupProduct` | Program.cs:159-201 | the lookup writes the reply the product definition gives, or nothing when reading the reply throws |
| `Product.ProductSpecShape` | Program.cs:165-197 | for a lookup that does not throw: `success` exactly when the reply lists an item; then the name is the first item's and each variation carries its model's name, its stock by the stock rule and the item's first image; otherwise name and variations are empty |

## Left out

- HTTP transport: the `HttpListener` setup, the request loop, routing on the path, response writing, opening a browser and the HTML page (Program.cs:109-135, 200-206) are not modelled.
- `/api/data` (Program.cs:136-141) serialises the store to JSON; serialisation is a library, and the store's `orders` field is the snapshot it writes.
- The marketplace client (`GetOrderList`, `GetOrderDetails`, `RefreshTokenNow`, `GetItemBaseInfo`) is not part of this model; its replies are the inputs of the `Remote` datatype and of `LookupProduct`.
- JSON parsing is replaced by typed replies. A JSON null in a string property other than `model_sku`, a value of the wrong kind, and an integer out of range are not distinguished from a missing property or not modelled.
- The comma-joined id string of a detail request (Program.cs:72) is kept as the sequence of ids.
- The polling task, its one-minute delay, async/await and the lock object (Program.cs:32-38) are not modelled. Each lock block is one method run without interruption. A staff command that runs between the lock blocks of one pass is not modelled.
- The clock (Program.cs:46) is the `now` parameter; the two clock reads of that line are taken as one.
- Console logging and the start-up token check in `Main` are not modelled.
- `/api/product` id parsing (`long.TryParse`, Program.cs:159) is not modelled; the lookup starts from the marketplace's reply.
- A missing `id` or `user` query parameter of the commands is not modelled; both are strings.
- SyncSpec: the token refresh (Program.cs:51) is a boolean input, so a refresh that throws, which ends the pass by exception at Program.cs:35, is reported as `AuthAborted` and not `Threw`; store and calls are the same either way.
- RunFrom: the detail reply is a function of the batch, so two identical batches, which can occur only when the listing repeats ids, receive the same reply.
- Orders are values: the C# list holds references, but no reference escapes the lock blocks, so updating the element in place is the same.
