# Shipment reconciliation, modelled in Dafny

This project models the shipment side of an order-management service's Postgres
storage layer (`storage/shipment_storage.go`). An order has committed line items
and a status. A shipment is proposed against an order. Either it clears the
order's outstanding due backlog, or it fulfils part of the committed quantities
and records what remains due. Everything happens in one database transaction.

The tables the code touches are fields of the class
`ShipmentStorage.PostgresStorage`:

- `orders`: order ID to `order_status`, `None` where the column is NULL.
- `orderItems`: item ID to its row (owning order, name, committed quantity).
- `due`: (order ID, item ID) to the quantity still due (the `due_orders` table).
- `shipments`: shipment ID to its row.

`HandleShipment` follows the source step by step: look up the order, scan its
items, then run one of the two modes with the source's loops. It writes into a
transaction-local copy of the due ledger. The tables are assigned only at the
commit point. An early `return` with an error therefore leaves every table as it
was, which is what the deferred rollback does. Its contract equates the outcome
and the new tables with the pure function `Reconciliation.Reconcile`. The lemmas
in `ReconciliationProperties` state what that function guarantees, in terms of
the tables themselves.

Files:

- `models.dfy`: the datatypes, the status strings and the errors.
- `reconciliation.dfy`: the engine as functions, plus `FreshLedgerAt`, which
  describes every due row after the fresh-mode upserts.
- `shipment_storage.dfy`: the storage class and its methods, plus `ParseShipments`.
- `properties.dfy`: the engine's properties.
- `scenarios.dfy`: a client that walks through partial shipment, due clearance,
  the rejections and deletion, using only the methods' contracts.

Behaviour of the code that a reader might not expect, modelled as written:

- The status is written as `"shipped and due"`. The comment on the order model
  (`models/order.go:10`) says `"shipped but due"`.
- `HandleShipment` inserts no shipment row, and the shipment's ID and date are
  not used.
- Fresh mode decides the status from the lines of the proposal only. Committed
  items the proposal does not name never make the order due
  (`FreshStatusIgnoresRestOfOrder`).
- Fresh mode never deletes a due row. A line with no remainder leaves an
  existing row as it was, so an order can be `"shipped"` while rows remain due.
  The shipment operations keep the other direction: if every `"shipped and due"`
  order has a due row before, it has one after. This is the storage class's
  `Valid()`, which `HandleShipment` and `DeleteShipment` preserve
  (`ReconcileKeepsDueStatusBacked`). It is not established by the tables alone.
  The order-status endpoint (`UpdateOrderStatusHandler`, which is not part of
  this model) can write `"shipped and due"` on an order with no due row.
- Quantities are not checked for being positive. A negative quantity records a
  due quantity above the committed one (`NegativeQuantityInflatesDue`). The
  bound `0 < due <= committed` is proved to be kept by every due clearance, and
  by every fresh shipment with no negative line (`ReconcileKeepsLedgerBounded`).
- Shipped plus outstanding due can exceed the committed quantity. Fresh mode
  checks each line only against the committed quantity, and the upsert
  overwrites the due row. Shipping 6 of an item with 10 committed leaves 4 due.
  Shipping 6 again is accepted and leaves 4 due again, so 12 have shipped and 4
  are still due (`RepeatedFreshShipmentsExceedCommitted`).
- A proposal may name an item twice. The upserts run in list order, so the last
  line of that item with a remainder decides its due row (`FreshDueRows`).
- The status scan of step 1 reads `order_status` into a Go `string`, so a NULL
  status fails the scan. `HandleShipment` then rejects an order that exists with
  the same invalid-order error as an order with no row (`OrderLookupRejected`).
  The order insert (storage/order_storage.go:6-8) does not write
  `order_status`, and the migrations' `orders` table has no such column. A new
  order's status is therefore NULL unless the schema, which is not part of this
  model, gives the column a default.
- A due clearance that names only some of the order's due items still deletes
  all of the order's due rows. The quantities still due on the unnamed items are
  lost, and the order is marked `"shipped"` (`PartialDueClearanceDropsRest`).
- `DeleteShipment` resets the order to `"pending"` and leaves the due ledger
  as it is. If the order row is missing, its `UPDATE` matches nothing and
  changes nothing (`MarkPending`).

## Model

| member | source | states |
|---|---|---|
| `ShipmentStorage.PostgresStorage.HandleShipment` | storage/shipment_storage.go:12-164 | On error it writes nothing: status, due ledger, items and shipments are unchanged. On success the order's status and the due ledger are what `Reconcile` gives, and items and shipments are unchanged. It preserves `Valid()`: every "shipped and due" order has a due row. |
| `ShipmentStorage.PostgresStorage.LoadOrderItems` | storage/shipment_storage.go:31-51 | The scan returns exactly the committed quantity of every item of the order, keyed by item ID. |
| `ShipmentStorage.PostgresStorage.LoadDueItems` | storage/shipment_storage.go:62-82 | The scan returns exactly the order's due rows, keyed by item ID. |
| `ShipmentStorage.PostgresStorage.MatchDueItems` | storage/shipment_storage.go:84-91 | The validation loop reports the first line with no due entry or a different quantity, and reports nothing when every line matches. |
| `ShipmentStorage.PostgresStorage.UpsertDueItems` | storage/shipment_storage.go:105-141 | The fresh-mode loop fails with the first unknown or over-shipped line. Otherwise it returns the ledger after the left-to-right upserts and the status derived from the proposal's remainders. |
| `ShipmentStorage.PostgresStorage.DeleteShipment` | storage/shipment_storage.go:212-239 | An unknown shipment ID yields a not-found error and changes nothing. Otherwise the shipment row is removed, its order is set to pending, and the due ledger and items are untouched. It preserves `Valid()`. |
| `ShipmentStorage.MarkPending` | storage/shipment_storage.go:231-233 | The status update sets the order to pending when the order exists, keeps every other order's status, and adds no order. |
| `ShipmentStorage.PostgresStorage.GetDueItems` | storage/shipment_storage.go:305-327 | Changes nothing. Returns exactly the due entries of the order: each with the ledger's quantity, every one present, no item twice. |
| `ShipmentStorage.ParseShipments` | storage/shipment_storage.go:273-303 | Succeeds exactly when every non-NULL items column decodes. Then it returns one shipment per row, in row order, with a NULL column read as the empty list. Otherwise it returns the decode error. |
| `Reconciliation.Reconcile` | storage/shipment_storage.go:12-164 | The engine as a function of the tables: the error the transaction rolls back with, or the status and due ledger it commits. It has no contract of its own. Its properties are the `ReconciliationProperties` lemmas, and `HandleShipment` is proved to agree with it. |
| `Reconciliation.CommittedOf` | storage/shipment_storage.go:31-51 | The order-items query's map: an item ID is a key exactly when the item belongs to the order, and it maps to the item's committed quantity. |
| `Reconciliation.DueItemsOf` | storage/shipment_storage.go:62-82 | The due-items query's map: an item ID is a key exactly when the order has a due row for it, and it maps to that row's quantity. |
| `Reconciliation.FreshLedger` | storage/shipment_storage.go:119-133 | The due ledger after the upsert loop, run left to right. It has no contract of its own. What it leaves in every row is `FreshLedgerAt`, and `UpsertDueItems` is proved to compute it. |
| `Reconciliation.FreshStatus` | storage/shipment_storage.go:136-141 | The status fresh mode writes: "shipped and due" when some line left a remainder, otherwise "shipped". It has no contract of its own. `FreshOutcome` states both directions over the tables. |
| `Reconciliation.ClearOrder` | storage/shipment_storage.go:93-101 | Deleting an order's due rows removes exactly the rows of that order and keeps every other row with its value. |
| `Reconciliation.FirstDueMismatch` | storage/shipment_storage.go:85-91 | Returns the index of the first line that does not match its due entry, every earlier line matching. Returns none exactly when all lines match. |
| `Reconciliation.FirstFreshViolation` | storage/shipment_storage.go:108-117 | Returns the index of the first line whose item is unknown or whose quantity exceeds the committed one, every earlier line being accepted. Returns none exactly when all lines are accepted. |
| `Reconciliation.LastUpsertExists` | storage/shipment_storage.go:119-128 | A line that leaves a remainder is followed, at or after it, by the last line that upserts the same due row. |
| `Reconciliation.FreshLedgerAt` | storage/shipment_storage.go:119-133 | After the upserts, a row no line upserts keeps its presence and value. An upserted row holds the remainder of the last line that upserts it. |
| `ReconciliationProperties.OrderLookupRejected` | storage/shipment_storage.go:21-27 | A shipment fails with the invalid-order error exactly when its order has no row or a NULL status. No later step reports that error. |
| `ReconciliationProperties.DueClearanceOutcome` | storage/shipment_storage.go:54-104 | Due clearance needs status "shipped and due". It then succeeds iff every line matches its due row, and otherwise names the first line that does not. On success the order's due rows are gone, other rows are unchanged, and the status is "shipped". |
| `ReconciliationProperties.EmptyDueClearanceClearsOrder` | storage/shipment_storage.go:85-104 | A due clearance with no lines, on an order that is "shipped and due", clears the order's whole due backlog and marks it shipped. |
| `ReconciliationProperties.SecondDueClearanceRejected` | storage/shipment_storage.go:54-59 | Right after a successful due clearance, another due clearance of the same order fails with the status mismatch. |
| `ReconciliationProperties.FreshOutcome` | storage/shipment_storage.go:105-142 | Fresh mode succeeds iff every line names an item of the order and ships at most its committed quantity. Otherwise it names the first failing line with the right error. On success the status is "shipped and due" iff some line left a remainder, and "shipped" iff none did. |
| `ReconciliationProperties.FreshDueRows` | storage/shipment_storage.go:119-133 | After fresh mode, a due row that no line upserts is exactly as before, including other orders' rows and rows of lines with no remainder. An upserted row holds the last upserting line's remainder, replacing any earlier value. |
| `ReconciliationProperties.FreshDueRowsDistinct` | storage/shipment_storage.go:119-128 | When the proposal names each item once, every line with a remainder sets its due row to exactly committed minus shipped. |
| `ReconciliationProperties.FreshLedgerBounded` | storage/shipment_storage.go:119-133 | With no negative quantities, the upserts keep every due row positive, keep it at most its item's committed quantity, and keep it on an item of its own order. |
| `ReconciliationProperties.ReconcileKeepsLedgerBounded` | storage/shipment_storage.go:54-142 | A committed due clearance, whatever its quantities, and a committed fresh shipment with no negative quantity keep the due ledger within the committed quantities. |
| `ReconciliationProperties.ShippedAndDueLeavesDueRow` | storage/shipment_storage.go:119-141 | A committed shipment that marks its order "shipped and due" leaves that order at least one due row. |
| `ReconciliationProperties.ReconcileKeepsDueStatusBacked` | storage/shipment_storage.go:54-142 | If every "shipped and due" order has a due row before a committed shipment of either mode, the same holds after it, for its own order and for every other one. |
| `ReconciliationProperties.NegativeQuantityInflatesDue` | storage/shipment_storage.go:114-128 | Shipping -3 of an item with 10 committed succeeds and records 13 as due, because quantities are not checked for being positive. |
| `ReconciliationProperties.RepeatedFreshShipmentsExceedCommitted` | storage/shipment_storage.go:114-128 | Shipping 6 of an item with 10 committed leaves 4 due. A second identical fresh shipment on the resulting tables is accepted with the same effect, so 12 ship against 10 committed while 4 are still due. |
| `ReconciliationProperties.PartialDueClearanceDropsRest` | storage/shipment_storage.go:84-104 | Clearing 4 of item 1, on an order that also has 3 due on item 2, succeeds. It deletes both due rows and marks the order "shipped". |
| `ReconciliationProperties.FreshStatusIgnoresRestOfOrder` | storage/shipment_storage.go:136-141 | A fresh shipment that fully ships one item is marked "shipped", even though another item was never shipped and still has a due row. |

## Left out

- Infrastructure failures are not modelled: failing to begin, query, scan,
  execute, iterate rows or commit. Failing to begin, query, scan, execute or
  commit returns an error, and in `HandleShipment` it rolls back like the
  business errors that are modelled.
- Row-iteration failures are not modelled. The two scans in `HandleShipment`
  (storage/shipment_storage.go:44-51 and :75-82) and the scan in `GetDueItems`
  (:318-324) never check the iteration error, so a failed iteration silently
  truncates the loaded rows. In `HandleShipment` that can surface as
  `UnknownItem` or `DueQuantityMismatch`, and `GetDueItems` then returns a
  partial list with no error. Only the shipment parser checks it
  (:298-300) and returns an error. The model's scans always see every row.
- Logging and the text of error messages. Errors are constructors that carry the
  ID the failing step looked up.
- JSON decoding of a shipment's items column. It is the parameter `decode` of
  `ParseShipments`, a function that may fail.
- The order in which SQL returns rows. The scans pick rows in any order;
  `GetDueItems` promises its contents, not its order.
- Concurrency between shipments on one order. Also, `DeleteShipment` runs its
  two statements outside a transaction. Each operation is one sequential step.
- Go's 64-bit `int`: quantities are unbounded integers, so the subtraction
  `committed - shipped` never wraps. It could only wrap for quantities near 2^63.
- Item name, size, colour and price: they take no part in reconciliation.
- `GetAllShipments`, `GetCompletedShipments`, `GetShippedButPendingShipments`
  and `GetShipmentByName`: single SQL queries and joins with no logic of their
  own beyond `ParseShipments`.
- The HTTP handlers, authentication, customer and order storage, the Excel
  export (foreign library, floating-point totals), and the schema migrations.
  The migrations do not create the `order_items` and `due_orders` tables that
  this code queries; the model assumes they exist.
