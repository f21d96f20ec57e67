/** The shipment operations of the Postgres storage layer over the four tables
    they touch. A table is a map from its primary key to its row; an operation
    that runs in a transaction works on local copies and writes the tables back
    only when it commits, so every early return is a rollback. The class invariant
    `Valid()` is the predicate `DueStatusBacked`, and its preservation is the lemma
    `ReconcileKeepsDueStatusBacked` about the engine; both live with the engine's
    other properties, which is why this module imports them. */
module ShipmentStorage {
  import opened Models
  import opened Reconciliation
  import opened ReconciliationProperties

  /** The orders table after the statement that sets order `o` to "pending". The
      UPDATE matches no row when the order does not exist, and then changes nothing. */
  function MarkPending(orders: map<int, Option<string>>, o: int): (r: map<int, Option<string>>)
    ensures r.Keys == orders.Keys
    ensures o in orders ==> r[o] == Some(Pending)
    ensures forall o' :: o' in orders && o' != o ==> r[o'] == orders[o']
  {
    if o in orders then orders[o := Some(Pending)] else orders
  }

  /** The items of a stored shipment: a NULL column reads as the empty list, JSON
      text is handed to `decode`, which fails on malformed text. */
  function ItemsOf(row: StoredShipment, decode: string -> Option<seq<Item>>): Option<seq<Item>>
  {
    match row.items
    case None => Some([])
    case Some(text) => decode(text)
  }

  class PostgresStorage {
    /** orders: order ID to order_status, None where the column is NULL */
    var orders: map<int, Option<string>>
    /** order_items: item ID to its row (owning order, name, committed quantity) */
    var orderItems: map<int, OrderItem>
    /** due_orders: (order ID, item ID) to the quantity still due */
    var due: map<(int, int), int>
    /** shipments: shipment ID to its row */
    var shipments: map<int, StoredShipment>

    /** The invariant the shipment operations keep: every order whose status is
        "shipped and due" has at least one due row. */
    ghost predicate Valid()
      reads this
    {
      DueStatusBacked(orders, due)
    }

    constructor (orders: map<int, Option<string>>, orderItems: map<int, OrderItem>,
                 due: map<(int, int), int>, shipments: map<int, StoredShipment>)
      ensures this.orders == orders && this.orderItems == orderItems
      ensures this.due == due && this.shipments == shipments
    {
      this.orders := orders;
      this.orderItems := orderItems;
      this.due := due;
      this.shipments := shipments;
    }

    /** Scans the items of order `o` into a map from item ID to committed quantity. */
    method LoadOrderItems(o: int) returns (committed: map<int, int>)
      ensures committed == CommittedOf(orderItems, o)
    {
      committed := map[];
      var rest := orderItems.Items;
      while rest != {}
        invariant rest <= orderItems.Items
        invariant forall id :: id in committed <==> id in orderItems && (id, orderItems[id]) !in rest && orderItems[id].orderId == o
        invariant forall id :: id in committed ==> committed[id] == orderItems[id].quantity
        decreases rest
      {
        var row :| row in rest;
        var (itemId, item) := row;
        if item.orderId == o {
          committed := committed[itemId := item.quantity];
        }
        rest := rest - {row};
      }
      var spec := CommittedOf(orderItems, o);
      assert forall id :: id in committed <==> id in spec;
      assert forall id :: id in spec ==> committed[id] == spec[id];
    }

    /** Scans the due rows of order `o` into a map from item ID to due quantity. */
    method LoadDueItems(o: int) returns (dueItems: map<int, int>)
      ensures dueItems == DueItemsOf(due, o)
    {
      dueItems := map[];
      var rest := due.Keys;
      while rest != {}
        invariant rest <= due.Keys
        invariant forall id :: id in dueItems <==> (o, id) in due && (o, id) !in rest
        invariant forall id :: id in dueItems ==> dueItems[id] == due[(o, id)]
        decreases rest
      {
        var k :| k in rest;
        if k.0 == o {
          dueItems := dueItems[k.1 := due[k]];
        }
        rest := rest - {k};
      }
      var spec := DueItemsOf(due, o);
      assert forall id :: id in dueItems <==> id in spec;
      assert forall id :: id in spec ==> dueItems[id] == spec[id];
    }

    /** Reconciles one shipment against its order in a single transaction. On an
        error nothing is written; on success the order's status and the due ledger
        are those `Reconcile` computes. No shipment row is inserted, and the
        items table is never written. */
    method HandleShipment(s: Shipment) returns (outcome: Outcome)
      modifies this`orders, this`due
      ensures orderItems == old(orderItems) && shipments == old(shipments)
      ensures match Reconcile(old(orders), old(orderItems), old(due), s)
        case Failure(e) => outcome == Fail(e) && orders == old(orders) && due == old(due)
        case Success(eff) => outcome == Pass && orders == old(orders)[s.orderId := Some(eff.status)] && due == eff.due
      ensures old(Valid()) ==> Valid()
    {
      if Valid() {
        ReconcileKeepsDueStatusBacked(orders, orderItems, due, s);
      }
      // Step 1: the order must exist and its status must scan into a string.
      if s.orderId !in orders || orders[s.orderId].None? {
        return Fail(InvalidOrderId(s.orderId));
      }
      var orderStatus := orders[s.orderId].value;

      // Step 2: the order's committed items.
      var committed := LoadOrderItems(s.orderId);

      // The transaction's view of the due ledger.
      var txDue := due;

      // Step 3: one of the two modes.
      if s.dueOrderType {
        if orderStatus != ShippedAndDue {
          return Fail(StatusMismatch);
        }
        var dueItems := LoadDueItems(s.orderId);
        var mismatch := MatchDueItems(s.items, dueItems);
        if mismatch.Some? {
          return Fail(mismatch.value);
        }
        txDue := ClearOrder(txDue, s.orderId);
        orderStatus := Shipped;
      } else {
        var applied := UpsertDueItems(s.orderId, s.items, committed, txDue);
        if applied.Failure? {
          return Fail(applied.error);
        }
        orderStatus, txDue := applied.value.status, applied.value.due;
      }

      // Step 4 and commit: the status and the due ledger are written together.
      orders := orders[s.orderId := Some(orderStatus)];
      due := txDue;
      return Pass;
    }

    /** Due-clearance validation: every shipped line must match its due entry
        exactly; the error names the first line that does not. */
    static method MatchDueItems(items: seq<Item>, dueItems: map<int, int>) returns (err: Option<Error>)
      ensures match FirstDueMismatch(items, dueItems)
        case Some(j) => err == Some(DueQuantityMismatch(items[j].id))
        case None => err == None
    {
      var i := 0;
      while i < |items|
        invariant 0 <= i <= |items|
        invariant forall j :: 0 <= j < i ==> MatchesDue(items[j], dueItems)
      {
        var shipped := items[i];
        if shipped.id !in dueItems || shipped.quantity != dueItems[shipped.id] {
          assert FirstDueMismatch(items, dueItems) == Some(i);
          return Some(DueQuantityMismatch(shipped.id));
        }
        i := i + 1;
      }
      return None;
    }

    /** Fresh fulfillment inside the transaction: validates each line against the
        committed quantities, upserts the remainder of each line into `txDue`, and
        derives the status, stopping at the first rejected line. */
    static method UpsertDueItems(o: int, items: seq<Item>, committed: map<int, int>, txDue: map<(int, int), int>)
      returns (r: Result<Effect>)
      ensures match FirstFreshViolation(items, committed)
        case Some(j) => r == Failure(FreshError(items[j], committed))
        case None => r == Success(Effect(FreshStatus(items, committed), FreshLedger(txDue, o, items, committed)))
    {
      var ledger := txDue;
      var hasDueItems := false;
      var i := 0;
      while i < |items|
        invariant 0 <= i <= |items|
        invariant forall j :: 0 <= j < i ==> !FreshViolation(items[j], committed)
        invariant FreshLedger(ledger, o, items[i..], committed) == FreshLedger(txDue, o, items, committed)
        invariant hasDueItems <==> exists j :: 0 <= j < i && Upserts(items[j], committed)
      {
        var shipped := items[i];
        if shipped.id !in committed {
          assert FirstFreshViolation(items, committed) == Some(i);
          return Failure(UnknownItem(shipped.id));
        }
        if shipped.quantity > committed[shipped.id] {
          assert FirstFreshViolation(items, committed) == Some(i);
          return Failure(ExceedsOrderQuantity(shipped.id));
        }
        assert items[i..][0] == shipped && items[i..][1..] == items[i + 1..];
        var dueQuantity := committed[shipped.id] - shipped.quantity;
        if dueQuantity > 0 {
          hasDueItems := true;
          ledger := ledger[(o, shipped.id) := dueQuantity];
        }
        i := i + 1;
      }
      assert items[i..] == [];
      var orderStatus := if hasDueItems then ShippedAndDue else Shipped;
      return Success(Effect(orderStatus, ledger));
    }

    /** Deletes a shipment and resets its order to "pending". The due ledger is
        not restored. */
    method DeleteShipment(shipmentId: int) returns (outcome: Outcome)
      modifies this`shipments, this`orders
      ensures shipmentId !in old(shipments) ==>
        outcome == Fail(ShipmentNotFound(shipmentId)) && shipments == old(shipments) && orders == old(orders)
      ensures shipmentId in old(shipments) ==>
        && outcome == Pass
        && shipments == old(shipments) - {shipmentId}
        && orders == MarkPending(old(orders), old(shipments)[shipmentId].orderId)
      ensures due == old(due) && orderItems == old(orderItems)
      ensures old(Valid()) ==> Valid()
    {
      // Step 1: the owning order.
      if shipmentId !in shipments {
        return Fail(ShipmentNotFound(shipmentId));
      }
      var orderId := shipments[shipmentId].orderId;
      // Step 2: delete the shipment row.
      shipments := shipments - {shipmentId};
      // Step 3: revert the order's status.
      orders := MarkPending(orders, orderId);
      return Pass;
    }

    /** The due rows of order `o`, one entry per item, in no particular order. */
    method GetDueItems(o: int) returns (r: seq<DueItem>)
      ensures forall e :: e in r ==> (o, e.itemId) in due && due[(o, e.itemId)] == e.quantity
      ensures forall k :: k in due && k.0 == o ==> DueItem(k.1, due[k]) in r
      ensures forall a, b :: 0 <= a < b < |r| ==> r[a].itemId != r[b].itemId
    {
      r := [];
      var rest := due.Keys;
      while rest != {}
        invariant rest <= due.Keys
        invariant forall e :: e in r ==> (o, e.itemId) in due && (o, e.itemId) !in rest && due[(o, e.itemId)] == e.quantity
        invariant forall k :: k in due && k !in rest && k.0 == o ==> DueItem(k.1, due[k]) in r
        invariant forall a, b :: 0 <= a < b < |r| ==> r[a].itemId != r[b].itemId
        decreases rest
      {
        var k :| k in rest;
        if k.0 == o {
          r := r + [DueItem(k.1, due[k])];
        }
        rest := rest - {k};
      }
    }
  }

  /** Turns scanned shipment rows, in scan order, into shipments. The first row
      whose items do not decode fails the whole call. */
  method ParseShipments(rows: seq<(int, StoredShipment)>, decode: string -> Option<seq<Item>>)
    returns (r: Result<seq<Shipment>>)
    ensures r.Success? <==> forall k :: 0 <= k < |rows| ==> ItemsOf(rows[k].1, decode).Some?
    ensures r.Failure? ==> r.error == ItemsDecodeFailed
    ensures r.Success? ==> |r.value| == |rows|
    ensures r.Success? ==> forall k :: 0 <= k < |rows| ==>
      var (id, row) := rows[k];
      r.value[k] == Shipment(id, row.shippedDate, row.orderId, ItemsOf(row, decode).value, row.dueOrderType)
  {
    var shipments: seq<Shipment> := [];
    var i := 0;
    while i < |rows|
      invariant 0 <= i <= |rows|
      invariant |shipments| == i
      invariant forall k :: 0 <= k < i ==> ItemsOf(rows[k].1, decode).Some?
      invariant forall k :: 0 <= k < i ==>
        shipments[k] == Shipment(rows[k].0, rows[k].1.shippedDate, rows[k].1.orderId, ItemsOf(rows[k].1, decode).value, rows[k].1.dueOrderType)
    {
      var (id, row) := rows[i];
      var items: seq<Item>;
      if row.items.Some? {
        var decoded := decode(row.items.value);
        if decoded.None? {
          return Failure(ItemsDecodeFailed);
        }
        items := decoded.value;
      } else {
        items := [];
      }
      shipments := shipments + [Shipment(id, row.shippedDate, row.orderId, items, row.dueOrderType)];
      i := i + 1;
    }
    return Success(shipments);
  }
}
