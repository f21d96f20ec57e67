/** A client of the storage class: the fulfillment scenarios of the order tracker,
    followed through the contracts of HandleShipment and DeleteShipment alone. */
module Scenarios {
  import opened Models
  import opened Reconciliation
  import opened ShipmentStorage

  /** One order (7) with one item (10) of committed quantity 10, and one with a
      single item (20) of committed quantity 5. */
  const Items: map<int, OrderItem> := map[10 := OrderItem(7, "shirt", 10), 20 := OrderItem(8, "cap", 5)]

  // The scenarios all use these two projections of the items table.
  lemma CommittedOfItems()
    ensures CommittedOf(Items, 7) == map[10 := 10]
    ensures CommittedOf(Items, 8) == map[20 := 5]
  {
  }

  method PartialThenClearance()
  {
    CommittedOfItems();
    var store := new PostgresStorage(map[7 := Some(Pending), 8 := Some(Pending)], Items, map[],
                                     map[100 := StoredShipment("2024-05-01", 7, None, false)]);

    // A fresh shipment of 6 out of 10 leaves 4 due.
    var outcome := store.HandleShipment(Shipment(100, "2024-05-01", 7, [Item(10, 6)], false));
    assert outcome == Pass;
    assert store.due == map[(7, 10) := 4];
    assert store.orders[7] == Some(ShippedAndDue);

    // Clearing 3 of the 4 due is rejected and changes nothing.
    outcome := store.HandleShipment(Shipment(101, "2024-05-02", 7, [Item(10, 3)], true));
    assert DueItemsOf(map[(7, 10) := 4], 7) == map[10 := 4];
    assert outcome == Fail(DueQuantityMismatch(10));
    assert store.due == map[(7, 10) := 4] && store.orders[7] == Some(ShippedAndDue);

    // Clearing exactly the 4 due deletes the row and marks the order shipped.
    outcome := store.HandleShipment(Shipment(101, "2024-05-02", 7, [Item(10, 4)], true));
    assert outcome == Pass;
    assert store.due == map[] by {
      assert ClearOrder(map[(7, 10) := 4], 7).Keys == {};
    }
    assert store.orders[7] == Some(Shipped);

    // A second clearance is rejected: the order is no longer "shipped and due".
    outcome := store.HandleShipment(Shipment(102, "2024-05-03", 7, [Item(10, 4)], true));
    assert outcome == Fail(StatusMismatch);

    // Deleting the first shipment resets the order to pending and restores no due row.
    outcome := store.DeleteShipment(100);
    assert outcome == Pass;
    assert store.orders[7] == Some(Pending) && store.due == map[];
    outcome := store.DeleteShipment(100);
    assert outcome == Fail(ShipmentNotFound(100));
  }

  method Rejections()
  {
    CommittedOfItems();
    var store := new PostgresStorage(map[6 := None, 7 := Some(Pending), 8 := Some(Pending)], Items, map[], map[]);

    // Shipping 7 of an item with 5 committed is rejected and writes nothing.
    var outcome := store.HandleShipment(Shipment(1, "2024-05-01", 8, [Item(20, 7)], false));
    assert outcome == Fail(ExceedsOrderQuantity(20));
    assert store.due == map[] && store.orders[8] == Some(Pending);

    // An item of another order is unknown to this one.
    outcome := store.HandleShipment(Shipment(1, "2024-05-01", 8, [Item(20, 1), Item(10, 1)], false));
    assert outcome == Fail(UnknownItem(10));
    assert store.due == map[] && store.orders[8] == Some(Pending);

    // Due clearance on a pending order is rejected.
    outcome := store.HandleShipment(Shipment(1, "2024-05-01", 8, [Item(20, 5)], true));
    assert outcome == Fail(StatusMismatch);

    // An order that does not exist is rejected.
    outcome := store.HandleShipment(Shipment(1, "2024-05-01", 9, [], false));
    assert outcome == Fail(InvalidOrderId(9));

    // So is an order whose status column is NULL.
    outcome := store.HandleShipment(Shipment(1, "2024-05-01", 6, [], false));
    assert outcome == Fail(InvalidOrderId(6));
  }
}
