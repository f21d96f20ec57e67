/** What the reconciliation engine guarantees, stated over the tables themselves
    rather than over the maps it loads from them. */
module ReconciliationProperties {
  import opened Models
  import opened Reconciliation

  /** The due ledger holds a row (o, item) with exactly the quantity of `it`. */
  predicate MatchesLedger(due: map<(int, int), int>, o: int, it: Item)
  {
    (o, it.id) in due && due[(o, it.id)] == it.quantity
  }

  /** The item of `it` is one of order `o`'s items. */
  predicate OnOrder(orderItems: map<int, OrderItem>, o: int, it: Item)
  {
    it.id in orderItems && orderItems[it.id].orderId == o
  }

  /** Fresh mode accepts the line `it` of a shipment against order `o`. */
  predicate FreshAccepts(orderItems: map<int, OrderItem>, o: int, it: Item)
  {
    OnOrder(orderItems, o, it) && it.quantity <= orderItems[it.id].quantity
  }

  /** The line `it` ships less than order `o` committed for its item. */
  predicate LeavesRemainder(orderItems: map<int, OrderItem>, o: int, it: Item)
  {
    OnOrder(orderItems, o, it) && orderItems[it.id].quantity - it.quantity > 0
  }

  /** Step 1 rejects the shipment, before anything else is read, exactly when the
      order has no row or its status column is NULL; no later step reports this
      error. */
  lemma OrderLookupRejected(orders: map<int, Option<string>>, orderItems: map<int, OrderItem>, due: map<(int, int), int>, s: Shipment)
    ensures Reconcile(orders, orderItems, due, s) == Failure(InvalidOrderId(s.orderId)) <==>
      s.orderId !in orders || orders[s.orderId].None?
  {
  }

  /** Due clearance: it needs the status "shipped and due"; it then succeeds exactly
      when every line matches its due row, and otherwise names the first line that
      does not; on success every due row of the order is deleted, no other row
      changes, and the status becomes "shipped". */
  lemma DueClearanceOutcome(orders: map<int, Option<string>>, orderItems: map<int, OrderItem>, due: map<(int, int), int>, s: Shipment)
    requires s.orderId in orders && orders[s.orderId].Some? && s.dueOrderType
    ensures orders[s.orderId].value != ShippedAndDue ==> Reconcile(orders, orderItems, due, s) == Failure(StatusMismatch)
    ensures orders[s.orderId].value == ShippedAndDue ==>
      (Reconcile(orders, orderItems, due, s).Success? <==>
       forall j :: 0 <= j < |s.items| ==> MatchesLedger(due, s.orderId, s.items[j]))
    ensures var r := Reconcile(orders, orderItems, due, s);
      r.Failure? && orders[s.orderId].value == ShippedAndDue ==>
        exists j :: 0 <= j < |s.items| && r.error == DueQuantityMismatch(s.items[j].id)
          && !MatchesLedger(due, s.orderId, s.items[j])
          && forall j' :: 0 <= j' < j ==> MatchesLedger(due, s.orderId, s.items[j'])
    ensures var r := Reconcile(orders, orderItems, due, s);
      r.Success? ==>
        && r.value.status == Shipped
        && (forall k :: k in r.value.due <==> k in due && k.0 != s.orderId)
        && (forall k :: k in r.value.due ==> r.value.due[k] == due[k])
  {
  }

  /** Due clearance with no lines clears the whole due backlog of an order that is
      "shipped and due". */
  lemma EmptyDueClearanceClearsOrder(orders: map<int, Option<string>>, orderItems: map<int, OrderItem>, due: map<(int, int), int>, s: Shipment)
    requires s.orderId in orders && orders[s.orderId] == Some(ShippedAndDue)
    requires s.dueOrderType && s.items == []
    ensures Reconcile(orders, orderItems, due, s) == Success(Effect(Shipped, ClearOrder(due, s.orderId)))
  {
  }

  /** A second due clearance right after a successful one is rejected: the order
      is then "shipped", no longer "shipped and due". */
  lemma SecondDueClearanceRejected(orders: map<int, Option<string>>, orderItems: map<int, OrderItem>, due: map<(int, int), int>, s: Shipment, s': Shipment)
    requires s.dueOrderType && s'.dueOrderType && s'.orderId == s.orderId
    requires Reconcile(orders, orderItems, due, s).Success?
    ensures var eff := Reconcile(orders, orderItems, due, s).value;
      Reconcile(orders[s.orderId := Some(eff.status)], orderItems, eff.due, s') == Failure(StatusMismatch)
  {
  }

  /** Fresh fulfillment: it succeeds exactly when every line names an item of the
      order and ships no more than was committed, and otherwise names the first
      line that does not; on success the status is "shipped and due" exactly when
      some line of the proposal left a remainder, and "shipped" otherwise. */
  lemma FreshOutcome(orders: map<int, Option<string>>, orderItems: map<int, OrderItem>, due: map<(int, int), int>, s: Shipment)
    requires s.orderId in orders && orders[s.orderId].Some? && !s.dueOrderType
    ensures Reconcile(orders, orderItems, due, s).Success? <==>
      forall j :: 0 <= j < |s.items| ==> FreshAccepts(orderItems, s.orderId, s.items[j])
    ensures var r := Reconcile(orders, orderItems, due, s);
      r.Failure? ==>
        exists j :: 0 <= j < |s.items|
          && !FreshAccepts(orderItems, s.orderId, s.items[j])
          && (forall j' :: 0 <= j' < j ==> FreshAccepts(orderItems, s.orderId, s.items[j']))
          && r.error == (if OnOrder(orderItems, s.orderId, s.items[j]) then ExceedsOrderQuantity(s.items[j].id)
                         else UnknownItem(s.items[j].id))
    ensures var r := Reconcile(orders, orderItems, due, s);
      r.Success? ==>
        && (r.value.status == ShippedAndDue <==>
            exists j :: 0 <= j < |s.items| && LeavesRemainder(orderItems, s.orderId, s.items[j]))
        && (r.value.status == Shipped <==>
            forall j :: 0 <= j < |s.items| ==> !LeavesRemainder(orderItems, s.orderId, s.items[j]))
  {
  }

  /** Fresh fulfillment's due rows: a row that no line of the proposal upserts keeps
      its presence and value (in particular a line without remainder never deletes
      a row, and other orders' rows never change); an upserted row holds the
      remainder of the last line that upserts it, whatever it held before. */
  lemma FreshDueRows(orders: map<int, Option<string>>, orderItems: map<int, OrderItem>, due: map<(int, int), int>, s: Shipment)
    requires s.orderId in orders && orders[s.orderId].Some? && !s.dueOrderType
    requires Reconcile(orders, orderItems, due, s).Success?
    ensures var r := Reconcile(orders, orderItems, due, s).value.due;
      forall key :: !Touches(key, s.orderId, s.items, CommittedOf(orderItems, s.orderId)) ==>
        (key in r <==> key in due) && (key in due ==> r[key] == due[key])
    ensures var r := Reconcile(orders, orderItems, due, s).value.due;
      forall key, j :: LastUpsertOf(key, s.orderId, s.items, CommittedOf(orderItems, s.orderId), j) ==>
        key in r && r[key] == orderItems[s.items[j].id].quantity - s.items[j].quantity
  {
    var committed := CommittedOf(orderItems, s.orderId);
    forall key {
      FreshLedgerAt(due, s.orderId, s.items, committed, key);
    }
  }

  /** With distinct item IDs in the proposal, each line that leaves a remainder sets
      its due row to exactly that remainder. */
  lemma FreshDueRowsDistinct(orders: map<int, Option<string>>, orderItems: map<int, OrderItem>, due: map<(int, int), int>, s: Shipment)
    requires s.orderId in orders && orders[s.orderId].Some? && !s.dueOrderType
    requires Reconcile(orders, orderItems, due, s).Success?
    requires forall a, b :: 0 <= a < b < |s.items| ==> s.items[a].id != s.items[b].id
    ensures var r := Reconcile(orders, orderItems, due, s).value.due;
      forall j :: 0 <= j < |s.items| && LeavesRemainder(orderItems, s.orderId, s.items[j]) ==>
        (s.orderId, s.items[j].id) in r && r[(s.orderId, s.items[j].id)] == orderItems[s.items[j].id].quantity - s.items[j].quantity
  {
    var committed := CommittedOf(orderItems, s.orderId);
    forall j | 0 <= j < |s.items| && LeavesRemainder(orderItems, s.orderId, s.items[j])
      ensures LastUpsertOf((s.orderId, s.items[j].id), s.orderId, s.items, committed, j)
    {
    }
    FreshDueRows(orders, orderItems, due, s);
  }

  // ---------------------------------------------------------------------------
  // The bound on due quantities
  // ---------------------------------------------------------------------------

  /** Every due row names an item of its order and holds a positive quantity no
      larger than the committed one. */
  ghost predicate LedgerBounded(orderItems: map<int, OrderItem>, due: map<(int, int), int>)
  {
    forall k :: k in due ==>
      k.1 in orderItems && orderItems[k.1].orderId == k.0 && 0 < due[k] <= orderItems[k.1].quantity
  }

  lemma {:induction false} FreshLedgerBounded(orderItems: map<int, OrderItem>, due: map<(int, int), int>, o: int, items: seq<Item>)
    requires LedgerBounded(orderItems, due)
    requires forall j :: 0 <= j < |items| ==> items[j].quantity >= 0
    ensures LedgerBounded(orderItems, FreshLedger(due, o, items, CommittedOf(orderItems, o)))
    decreases |items|
  {
    if items != [] {
      var committed := CommittedOf(orderItems, o);
      var due' := Upsert(due, o, items[0], committed);
      assert LedgerBounded(orderItems, due');
      FreshLedgerBounded(orderItems, due', o, items[1..]);
    }
  }

  /** A committed due clearance, or a committed fresh shipment with no line of
      negative quantity, keeps every due row within the committed quantity of its
      item. */
  lemma ReconcileKeepsLedgerBounded(orders: map<int, Option<string>>, orderItems: map<int, OrderItem>, due: map<(int, int), int>, s: Shipment)
    requires LedgerBounded(orderItems, due)
    requires !s.dueOrderType ==> forall j :: 0 <= j < |s.items| ==> s.items[j].quantity >= 0
    requires Reconcile(orders, orderItems, due, s).Success?
    ensures LedgerBounded(orderItems, Reconcile(orders, orderItems, due, s).value.due)
  {
    if !s.dueOrderType {
      FreshLedgerBounded(orderItems, due, s.orderId, s.items);
    }
  }

  // ---------------------------------------------------------------------------
  // "Shipped and due" is backed by a due row
  // ---------------------------------------------------------------------------

  /** Every order whose status is "shipped and due" has at least one due row. The
      converse does not hold in general (`FreshStatusIgnoresRestOfOrder`). */
  ghost predicate DueStatusBacked(orders: map<int, Option<string>>, due: map<(int, int), int>)
  {
    forall o :: o in orders && orders[o] == Some(ShippedAndDue) ==> exists id :: (o, id) in due
  }

  /** A committed shipment that marks its order "shipped and due" leaves that
      order a due row: some line left a remainder, and the last line upserting
      that row wrote it. */
  lemma ShippedAndDueLeavesDueRow(orders: map<int, Option<string>>, orderItems: map<int, OrderItem>, due: map<(int, int), int>, s: Shipment)
    ensures var r := Reconcile(orders, orderItems, due, s);
      r.Success? && r.value.status == ShippedAndDue ==> exists id :: (s.orderId, id) in r.value.due
  {
    var r := Reconcile(orders, orderItems, due, s);
    if r.Success? && r.value.status == ShippedAndDue {
      var committed := CommittedOf(orderItems, s.orderId);
      assert AnyRemainder(s.items, committed);
      var j :| 0 <= j < |s.items| && Upserts(s.items[j], committed);
      var key := (s.orderId, s.items[j].id);
      LastUpsertExists(key, s.orderId, s.items, committed, j);
      FreshLedgerAt(due, s.orderId, s.items, committed, key);
      assert key in r.value.due;
    }
  }

  /** A committed shipment of either mode keeps every "shipped and due" order
      backed by a due row: its own order through `ShippedAndDueLeavesDueRow`, the
      other orders because neither mode touches their rows. */
  lemma ReconcileKeepsDueStatusBacked(orders: map<int, Option<string>>, orderItems: map<int, OrderItem>, due: map<(int, int), int>, s: Shipment)
    requires DueStatusBacked(orders, due)
    ensures var r := Reconcile(orders, orderItems, due, s);
      r.Success? ==> DueStatusBacked(orders[s.orderId := Some(r.value.status)], r.value.due)
  {
    var r := Reconcile(orders, orderItems, due, s);
    if r.Success? {
      var orders' := orders[s.orderId := Some(r.value.status)];
      ShippedAndDueLeavesDueRow(orders, orderItems, due, s);
      forall o | o in orders' && orders'[o] == Some(ShippedAndDue)
        ensures exists id :: (o, id) in r.value.due
      {
        if o != s.orderId {
          var id :| (o, id) in due;
          if !s.dueOrderType {
            FreshLedgerAt(due, s.orderId, s.items, CommittedOf(orderItems, s.orderId), (o, id));
          }
          assert (o, id) in r.value.due;
        }
      }
    }
  }

  // ---------------------------------------------------------------------------
  // Behaviour the code has that a reader might not expect
  // ---------------------------------------------------------------------------

  /** Quantities are not checked for being positive: shipping -3 of an item with
      10 committed records 13 as due. */
  lemma NegativeQuantityInflatesDue()
    ensures var orderItems := map[1 := OrderItem(7, "shirt", 10)];
      var s := Shipment(1, "2024-05-01", 7, [Item(1, -3)], false);
      Reconcile(map[7 := Some(Pending)], orderItems, map[], s) == Success(Effect(ShippedAndDue, map[(7, 1) := 13]))
  {
  }

  /** Fresh mode checks each line against the committed quantity alone and
      overwrites the due row, so shipped plus outstanding due is not bounded by
      the committed quantity: shipping 6 of 10 twice is accepted both times,
      12 ship in total and 4 are still due. */
  lemma RepeatedFreshShipmentsExceedCommitted()
    ensures var orderItems := map[1 := OrderItem(7, "shirt", 10)];
      var s := Shipment(1, "2024-05-01", 7, [Item(1, 6)], false);
      var s' := Shipment(2, "2024-05-02", 7, [Item(1, 6)], false);
      && Reconcile(map[7 := Some(Pending)], orderItems, map[], s) == Success(Effect(ShippedAndDue, map[(7, 1) := 4]))
      && Reconcile(map[7 := Some(ShippedAndDue)], orderItems, map[(7, 1) := 4], s') == Success(Effect(ShippedAndDue, map[(7, 1) := 4]))
      && s.items[0].quantity + s'.items[0].quantity + 4 > orderItems[1].quantity
  {
    var orderItems := map[1 := OrderItem(7, "shirt", 10)];
    var committed := CommittedOf(orderItems, 7);
    assert committed == map[1 := 10];
    assert Upserts([Item(1, 6)][0], committed);
    assert map[(7, 1) := 4][(7, 1) := 4] == map[(7, 1) := 4];
  }

  /** A due clearance that names only some of the order's due items deletes all
      of the order's due rows: the quantity still due on the unnamed item is lost
      and the order is marked "shipped". */
  lemma PartialDueClearanceDropsRest()
    ensures var due := map[(7, 1) := 4, (7, 2) := 3];
      var s := Shipment(3, "2024-05-03", 7, [Item(1, 4)], true);
      Reconcile(map[7 := Some(ShippedAndDue)], map[], due, s) == Success(Effect(Shipped, map[]))
  {
    var due := map[(7, 1) := 4, (7, 2) := 3];
    assert ClearOrder(due, 7) == map[] by {
      assert forall k :: k !in ClearOrder(due, 7);
    }
  }

  /** Fresh mode consults only the lines of the proposal: an order with an item
      never shipped, and with a due row left by an earlier shipment, is marked
      "shipped" when the proposal fully ships its other item. */
  lemma FreshStatusIgnoresRestOfOrder()
    ensures var orderItems := map[1 := OrderItem(7, "shirt", 5), 2 := OrderItem(7, "cap", 3)];
      var due := map[(7, 2) := 3];
      var s := Shipment(2, "2024-05-02", 7, [Item(1, 5)], false);
      Reconcile(map[7 := Some(ShippedAndDue)], orderItems, due, s) == Success(Effect(Shipped, due))
  {
  }
}
