/** The shipment reconciliation engine as a function of the tables it reads: what
    HandleShipment commits, or the error it rolls back with. The storage class
    runs it imperatively and is proved to agree with `Reconcile`. */
module Reconciliation {
  import opened Models

  // ---------------------------------------------------------------------------
  // Projections of the tables onto one order
  // ---------------------------------------------------------------------------

  /** The committed quantity of every item of order `o`, keyed by item ID: what the
      order-items query loads into its map. */
  function CommittedOf(orderItems: map<int, OrderItem>, o: int): (r: map<int, int>)
    ensures forall id :: id in r <==> id in orderItems && orderItems[id].orderId == o
    ensures forall id :: id in r ==> r[id] == orderItems[id].quantity
  {
    map id | id in orderItems && orderItems[id].orderId == o :: orderItems[id].quantity
  }

  /** The due-ledger entries of order `o`, keyed by item ID: what the due-items
      query loads into its map. */
  function DueItemsOf(due: map<(int, int), int>, o: int): (r: map<int, int>)
    ensures forall id :: id in r <==> (o, id) in due
    ensures forall id :: id in r ==> r[id] == due[(o, id)]
  {
    map id | id in (set k | k in due :: k.1) && (o, id) in due :: due[(o, id)]
  }

  /** The due ledger after deleting every row of order `o`. */
  function ClearOrder(due: map<(int, int), int>, o: int): (r: map<(int, int), int>)
    ensures forall k :: k in r <==> k in due && k.0 != o
    ensures forall k :: k in r ==> r[k] == due[k]
  {
    map k | k in due && k.0 != o :: due[k]
  }

  // ---------------------------------------------------------------------------
  // Due-clearance mode
  // ---------------------------------------------------------------------------

  /** A shipped line clears its due entry only when one exists with exactly its quantity. */
  predicate MatchesDue(it: Item, dueItems: map<int, int>)
  {
    it.id in dueItems && it.quantity == dueItems[it.id]
  }

  /** The index of the first shipped line that does not match its due entry. */
  function FirstDueMismatch(items: seq<Item>, dueItems: map<int, int>): (r: Option<nat>)
    ensures r.Some? ==> r.value < |items| && !MatchesDue(items[r.value], dueItems)
    ensures r.Some? ==> forall j :: 0 <= j < r.value ==> MatchesDue(items[j], dueItems)
    ensures r.None? <==> forall j :: 0 <= j < |items| ==> MatchesDue(items[j], dueItems)
    decreases |items|
  {
    if items == [] then None
    else if !MatchesDue(items[0], dueItems) then Some(0)
    else match FirstDueMismatch(items[1..], dueItems)
      case None => None
      case Some(k) => Some(k + 1)
  }

  // ---------------------------------------------------------------------------
  // Fresh-fulfillment mode
  // ---------------------------------------------------------------------------

  /** A shipped line is rejected when its item is not on the order or when it ships
      more than was committed. Quantities are not checked for being positive. */
  predicate FreshViolation(it: Item, committed: map<int, int>)
  {
    it.id !in committed || it.quantity > committed[it.id]
  }

  /** The index of the first shipped line that fresh mode rejects. */
  function FirstFreshViolation(items: seq<Item>, committed: map<int, int>): (r: Option<nat>)
    ensures r.Some? ==> r.value < |items| && FreshViolation(items[r.value], committed)
    ensures r.Some? ==> forall j :: 0 <= j < r.value ==> !FreshViolation(items[j], committed)
    ensures r.None? <==> forall j :: 0 <= j < |items| ==> !FreshViolation(items[j], committed)
    decreases |items|
  {
    if items == [] then None
    else if FreshViolation(items[0], committed) then Some(0)
    else match FirstFreshViolation(items[1..], committed)
      case None => None
      case Some(k) => Some(k + 1)
  }

  /** The error fresh mode reports for a rejected line. */
  function FreshError(it: Item, committed: map<int, int>): Error
  {
    if it.id !in committed then UnknownItem(it.id) else ExceedsOrderQuantity(it.id)
  }

  /** A shipped line leaves a remainder when it ships less than was committed. */
  predicate Upserts(it: Item, committed: map<int, int>)
  {
    it.id in committed && committed[it.id] - it.quantity > 0
  }

  /** The upsert one shipped line performs on the due ledger: the row (o, item)
      is set to the remainder, replacing any previous value; a line without a
      remainder writes nothing. */
  function Upsert(due: map<(int, int), int>, o: int, it: Item, committed: map<int, int>): map<(int, int), int>
  {
    if Upserts(it, committed) then due[(o, it.id) := committed[it.id] - it.quantity] else due
  }

  /** The due ledger after the upserts of `items`, performed left to right. */
  function FreshLedger(due: map<(int, int), int>, o: int, items: seq<Item>, committed: map<int, int>): map<(int, int), int>
    decreases |items|
  {
    if items == [] then due
    else FreshLedger(Upsert(due, o, items[0], committed), o, items[1..], committed)
  }

  /** Fresh mode's "has due items" flag: some line of the proposal left a remainder. */
  predicate AnyRemainder(items: seq<Item>, committed: map<int, int>)
  {
    exists j :: 0 <= j < |items| && Upserts(items[j], committed)
  }

  /** Line `j` is the last line of `items` that upserts the due row `key`. */
  predicate LastUpsertOf(key: (int, int), o: int, items: seq<Item>, committed: map<int, int>, j: int)
  {
    && 0 <= j < |items|
    && key == (o, items[j].id)
    && Upserts(items[j], committed)
    && forall j' :: j < j' < |items| && items[j'].id == items[j].id ==> !Upserts(items[j'], committed)
  }

  /** Some line of `items` upserts the due row `key`. */
  predicate Touches(key: (int, int), o: int, items: seq<Item>, committed: map<int, int>)
  {
    key.0 == o && exists j :: 0 <= j < |items| && items[j].id == key.1 && Upserts(items[j], committed)
  }

  /** What the upserts leave in every due row: a row no line upserts keeps its old
      presence and value; a row that is upserted holds the remainder of the last
      line that upserts it. */
  lemma {:induction false} FreshLedgerAt(due: map<(int, int), int>, o: int, items: seq<Item>, committed: map<int, int>, key: (int, int))
    ensures var r := FreshLedger(due, o, items, committed);
      !Touches(key, o, items, committed) ==> (key in r <==> key in due) && (key in due ==> r[key] == due[key])
    ensures var r := FreshLedger(due, o, items, committed);
      forall j :: LastUpsertOf(key, o, items, committed, j) ==> key in r && r[key] == committed[items[j].id] - items[j].quantity
    decreases |items|
  {
    if items != [] {
      var due' := Upsert(due, o, items[0], committed);
      var rest := items[1..];
      FreshLedgerAt(due', o, rest, committed, key);
      var r := FreshLedger(due, o, items, committed);
      assert r == FreshLedger(due', o, rest, committed);
      forall j | LastUpsertOf(key, o, items, committed, j)
        ensures key in r && r[key] == committed[items[j].id] - items[j].quantity
      {
        if j > 0 {
          assert LastUpsertOf(key, o, rest, committed, j - 1) by {
            forall j' | j - 1 < j' < |rest| && rest[j'].id == rest[j - 1].id
              ensures !Upserts(rest[j'], committed)
            {
              assert rest[j'] == items[j' + 1];
            }
          }
        }
      }
    }
  }

  /** A line that upserts a due row is followed, at or after it, by the last line
      that upserts that row. */
  lemma {:induction false} LastUpsertExists(key: (int, int), o: int, items: seq<Item>, committed: map<int, int>, j: int)
    requires 0 <= j < |items| && key == (o, items[j].id) && Upserts(items[j], committed)
    ensures exists j' :: j <= j' < |items| && LastUpsertOf(key, o, items, committed, j')
    decreases |items| - j
  {
    if !LastUpsertOf(key, o, items, committed, j) {
      var j' :| j < j' < |items| && items[j'].id == items[j].id && Upserts(items[j'], committed);
      LastUpsertExists(key, o, items, committed, j');
    }
  }

  /** The status fresh mode writes. Only the lines of the proposal are consulted:
      committed items the proposal does not name do not make the order due. */
  function FreshStatus(items: seq<Item>, committed: map<int, int>): string
  {
    if AnyRemainder(items, committed) then ShippedAndDue else Shipped
  }

  // ---------------------------------------------------------------------------
  // The whole engine
  // ---------------------------------------------------------------------------

  /** What a committed shipment writes: the new status of its order and the new due ledger. */
  datatype Effect = Effect(status: string, due: map<(int, int), int>)

  /** The outcome of HandleShipment on the given tables: the error its transaction
      rolls back with, or the effect it commits. An order whose status column is
      NULL fails the status scan and is rejected like an order with no row. */
  function Reconcile(orders: map<int, Option<string>>, orderItems: map<int, OrderItem>, due: map<(int, int), int>, s: Shipment): Result<Effect>
  {
    if s.orderId !in orders || orders[s.orderId].None? then Failure(InvalidOrderId(s.orderId))
    else if s.dueOrderType then
      if orders[s.orderId].value != ShippedAndDue then Failure(StatusMismatch)
      else
        match FirstDueMismatch(s.items, DueItemsOf(due, s.orderId))
        case Some(j) => Failure(DueQuantityMismatch(s.items[j].id))
        case None => Success(Effect(Shipped, ClearOrder(due, s.orderId)))
    else
      var committed := CommittedOf(orderItems, s.orderId);
      match FirstFreshViolation(s.items, committed)
      case Some(j) => Failure(FreshError(s.items[j], committed))
      case None => Success(Effect(FreshStatus(s.items, committed), FreshLedger(due, s.orderId, s.items, committed)))
  }
}
