/** Value types shared by the shipment storage layer: the shipment proposal, the
    rows of the tables it touches, the status strings and the errors it reports. */
module Models {

  datatype Option<T> = None | Some(value: T)

  /** A shipped line of a proposal. Only the item's ID and quantity take part in
      reconciliation; name, size, colour and price are not modelled. */
  datatype Item = Item(id: int, quantity: int)

  /** A shipment proposal as decoded from the request body. */
  datatype Shipment = Shipment(
    id: int,
    shippedDate: string,
    orderId: int,
    items: seq<Item>,
    dueOrderType: bool)

  /** A row of the order-items table; its key (the item ID) is the key of the map
      that holds the table. */
  datatype OrderItem = OrderItem(orderId: int, name: string, quantity: int)

  /** A row of the shipments table, keyed by shipment ID. The items column holds
      JSON text and may be NULL. */
  datatype StoredShipment = StoredShipment(
    shippedDate: string,
    orderId: int,
    items: Option<string>,
    dueOrderType: bool)

  /** One entry of the due-items projection. */
  datatype DueItem = DueItem(itemId: int, quantity: int)

  /** The order statuses the storage layer writes, spelled exactly as it writes them. */
  const Pending: string := "pending"
  const Shipped: string := "shipped"
  const ShippedAndDue: string := "shipped and due"

  /** The business errors the storage layer reports; each carries the ID the
      failing step looked up, where there is one. */
  datatype Error =
    | InvalidOrderId(orderId: int)
    | StatusMismatch
    | DueQuantityMismatch(itemId: int)
    | UnknownItem(itemId: int)
    | ExceedsOrderQuantity(itemId: int)
    | ShipmentNotFound(shipmentId: int)
    | ItemsDecodeFailed

  /** The error-or-nil return of an operation that yields no value. */
  datatype Outcome = Pass | Fail(error: Error)

  datatype Result<T> = Success(value: T) | Failure(error: Error)
}
