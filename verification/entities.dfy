/**
 * The rows of the order database (`Order`, `OrderStatus`, `OrderFile`,
 * `OrderNote`), the request bodies the API accepts, and the store that holds
 * the four tables. Date-times are integers (ticks); a C# nullable is an
 * `Option`.
 */
module Entities {
  import opened Wrappers
  import opened Sequences
  import Base64

  type byte = Base64.byte

  /** The business columns of an order: everything except the key and the audit columns. */
  datatype OrderDetails = OrderDetails(
    customerId: string,
    customerType: string,
    serviceCategoryId: int,
    processTypeId: Option<int>,
    materialId: Option<int>,
    colorId: Option<int>,
    surfaceFinishingId: Option<int>,
    materialName: Option<string>,
    colorName: Option<string>,
    surfaceFinishingName: Option<string>,
    materialCacheUpdatedAt: Option<int>,
    orderedQuantity: Option<int>,
    manufacturedQuantity: Option<int>,
    leadTimeDays: Option<int>,
    promisedDeliveryDate: Option<int>,
    actualDeliveryDate: Option<int>,
    quotedAmount: Option<real>,
    quoteCurrency: Option<string>,
    isConfidential: bool,
    paymentId: Option<string>,
    paymentStatus: string,
    assignedEmployeeId: Option<string>,
    departmentId: Option<string>,
    requirements: Option<string>)

  /** A row of `orders`; `version` is the row-version token the store maintains. */
  datatype Order = Order(
    orderId: string,
    details: OrderDetails,
    version: seq<byte>,
    createdAt: int,
    updatedAt: int,
    createdBy: string,
    updatedBy: string)

  /** A row of `order_statuses`: one entry of an order's append-only status log. */
  datatype OrderStatusEntry = OrderStatusEntry(
    statusId: int,
    orderId: string,
    status: string,
    internalNotes: Option<string>,
    customerNotes: Option<string>,
    timestamp: int,
    updatedBy: string)

  /** A row of `order_files`; `deletedAt` marks a soft delete. */
  datatype OrderFile = OrderFile(
    fileId: int,
    orderId: string,
    fileRole: string,
    fileCategory: string,
    designUnits: Option<string>,
    objectPath: string,
    fileName: string,
    fileSize: int,
    fileType: string,
    accessLevel: string,
    uploadedAt: int,
    uploadedBy: string,
    deletedAt: Option<int>)

  /** A row of `order_notes`. */
  datatype OrderNote = OrderNote(
    noteId: int,
    orderId: string,
    noteType: string,
    noteText: string,
    createdBy: string,
    createdAt: int)

  /** The four tables, each in insertion order. */
  datatype Store = Store(
    orders: seq<Order>,
    statuses: seq<OrderStatusEntry>,
    files: seq<OrderFile>,
    notes: seq<OrderNote>)

  datatype CreateOrderRequest = CreateOrderRequest(
    customerId: string,
    customerType: string,
    serviceCategoryId: int,
    processTypeId: Option<int>,
    requirements: Option<string>,
    isConfidential: bool,
    orderedQuantity: Option<int>,
    materialId: Option<int>,
    colorId: Option<int>,
    surfaceFinishingId: Option<int>,
    leadTimeDays: Option<int>,
    promisedDeliveryDate: Option<int>,
    assignedEmployeeId: Option<string>,
    departmentId: Option<string>)

  datatype UpdateOrderRequest = UpdateOrderRequest(
    version: string,
    requirements: Option<string>,
    orderedQuantity: Option<int>,
    manufacturedQuantity: Option<int>,
    materialId: Option<int>,
    colorId: Option<int>,
    surfaceFinishingId: Option<int>,
    leadTimeDays: Option<int>,
    promisedDeliveryDate: Option<int>,
    actualDeliveryDate: Option<int>,
    quotedAmount: Option<real>,
    quoteCurrency: Option<string>,
    assignedEmployeeId: Option<string>,
    departmentId: Option<string>)

  datatype CreateOrderStatusRequest = CreateOrderStatusRequest(
    status: string,
    internalNotes: Option<string>,
    customerNotes: Option<string>)

  datatype CreateOrderNoteRequest = CreateOrderNoteRequest(noteType: string, noteText: string)

  datatype UploadOrderFileRequest = UploadOrderFileRequest(
    fileRole: string,
    fileCategory: string,
    designUnits: Option<string>)

  datatype CancelOrderRequest = CancelOrderRequest(cancellationReason: string, customerNotes: Option<string>)

  /** The item type the batch update endpoint binds: the controller's own three-member class. */
  datatype BatchUpdateOrderRequest = BatchUpdateOrderRequest(
    orderId: string,
    version: string,
    assignedEmployeeId: Option<string>)

  /**
   * The object mapper, whose configuration for these types is not part of
   * this model: how a create request becomes the business columns of a new
   * order, and how an update request patches them.
   */
  datatype Mapper = Mapper(
    create: CreateOrderRequest -> OrderDetails,
    patch: (UpdateOrderRequest, OrderDetails) -> OrderDetails)

  /** The instant of a call and its calendar year, as `DateTime.UtcNow` and `DateTime.UtcNow.Year`. */
  datatype Clock = Clock(now: int, year: nat)

  /** The eight zero bytes the version column defaults to. */
  const DefaultVersion: seq<byte> := [0, 0, 0, 0, 0, 0, 0, 0]

  /** The message of the `InvalidOperationException` the services throw for an unknown order. */
  function OrderNotFoundMessage(orderId: string): string {
    "Order " + orderId + " not found"
  }

  /** `orderId` is the primary key of `orders`. */
  predicate UniqueOrderIds(orders: seq<Order>) {
    forall i, j :: 0 <= i < j < |orders| ==> orders[i].orderId != orders[j].orderId
  }

  predicate HasOrder(store: Store, orderId: string) {
    exists i :: 0 <= i < |store.orders| && store.orders[i].orderId == orderId
  }

  /** `FindAsync(orderId)`: the position of the order with this key. */
  function FindOrderIndex(orders: seq<Order>, orderId: string): (r: Option<nat>)
    ensures r.None? <==> forall i :: 0 <= i < |orders| ==> orders[i].orderId != orderId
    ensures r.Some? ==> r.value < |orders| && orders[r.value].orderId == orderId
                        && forall j :: 0 <= j < r.value ==> orders[j].orderId != orderId
    decreases |orders|
  {
    if |orders| == 0 then None
    else if orders[0].orderId == orderId then Some(0)
    else
      match FindOrderIndex(orders[1..], orderId)
      case None => None
      case Some(k) => Some(k + 1)
  }

  /** Under a unique key, the row found is the only row carrying that key. */
  lemma FoundIndexIsOnly(orders: seq<Order>, orderId: string, i: nat)
    requires UniqueOrderIds(orders) && i < |orders| && orders[i].orderId == orderId
    ensures FindOrderIndex(orders, orderId) == Some(i)
  {
  }

  /** Every status, file and note row belongs to an order of the store (the foreign keys). */
  predicate ReferencesHold(store: Store) {
    && (forall i :: 0 <= i < |store.statuses| ==> HasOrder(store, store.statuses[i].orderId))
    && (forall i :: 0 <= i < |store.files| ==> HasOrder(store, store.files[i].orderId))
    && (forall i :: 0 <= i < |store.notes| ==> HasOrder(store, store.notes[i].orderId))
  }

  /** The integrity the database enforces on the four tables. */
  predicate ValidStore(store: Store) {
    UniqueOrderIds(store.orders) && ReferencesHold(store)
  }

  /** Appending an order keeps every order found before and adds the new one. */
  lemma OrdersGrow(store: Store, order: Order, grown: Store)
    requires grown.orders == store.orders + [order]
    ensures HasOrder(grown, order.orderId)
    ensures forall id :: HasOrder(store, id) ==> HasOrder(grown, id)
  {
    assert grown.orders[|store.orders|] == order;
    forall id | HasOrder(store, id) ensures HasOrder(grown, id) {
      var i :| 0 <= i < |store.orders| && store.orders[i].orderId == id;
      assert grown.orders[i] == store.orders[i];
    }
  }

  /** A new order under an unused key, with a first status row of its own, keeps the store valid. */
  lemma AddOrderKeepsValid(store: Store, order: Order, entry: OrderStatusEntry)
    requires ValidStore(store) && !HasOrder(store, order.orderId) && entry.orderId == order.orderId
    ensures ValidStore(store.(orders := store.orders + [order], statuses := store.statuses + [entry]))
  {
    var grown := store.(orders := store.orders + [order], statuses := store.statuses + [entry]);
    OrdersGrow(store, order, grown);
    assert UniqueOrderIds(grown.orders) by {
      forall i, j | 0 <= i < j < |grown.orders| ensures grown.orders[i].orderId != grown.orders[j].orderId {
        if j == |store.orders| {
          assert grown.orders[i] == store.orders[i];
        }
      }
    }
    forall i | 0 <= i < |grown.statuses| ensures HasOrder(grown, grown.statuses[i].orderId) {
      if i < |store.statuses| {
        assert grown.statuses[i] == store.statuses[i];
      }
    }
  }

  function OrderKeys(orders: seq<Order>): (ids: seq<string>)
    ensures |ids| == |orders| && forall i :: 0 <= i < |orders| ==> ids[i] == orders[i].orderId
  {
    seq(|orders|, i requires 0 <= i < |orders| => orders[i].orderId)
  }

  /** An order of the store is exactly a key among its order keys. */
  lemma HasOrderIsKey(store: Store, orderId: string)
    ensures HasOrder(store, orderId) <==> orderId in OrderKeys(store.orders)
  {
    var keys := OrderKeys(store.orders);
    if orderId in keys {
      var i :| 0 <= i < |keys| && keys[i] == orderId;
      assert store.orders[i].orderId == orderId;
    }
  }

  /** Appending an order appends its key. */
  lemma KeysOfAppend(orders: seq<Order>, order: Order)
    ensures OrderKeys(orders + [order]) == OrderKeys(orders) + [order.orderId]
  {
    assert forall i :: 0 <= i < |orders| ==> (orders + [order])[i] == orders[i];
  }
}
