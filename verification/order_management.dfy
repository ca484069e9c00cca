/**
 * The order engine: create an order with its initial status, update it
 * under optimistic concurrency, cancel it by appending a status, and list a
 * page of orders.
 */
module OrderManagement {
  import opened Wrappers
  import opened Exceptions
  import opened Text
  import opened Sequences
  import opened Entities
  import opened OrderIds
  import opened Transactions
  import opened Pagination
  import Base64

  /** EF Core's message when `SaveChanges` is refused by the database. */
  const SaveFailedMessage: string := "An error occurred while saving the entity changes. See the inner exception for details."

  const StaleVersionMessage: string := "Order has been modified by another user"

  function InvalidVersionMessage(orderId: string): string {
    "Invalid version format for order " + orderId + ". Version must be a valid Base64 string."
  }

  /** A new status row; the identity column numbers rows in insertion order. */
  function NewStatusEntry(store: Store, orderId: string, status: string, internalNotes: Option<string>,
                          customerNotes: Option<string>, now: int, actor: string): OrderStatusEntry
  {
    OrderStatusEntry(|store.statuses| + 1, orderId, status, internalNotes, customerNotes, now, actor)
  }

  /**
   * EF Core's message when `Add` meets a key the context already tracks
   * (sensitive data logging is off, so the key value is not shown).
   */
  const AlreadyTrackedMessage: string :=
    "The instance of entity type 'Order' cannot be tracked because another instance with the same key value for {'OrderId'} is already being tracked. When attaching existing entities, ensure that only one entity instance with a given key value is attached. Consider using 'DbContextOptionsBuilder.EnableSensitiveDataLogging' to see the conflicting key values."

  /** The result, the store afterwards, the calls on the transaction, and the order keys the context tracks afterwards. */
  datatype CreateOutcome = CreateOutcome(result: Result<Order, Exception>, store: Store, events: seq<TxEvent>,
                                         tracked: seq<string>)

  /**
   * `CreateOrderAsync`: map the request, generate the id, stamp the audit
   * columns with the actor and the current time, and save the order
   * together with a "New" status, in a transaction of its own unless one is
   * already open. `tracked` holds the order keys the context already
   * tracks: `Add` refuses a generated id among them before anything is
   * saved, and the database refuses one that is stored but not tracked.
   */
  function CreateOrder(store: Store, tx: TxContext, tracked: seq<string>, request: CreateOrderRequest, actor: string,
                       clock: Clock, mapper: Mapper): (r: CreateOutcome)
    ensures r.events == OwnedTransaction(tx, r.result.Ok?)
    ensures r.result.Err? ==> r.store == store
    ensures r.result.Err? ==>
              r.result.error.Format? || r.result.error.Overflow? || r.result.error.DbUpdate? || r.result.error.InvalidOperation?
    ensures var generated := GenerateOrderId(OrderKeys(store.orders), clock.year);
            && (r.result.Err? && r.result.error.InvalidOperation? <==> generated.Ok? && generated.value in tracked)
            && (generated.Ok? && generated.value !in tracked && HasOrder(store, generated.value) ==>
                  r.result == Err(DbUpdate(SaveFailedMessage)))
    ensures r.result.Err? && r.result.error.InvalidOperation? ==> r.result.error.message == AlreadyTrackedMessage
    ensures r.result.Ok? ==>
              var order := r.result.value;
              && StartsWith(order.orderId, Prefix(clock.year))
              && !HasOrder(store, order.orderId) && order.orderId !in tracked
              && order.details == mapper.create(request)
              && order.createdBy == actor && order.updatedBy == actor
              && order.createdAt == clock.now && order.updatedAt == clock.now
              && order.version == DefaultVersion
              && r.store == store.(orders := store.orders + [order],
                                   statuses := store.statuses + [NewStatusEntry(store, order.orderId, "New", None, None, clock.now, actor)])
              && r.tracked == tracked + ReadRow(OrderKeys(store.orders), clock.year) + [order.orderId]
  {
    var keys := OrderKeys(store.orders);
    var generated := GenerateOrderId(keys, clock.year);
    var read := tracked + ReadRow(keys, clock.year);
    if generated.Err? then
      CreateOutcome(Err(generated.error), store, OwnedTransaction(tx, false), read)
    else
      var id := generated.value;
      if id in tracked then
        CreateOutcome(Err(InvalidOperation(AlreadyTrackedMessage)), store, OwnedTransaction(tx, false), read)
      else if HasOrder(store, id) then
        CreateOutcome(Err(DbUpdate(SaveFailedMessage)), store, OwnedTransaction(tx, false), read + [id])
      else
        var order := Order(id, mapper.create(request), DefaultVersion, clock.now, clock.now, actor, actor);
        var initial := NewStatusEntry(store, id, "New", None, None, clock.now, actor);
        CreateOutcome(Ok(order), store.(orders := store.orders + [order], statuses := store.statuses + [initial]),
                      OwnedTransaction(tx, true), read + [id])
  }

  /**
   * A store whose ids of the year are all five-digit numbers below 99999
   * accepts every create, as long as the context tracks only stored orders
   * (as it does within one transaction).
   */
  lemma CreateSucceedsWhileNumbersLast(store: Store, tx: TxContext, tracked: seq<string>, request: CreateOrderRequest,
                                       actor: string, clock: Clock, mapper: Mapper)
    requires SerialYearIds(OrderKeys(store.orders), clock.year)
    requires forall k :: k in tracked ==> k in OrderKeys(store.orders)
    ensures CreateOrder(store, tx, tracked, request, actor, clock, mapper).result.Ok?
  {
    var ids := OrderKeys(store.orders);
    GeneratedIdIsFresh(ids, clock.year);
  }

  /** Creating keeps the key unique and the status rows pointing at existing orders. */
  lemma CreatePreservesValidStore(store: Store, tx: TxContext, tracked: seq<string>, request: CreateOrderRequest, actor: string,
                                  clock: Clock, mapper: Mapper)
    requires ValidStore(store)
    ensures ValidStore(CreateOrder(store, tx, tracked, request, actor, clock, mapper).store)
  {
    var r := CreateOrder(store, tx, tracked, request, actor, clock, mapper);
    if r.result.Ok? {
      var order := r.result.value;
      AddOrderKeepsValid(store, order, NewStatusEntry(store, order.orderId, "New", None, None, clock.now, actor));
    }
  }

  datatype UpdateOutcome = UpdateOutcome(result: Result<Order, Exception>, store: Store)

  /** The order row `UpdateOrder` finds, when there is one. */
  function CurrentOrder(store: Store, orderId: string): (r: Option<Order>)
    ensures r.None? <==> !HasOrder(store, orderId)
    ensures r.Some? ==> r.value in store.orders && r.value.orderId == orderId
  {
    match FindOrderIndex(store.orders, orderId)
    case None => None
    case Some(i) => Some(store.orders[i])
  }

  /**
   * `UpdateOrderAsync`. The checks run in this order: the order exists,
   * the version is base 64, the decoded bytes equal the stored version.
   * Then the mapper patches the business columns, the audit columns record
   * the actor and the time, and the store issues a new row version
   * (`regenerate`, possibly the old one).
   */
  function UpdateOrder(store: Store, orderId: string, request: UpdateOrderRequest, actor: string, now: int,
                       mapper: Mapper, regenerate: Order -> seq<byte>): (r: UpdateOutcome)
    ensures r.result.Err? ==> r.store == store
    ensures !HasOrder(store, orderId) ==> r.result == Err(InvalidOperation(OrderNotFoundMessage(orderId)))
    ensures HasOrder(store, orderId) && Base64.Decode(request.version).None? ==>
              r.result == Err(InvalidOperation(InvalidVersionMessage(orderId)))
    ensures HasOrder(store, orderId) && Base64.Decode(request.version).Some?
            && Base64.Decode(request.version).value != CurrentOrder(store, orderId).value.version ==>
              r.result == Err(DbUpdateConcurrency(StaleVersionMessage))
    ensures r.result.Ok? <==>
              HasOrder(store, orderId) && Base64.Decode(request.version) == Some(CurrentOrder(store, orderId).value.version)
    ensures r.result.Ok? ==>
              var before := CurrentOrder(store, orderId).value;
              var after := r.result.value;
              && after.orderId == orderId
              && after.details == mapper.patch(request, before.details)
              && after.createdBy == before.createdBy && after.createdAt == before.createdAt
              && after.updatedBy == actor && after.updatedAt == now
              && r.store.statuses == store.statuses && r.store.files == store.files && r.store.notes == store.notes
              && |r.store.orders| == |store.orders|
              && var i := FindOrderIndex(store.orders, orderId).value;
                 && r.store.orders[i] == after
                 && (forall j :: 0 <= j < |store.orders| && j != i ==> r.store.orders[j] == store.orders[j])
  {
    match FindOrderIndex(store.orders, orderId)
    case None => UpdateOutcome(Err(InvalidOperation(OrderNotFoundMessage(orderId))), store)
    case Some(i) =>
      var order := store.orders[i];
      var requestVersion := Base64.Decode(request.version);
      if requestVersion.None? then
        UpdateOutcome(Err(InvalidOperation(InvalidVersionMessage(orderId))), store)
      else if order.version != requestVersion.value then
        UpdateOutcome(Err(DbUpdateConcurrency(StaleVersionMessage)), store)
      else
        var patched := order.(details := mapper.patch(request, order.details), updatedBy := actor, updatedAt := now);
        var saved := patched.(version := regenerate(patched));
        UpdateOutcome(Ok(saved), store.(orders := store.orders[i := saved]))
  }

  /** The base 64 text of the stored version always passes the concurrency check. */
  lemma CurrentVersionAccepted(store: Store, orderId: string, request: UpdateOrderRequest, actor: string, now: int,
                               mapper: Mapper, regenerate: Order -> seq<byte>)
    requires HasOrder(store, orderId)
    requires request.version == Base64.Encode(CurrentOrder(store, orderId).value.version)
    ensures UpdateOrder(store, orderId, request, actor, now, mapper, regenerate).result.Ok?
  {
    Base64.DecodeEncode(CurrentOrder(store, orderId).value.version);
  }

  /** Updating never adds, removes or re-keys an order, so the store stays valid. */
  lemma UpdatePreservesValidStore(store: Store, orderId: string, request: UpdateOrderRequest, actor: string, now: int,
                                  mapper: Mapper, regenerate: Order -> seq<byte>)
    requires ValidStore(store)
    ensures ValidStore(UpdateOrder(store, orderId, request, actor, now, mapper, regenerate).store)
  {
    var r := UpdateOrder(store, orderId, request, actor, now, mapper, regenerate);
    if r.result.Ok? {
      var s := r.store;
      assert forall j :: 0 <= j < |s.orders| ==> s.orders[j].orderId == store.orders[j].orderId;
      assert forall id :: HasOrder(store, id) ==> HasOrder(s, id) by {
        forall id | HasOrder(store, id) ensures HasOrder(s, id) {
          var i :| 0 <= i < |store.orders| && store.orders[i].orderId == id;
          assert s.orders[i].orderId == id;
        }
      }
    }
  }

  /**
   * `CancelOrderAsync`: false for an unknown order; otherwise a "Cancelled"
   * status carrying the reason as its internal note is appended, with no
   * check against the current status.
   */
  function CancelOrder(store: Store, orderId: string, actor: string, reason: Option<string>, now: int): (r: (bool, Store))
    ensures !r.0 <==> !HasOrder(store, orderId)
    ensures !r.0 ==> r.1 == store
    ensures r.0 ==> r.1 == store.(statuses := store.statuses + [NewStatusEntry(store, orderId, "Cancelled", reason, None, now, actor)])
  {
    if !HasOrder(store, orderId) then (false, store)
    else (true, store.(statuses := store.statuses + [NewStatusEntry(store, orderId, "Cancelled", reason, None, now, actor)]))
  }

  /** Cancelling appends to the log of an existing order, so the store stays valid. */
  lemma CancelPreservesValidStore(store: Store, orderId: string, actor: string, reason: Option<string>, now: int)
    requires ValidStore(store)
    ensures ValidStore(CancelOrder(store, orderId, actor, reason, now).1)
  {
  }

  /** Cancelling twice appends two "Cancelled" entries: there is no duplicate check. */
  lemma CancelTwiceAppendsTwice(store: Store, orderId: string, actor: string, reason: Option<string>, now: int, later: int)
    requires HasOrder(store, orderId)
    ensures var once := CancelOrder(store, orderId, actor, reason, now);
            var twice := CancelOrder(once.1, orderId, actor, reason, later);
            && once.0 && twice.0
            && |twice.1.statuses| == |store.statuses| + 2
            && twice.1.statuses[|store.statuses|].status == "Cancelled"
            && twice.1.statuses[|store.statuses| + 1].status == "Cancelled"
  {
    var once := CancelOrder(store, orderId, actor, reason, now);
    assert HasOrder(once.1, orderId);
  }

  /** The customer filter: applied only for a non-empty customer id. */
  function CustomerFilter(customerId: Option<string>): Order -> bool {
    if customerId.None? || customerId.value == "" then (o: Order) => true
    else (o: Order) => o.details.customerId == customerId.value
  }

  function CreatedAtKey(o: Order): int {
    o.createdAt
  }

  /** The matching orders, newest first. */
  function NewestFirst(orders: seq<Order>, customerId: Option<string>): seq<Order> {
    SortBy(Filter(orders, CustomerFilter(customerId)), CreatedAtKey, true)
  }

  /**
   * `GetOrdersAsync`: the orders of the customer (all orders without one),
   * newest first, page `page` of `pageSize`; `status` is accepted and
   * ignored.
   */
  function GetOrders(store: Store, page: int, pageSize: int, customerId: Option<string>,
                     status: Option<string>): (r: PaginatedResponse<Order>)
    requires page >= 1 && pageSize >= 1
    ensures var matching := Filter(store.orders, CustomerFilter(customerId));
            && r.totalCount == |matching|
            && r.page == page && r.pageSize == pageSize
            && r.totalPages == TotalPages(|matching|, pageSize)
            && |r.items| <= pageSize
            && (forall i :: 0 <= i < |r.items| ==> r.items[i] in matching)
            && SortedBy(r.items, CreatedAtKey, true)
    ensures r.items == Window(NewestFirst(store.orders, customerId), FirstOnPage(page, pageSize), pageSize)
  {
    var matching := Filter(store.orders, CustomerFilter(customerId));
    var sorted := NewestFirst(store.orders, customerId);
    var items := Window(sorted, FirstOnPage(page, pageSize), pageSize);
    WindowOfSorted(sorted, FirstOnPage(page, pageSize), pageSize, CreatedAtKey, true);
    assert forall x :: x in sorted ==> x in matching by {
      forall x | x in sorted ensures x in matching {
        assert x in multiset(sorted);
      }
    }
    PaginatedResponse(items, page, pageSize, |matching|, TotalPages(|matching|, pageSize))
  }

  /** The `status` argument has no effect on the listing. */
  lemma GetOrdersIgnoresStatus(store: Store, page: int, pageSize: int, customerId: Option<string>,
                               s1: Option<string>, s2: Option<string>)
    requires page >= 1 && pageSize >= 1
    ensures GetOrders(store, page, pageSize, customerId, s1) == GetOrders(store, page, pageSize, customerId, s2)
  {
  }

  /**
   * Every matching order appears on its page: the page whose window covers
   * position `k` of the newest-first listing is within `totalPages`, and
   * holds the order at position `k - (page - 1) * pageSize`. `PageOfItem`
   * shows that `k / pageSize + 1` is that page.
   */
  lemma EveryOrderOnItsPage(store: Store, page: int, pageSize: int, customerId: Option<string>, k: nat)
    requires page >= 1 && pageSize >= 1 && k < |NewestFirst(store.orders, customerId)|
    requires FirstOnPage(page, pageSize) <= k < FirstOnPage(page, pageSize) + pageSize
    ensures var r := GetOrders(store, page, pageSize, customerId, None);
            && page <= r.totalPages
            && k - FirstOnPage(page, pageSize) < |r.items|
            && r.items[k - FirstOnPage(page, pageSize)] == NewestFirst(store.orders, customerId)[k]
  {
    var sorted := NewestFirst(store.orders, customerId);
    var skip := FirstOnPage(page, pageSize);
    var r := GetOrders(store, page, pageSize, customerId, None);
    assert page <= r.totalPages by {
      assert r.totalPages == TotalPages(|sorted|, pageSize);
      PageWithinTotal(k, page, pageSize, |sorted|);
    }
    assert k - skip < |r.items| && r.items[k - skip] == sorted[k] by {
      assert r.items == Window(sorted, skip, pageSize);
    }
  }
}
