/**
 * `BatchOrdersController`: create, update or cancel many orders as one
 * all-or-nothing unit. Create and update validate every item before the
 * transaction is opened; the transaction is a snapshot of the store that a
 * rollback restores, and inside it each single-order call sees an ambient
 * transaction.
 */
module BatchOrders {
  import opened Wrappers
  import opened Exceptions
  import opened Decimal
  import opened Sequences
  import opened Entities
  import opened Transactions
  import opened Validators
  import opened OrderManagement
  import opened Http
  import OrdersApi
  import OrderIds
  import Base64

  /** The user every batch acts as. */
  const Actor: string := "system"

  const CreationFailedMessage: string := "Batch order creation failed"
  const UpdateFailedMessage: string := "Batch order update failed"
  const BatchConflictMessage: string := "One or more orders have been modified by another user"
  const IdsRequiredMessage: string := "Order IDs are required"

  /** The calls on the batch transaction when every item succeeded. */
  const CommitPath: seq<TxEvent> := [Began, Committed, Disposed]
  /** The calls on the batch transaction when an item failed: an explicit rollback, then disposal. */
  const RollbackPath: seq<TxEvent> := [Began, RolledBack, Disposed]

  /** The response, the store once the transaction is over, and the calls made on the transaction. */
  datatype BatchReply = BatchReply(response: Response, store: Store, events: seq<TxEvent>)

  /** The items processed so far inside the transaction: their results, or the exception that stopped the loop. */
  datatype Run<T> = Run(result: Result<seq<T>, Exception>, store: Store)

  function ItemMessage(i: nat): string {
    "Validation failed for item at index " + IntToString(i)
  }

  // ---- CreateBatchOrders ----

  function CreateErrors(validatedAt: int): CreateOrderRequest -> seq<Failure> {
    (request: CreateOrderRequest) => CreateOrderErrors(request, validatedAt)
  }

  /** The index of the first request the validator refuses, if any. */
  function FirstInvalidCreate(requests: seq<CreateOrderRequest>, validatedAt: int): (r: Option<nat>)
    ensures r.None? <==> forall i :: 0 <= i < |requests| ==> CreateOrderIsValid(requests[i], validatedAt)
    ensures r.Some? ==>
              && r.value < |requests| && !CreateOrderIsValid(requests[r.value], validatedAt)
              && forall j :: 0 <= j < r.value ==> CreateOrderIsValid(requests[j], validatedAt)
  {
    CreateErrorsMeanInvalid(requests, validatedAt);
    FirstFailing(requests, CreateErrors(validatedAt))
  }

  lemma CreateErrorsMeanInvalid(requests: seq<CreateOrderRequest>, validatedAt: int)
    ensures forall i :: 0 <= i < |requests| ==>
              (CreateErrors(validatedAt)(requests[i]) == [] <==> CreateOrderIsValid(requests[i], validatedAt))
  {
    forall i | 0 <= i < |requests|
      ensures CreateErrors(validatedAt)(requests[i]) == [] <==> CreateOrderIsValid(requests[i], validatedAt)
    {
      var errors := CreateOrderErrors(requests[i], validatedAt);
      assert CreateErrors(validatedAt)(requests[i]) == errors;
    }
  }

  /** One create of the batch loop: the store it runs in, the keys the context tracks and the request, to the outcome. */
  type CreateStep = (Store, seq<string>, CreateOrderRequest) -> CreateOutcome

  /**
   * What the batch relies on from one create: a failure changes nothing,
   * and a success appends the mapped order under a new key together with
   * its "New" status.
   */
  predicate CreatesOne(before: Store, request: CreateOrderRequest, out: CreateOutcome, clock: Clock, mapper: Mapper) {
    && (out.result.Err? ==>
          && out.store == before
          && (out.result.error.Format? || out.result.error.Overflow? || out.result.error.DbUpdate?
              || out.result.error.InvalidOperation?))
    && (out.result.Ok? ==>
          var o := out.result.value;
          && o.details == mapper.create(request) && o.createdBy == Actor && o.updatedBy == Actor
          && o.createdAt == clock.now && !HasOrder(before, o.orderId)
          && out.store == before.(orders := before.orders + [o],
                                  statuses := before.statuses + [NewStatusEntry(before, o.orderId, "New", None, None, clock.now, Actor)]))
  }

  ghost predicate IsCreateStep(step: CreateStep, clock: Clock, mapper: Mapper) {
    forall s, tracked, request {:trigger step(s, tracked, request)} :: CreatesOne(s, request, step(s, tracked, request), clock, mapper)
  }

  /** The single-order create, inside an ambient transaction and as the batch's actor, meets what the batch relies on. */
  lemma CreateOrderCreatesOne(clock: Clock, mapper: Mapper)
    ensures forall s, tracked, request ::
              CreatesOne(s, request, CreateOrder(s, AmbientTransaction, tracked, request, Actor, clock, mapper), clock, mapper)
  {
  }

  /** The single-order create as a batch item runs it: inside the batch transaction, as the batch's actor. */
  function CreateInBatch(clock: Clock, mapper: Mapper): (step: CreateStep)
    ensures IsCreateStep(step, clock, mapper)
  {
    CreateOrderCreatesOne(clock, mapper);
    (s: Store, tracked: seq<string>, request: CreateOrderRequest) =>
      CreateOrder(s, AmbientTransaction, tracked, request, Actor, clock, mapper)
  }

  /**
   * The `foreach` of the batch create: each request is created in the
   * store the previous ones left, with the context tracking what they
   * created and read, and the first exception stops the loop with the
   * writes made so far still in place.
   */
  function CreateAll(store: Store, tracked: seq<string>, requests: seq<CreateOrderRequest>, step: CreateStep, clock: Clock,
                     mapper: Mapper): (r: Run<Order>)
    requires IsCreateStep(step, clock, mapper)
    ensures r.result.Err? ==>
              r.result.error.Format? || r.result.error.Overflow? || r.result.error.DbUpdate? || r.result.error.InvalidOperation?
    ensures r.result.Ok? ==>
              && |r.result.value| == |requests|
              && r.store.orders == store.orders + r.result.value
              && r.store.files == store.files && r.store.notes == store.notes
              && |r.store.statuses| == |store.statuses| + |requests|
    decreases |requests|
  {
    if |requests| == 0 then Run(Ok([]), store)
    else
      var first := step(store, tracked, requests[0]);
      if first.result.Err? then Run(Err(first.result.error), first.store)
      else
        var rest := CreateAll(first.store, first.tracked, requests[1..], step, clock, mapper);
        if rest.result.Err? then rest
        else Run(Ok([first.result.value] + rest.result.value), rest.store)
  }

  /** On success the i-th order is mapped from the i-th request and stamped with the batch's actor and clock. */
  lemma {:induction false} CreatedOrdersFollowRequests(store: Store, tracked: seq<string>, requests: seq<CreateOrderRequest>, step: CreateStep,
                                                       clock: Clock, mapper: Mapper)
    requires IsCreateStep(step, clock, mapper)
    requires CreateAll(store, tracked, requests, step, clock, mapper).result.Ok?
    ensures var orders := CreateAll(store, tracked, requests, step, clock, mapper).result.value;
            forall i :: 0 <= i < |requests| ==>
              && orders[i].details == mapper.create(requests[i])
              && orders[i].createdBy == Actor && orders[i].updatedBy == Actor && orders[i].createdAt == clock.now
    decreases |requests|
  {
    if |requests| > 0 {
      var first := step(store, tracked, requests[0]);
      CreatedOrdersFollowRequests(first.store, first.tracked, requests[1..], step, clock, mapper);
      var r := CreateAll(store, tracked, requests, step, clock, mapper);
      var rest := CreateAll(first.store, first.tracked, requests[1..], step, clock, mapper);
      assert r.result.value == [first.result.value] + rest.result.value;
      forall i | 1 <= i < |requests|
        ensures r.result.value[i].details == mapper.create(requests[i])
        ensures r.result.value[i].createdBy == Actor && r.result.value[i].updatedBy == Actor
        ensures r.result.value[i].createdAt == clock.now
      {
        assert r.result.value[i] == rest.result.value[i - 1] && requests[i] == requests[1..][i - 1];
      }
    }
  }

  /**
   * On success the status log keeps its rows and gains one "New" entry per
   * created order, in the order the orders were created.
   */
  lemma {:induction false} CreatedOrdersStartNew(store: Store, tracked: seq<string>, requests: seq<CreateOrderRequest>, step: CreateStep,
                                                 clock: Clock, mapper: Mapper)
    requires IsCreateStep(step, clock, mapper)
    requires CreateAll(store, tracked, requests, step, clock, mapper).result.Ok?
    ensures var r := CreateAll(store, tracked, requests, step, clock, mapper);
            && r.store.statuses[..|store.statuses|] == store.statuses
            && forall i :: 0 <= i < |requests| ==>
                 && r.store.statuses[|store.statuses| + i].orderId == r.result.value[i].orderId
                 && r.store.statuses[|store.statuses| + i].status == "New"
    decreases |requests|
  {
    if |requests| > 0 {
      var first := step(store, tracked, requests[0]);
      CreatedOrdersStartNew(first.store, first.tracked, requests[1..], step, clock, mapper);
      var r := CreateAll(store, tracked, requests, step, clock, mapper);
      var rest := CreateAll(first.store, first.tracked, requests[1..], step, clock, mapper);
      var n := |store.statuses|;
      assert r == Run(Ok([first.result.value] + rest.result.value), rest.store);
      assert rest.store.statuses[..n] == store.statuses by {
        assert rest.store.statuses[..n + 1][..n] == rest.store.statuses[..n];
      }
      forall i | 1 <= i < |requests|
        ensures r.store.statuses[n + i].orderId == r.result.value[i].orderId
        ensures r.store.statuses[n + i].status == "New"
      {
        assert r.result.value[i] == rest.result.value[i - 1];
        assert r.store.statuses[n + i] == rest.store.statuses[(n + 1) + (i - 1)];
      }
    }
  }

  /** Creating a whole batch keeps every order key unique and every status pointing at an order. */
  lemma {:induction false} CreateAllPreservesValidStore(store: Store, tracked: seq<string>, requests: seq<CreateOrderRequest>, step: CreateStep,
                                                        clock: Clock, mapper: Mapper)
    requires IsCreateStep(step, clock, mapper) && ValidStore(store)
    ensures ValidStore(CreateAll(store, tracked, requests, step, clock, mapper).store)
    decreases |requests|
  {
    if |requests| > 0 {
      var first := step(store, tracked, requests[0]);
      if first.result.Ok? {
        var order := first.result.value;
        AddOrderKeepsValid(store, order, NewStatusEntry(store, order.orderId, "New", None, None, clock.now, Actor));
        CreateAllPreservesValidStore(first.store, first.tracked, requests[1..], step, clock, mapper);
      }
    }
  }

  /**
   * `CreateBatchOrders`: the first invalid item is reported with its index
   * and no transaction is opened; otherwise every order is created inside
   * one transaction and returned in input order, and any exception rolls
   * the whole batch back and is answered 500 with its message.
   */
  function CreateBatch(store: Store, requests: seq<CreateOrderRequest>, validatedAt: int, clock: Clock,
                       mapper: Mapper): (r: BatchReply)
    ensures r.response.body.InvalidItem? <==> exists i :: 0 <= i < |requests| && !CreateOrderIsValid(requests[i], validatedAt)
    ensures r.response.body.InvalidItem? ==>
              var i := r.response.body.itemIndex;
              && i < |requests| && !CreateOrderIsValid(requests[i], validatedAt)
              && (forall j :: 0 <= j < i ==> CreateOrderIsValid(requests[j], validatedAt))
              && r == BatchReply(Response(BadRequest, InvalidItem(ItemMessage(i), CreateOrderErrors(requests[i], validatedAt), i)),
                                 store, [])
    ensures !r.response.body.InvalidItem? ==> r == CreateTransaction(store, requests, clock, mapper)
  {
    match FirstInvalidCreate(requests, validatedAt)
    case Some(i) =>
      BatchReply(Response(BadRequest, InvalidItem(ItemMessage(i), CreateOrderErrors(requests[i], validatedAt), i)), store, [])
    case None => CreateTransaction(store, requests, clock, mapper)
  }

  /**
   * The transaction around the loop: committed with the created orders
   * when every create succeeded, otherwise rolled back to the store the
   * batch started from and answered 500 with the exception's message.
   */
  function CreateTransaction(store: Store, requests: seq<CreateOrderRequest>, clock: Clock, mapper: Mapper): (r: BatchReply)
    ensures !r.response.body.InvalidItem?
    ensures var run := CreateAll(store, [], requests, CreateInBatch(clock, mapper), clock, mapper);
            && (run.result.Ok? ==> r == BatchReply(Response(Created, OrderList(run.result.value)), run.store, CommitPath))
            && (run.result.Err? ==>
                  r == BatchReply(Response(InternalServerError, Failed(CreationFailedMessage, run.result.error.message)),
                                  store, RollbackPath))
  {
    var run := CreateAll(store, [], requests, CreateInBatch(clock, mapper), clock, mapper);
    match run.result
    case Ok(orders) => BatchReply(Response(Created, OrderList(orders)), run.store, CommitPath)
    case Err(e) => BatchReply(Response(InternalServerError, Failed(CreationFailedMessage, e.message)), store, RollbackPath)
  }

  lemma CreateBatchIsAllOrNothing(store: Store, requests: seq<CreateOrderRequest>, validatedAt: int, clock: Clock,
                                  mapper: Mapper)
    ensures var r := CreateBatch(store, requests, validatedAt, clock, mapper);
            && (r.response.status == Created ==>
                  && r.events == CommitPath
                  && |r.response.body.orders| == |requests|
                  && r.store.orders == store.orders + r.response.body.orders)
            && (r.response.status != Created ==> r.store == store && Committed !in r.events)
  {
  }

  /**
   * The stalled numbering inside one batch: the first create takes
   * `...-100000`, the second proposes it again, and the context, which
   * already tracks that order, refuses it at `Add`. The batch is rolled
   * back and answered 500 with the change tracker's message.
   */
  lemma BatchStallIsTrackingConflict(store: Store, first: CreateOrderRequest, second: CreateOrderRequest, clock: Clock,
                                     mapper: Mapper)
    requires OrderKeys(store.orders) == ["ORD-2025-99999"] && clock.year == 2025
    ensures CreateTransaction(store, [first, second], clock, mapper)
            == BatchReply(Response(InternalServerError, Failed(CreationFailedMessage, AlreadyTrackedMessage)), store, RollbackPath)
  {
    var a, b := "ORD-2025-99999", "ORD-2025-100000";
    OrderIds.StallFirstStep();
    OrderIds.NumberingStallsAfter99999();
    SecondCreateIsTracked(store, first, second, b, clock, mapper);
  }

  /**
   * Two creates in one batch where the first takes `b` and the store
   * with `b` added proposes `b` again: the second is refused at `Add`.
   */
  lemma SecondCreateIsTracked(store: Store, first: CreateOrderRequest, second: CreateOrderRequest, b: string,
                              clock: Clock, mapper: Mapper)
    requires OrderIds.GenerateOrderId(OrderKeys(store.orders), clock.year) == Ok(b)
    requires b !in OrderKeys(store.orders)
    requires OrderIds.GenerateOrderId(OrderKeys(store.orders) + [b], clock.year) == Ok(b)
    ensures CreateTransaction(store, [first, second], clock, mapper)
            == BatchReply(Response(InternalServerError, Failed(CreationFailedMessage, AlreadyTrackedMessage)), store, RollbackPath)
  {
    var step := CreateInBatch(clock, mapper);
    var one := step(store, [], first);
    CreateTakesFreshId(store, [], first, b, clock, mapper);
    assert one == CreateOrder(store, AmbientTransaction, [], first, Actor, clock, mapper);
    TrackedCreateFails(one.store, one.tracked, second, b, clock, mapper);
    var rest := CreateAll(one.store, one.tracked, [second], step, clock, mapper);
    assert rest.result == Err(InvalidOperation(AlreadyTrackedMessage));
    assert [first, second][1..] == [second];
    assert CreateAll(store, [], [first, second], step, clock, mapper) == rest;
  }

  /** As the only request of the rest of a batch, a create whose id the context tracks fails with that conflict. */
  lemma TrackedCreateFails(store: Store, tracked: seq<string>, request: CreateOrderRequest, id: string, clock: Clock,
                           mapper: Mapper)
    requires OrderIds.GenerateOrderId(OrderKeys(store.orders), clock.year) == Ok(id) && id in tracked
    ensures CreateAll(store, tracked, [request], CreateInBatch(clock, mapper), clock, mapper).result
            == Err(InvalidOperation(AlreadyTrackedMessage))
  {
    var step := CreateInBatch(clock, mapper);
    assert step(store, tracked, request) == CreateOrder(store, AmbientTransaction, tracked, request, Actor, clock, mapper);
  }

  /** A create whose generated id is neither tracked nor stored succeeds and appends that id. */
  lemma CreateTakesFreshId(store: Store, tracked: seq<string>, request: CreateOrderRequest, id: string, clock: Clock,
                           mapper: Mapper)
    requires OrderIds.GenerateOrderId(OrderKeys(store.orders), clock.year) == Ok(id)
    requires id !in tracked && id !in OrderKeys(store.orders)
    ensures var one := CreateOrder(store, AmbientTransaction, tracked, request, Actor, clock, mapper);
            && one.result.Ok? && one.result.value.orderId == id && id in one.tracked
            && OrderKeys(one.store.orders) == OrderKeys(store.orders) + [id]
  {
    HasOrderIsKey(store, id);
    var one := CreateOrder(store, AmbientTransaction, tracked, request, Actor, clock, mapper);
    KeysOfAppend(store.orders, one.result.value);
  }

  // ---- UpdateBatchOrders ----

  /** The update request built from a batch item: its version and assignee, every other member left unset. */
  function AsUpdate(item: BatchUpdateOrderRequest): (u: UpdateOrderRequest)
    ensures u.version == item.version && u.assignedEmployeeId == item.assignedEmployeeId
    ensures && u.requirements.None? && u.orderedQuantity.None? && u.manufacturedQuantity.None?
            && u.materialId.None? && u.colorId.None? && u.surfaceFinishingId.None? && u.leadTimeDays.None?
            && u.promisedDeliveryDate.None? && u.actualDeliveryDate.None? && u.quotedAmount.None?
            && u.quoteCurrency.None? && u.departmentId.None?
  {
    VersionOnlyUpdate(item.version, item.assignedEmployeeId)
  }

  function UpdateErrors(item: BatchUpdateOrderRequest): seq<Failure> {
    UpdateOrderErrors(AsUpdate(item))
  }

  /** The index of the first item whose update the validator refuses, if any. */
  function FirstInvalidUpdate(items: seq<BatchUpdateOrderRequest>): (r: Option<nat>)
    ensures r.None? <==> forall i :: 0 <= i < |items| ==> UpdateOrderIsValid(AsUpdate(items[i]))
    ensures r.Some? ==>
              && r.value < |items| && !UpdateOrderIsValid(AsUpdate(items[r.value]))
              && forall j :: 0 <= j < r.value ==> UpdateOrderIsValid(AsUpdate(items[j]))
  {
    FirstFailing(items, UpdateErrors)
  }

  /** One update of the batch loop: the store it runs in and the item, to the outcome. */
  type UpdateStep = (Store, BatchUpdateOrderRequest) -> UpdateOutcome

  /**
   * What the batch relies on from one update: a failure is an invalid
   * operation or a conflict and changes nothing, and a success re-stamps
   * the item's order and keeps every key and every other table.
   */
  predicate UpdatesOne(before: Store, item: BatchUpdateOrderRequest, out: UpdateOutcome, now: int) {
    && (out.result.Err? ==>
          out.store == before && (out.result.error.InvalidOperation? || out.result.error.DbUpdateConcurrency?))
    && (out.result.Ok? ==>
          var o := out.result.value;
          && o.orderId == item.orderId && HasOrder(before, item.orderId) && o.updatedBy == Actor && o.updatedAt == now
          && OrderKeys(out.store.orders) == OrderKeys(before.orders)
          && out.store.statuses == before.statuses && out.store.files == before.files && out.store.notes == before.notes)
  }

  ghost predicate IsUpdateStep(step: UpdateStep, now: int) {
    forall s, item {:trigger step(s, item)} :: UpdatesOne(s, item, step(s, item), now)
  }

  /** The single-order update, with only an item's version and assignee, meets what the batch relies on. */
  lemma UpdateOrderUpdatesOne(now: int, mapper: Mapper, regenerate: Order -> seq<byte>)
    ensures forall s: Store, item: BatchUpdateOrderRequest :: UpdatesOne(s, item, UpdateOrder(s, item.orderId, AsUpdate(item), Actor, now, mapper, regenerate), now)
  {
    forall s: Store, item: BatchUpdateOrderRequest ensures UpdatesOne(s, item, UpdateOrder(s, item.orderId, AsUpdate(item), Actor, now, mapper, regenerate), now) {
      if UpdateOrder(s, item.orderId, AsUpdate(item), Actor, now, mapper, regenerate).result.Ok? {
        KeysKeptByUpdate(s, item, now, mapper, regenerate);
      }
    }
  }

  /** The single-order update as a batch item runs it: with only the item's version and assignee, as the batch's actor. */
  function UpdateInBatch(now: int, mapper: Mapper, regenerate: Order -> seq<byte>): (step: UpdateStep)
    ensures IsUpdateStep(step, now)
  {
    UpdateOrderUpdatesOne(now, mapper, regenerate);
    (s: Store, item: BatchUpdateOrderRequest) => UpdateOrder(s, item.orderId, AsUpdate(item), Actor, now, mapper, regenerate)
  }

  /** Stores with the same order keys hold the same orders. */
  lemma SameKeysSameOrders(a: Store, b: Store)
    requires OrderKeys(a.orders) == OrderKeys(b.orders)
    ensures forall id :: HasOrder(a, id) <==> HasOrder(b, id)
  {
    forall id ensures HasOrder(a, id) <==> HasOrder(b, id) {
      if HasOrder(a, id) {
        var i :| 0 <= i < |a.orders| && a.orders[i].orderId == id;
        assert OrderKeys(b.orders)[i] == id;
      }
      if HasOrder(b, id) {
        var i :| 0 <= i < |b.orders| && b.orders[i].orderId == id;
        assert OrderKeys(a.orders)[i] == id;
      }
    }
  }

  /**
   * The `foreach` of the batch update, stopping at the first exception with
   * the writes so far in place. On success there is one result per item and
   * no order is added, removed or re-keyed.
   */
  function UpdateAll(store: Store, items: seq<BatchUpdateOrderRequest>, step: UpdateStep, now: int): (r: Run<Order>)
    requires IsUpdateStep(step, now)
    ensures r.result.Err? ==> r.result.error.InvalidOperation? || r.result.error.DbUpdateConcurrency?
    ensures r.result.Ok? ==>
              && |r.result.value| == |items|
              && OrderKeys(r.store.orders) == OrderKeys(store.orders)
              && r.store.statuses == store.statuses && r.store.files == store.files && r.store.notes == store.notes
    decreases |items|
  {
    if |items| == 0 then Run(Ok([]), store)
    else
      var first := step(store, items[0]);
      if first.result.Err? then Run(Err(first.result.error), first.store)
      else
        var rest := UpdateAll(first.store, items[1..], step, now);
        if rest.result.Err? then rest
        else Run(Ok([first.result.value] + rest.result.value), rest.store)
  }

  /** On success the i-th result is the order the i-th item names, which existed, re-stamped by the batch. */
  lemma {:induction false} UpdatedOrdersFollowItems(store: Store, items: seq<BatchUpdateOrderRequest>, step: UpdateStep,
                                                    now: int)
    requires IsUpdateStep(step, now)
    requires UpdateAll(store, items, step, now).result.Ok?
    ensures var orders := UpdateAll(store, items, step, now).result.value;
            forall i :: 0 <= i < |items| ==>
              && orders[i].orderId == items[i].orderId && HasOrder(store, items[i].orderId)
              && orders[i].updatedBy == Actor && orders[i].updatedAt == now
    decreases |items|
  {
    if |items| > 0 {
      var first := step(store, items[0]);
      SameKeysSameOrders(first.store, store);
      UpdatedOrdersFollowItems(first.store, items[1..], step, now);
      var orders := UpdateAll(store, items, step, now).result.value;
      var rest := UpdateAll(first.store, items[1..], step, now);
      assert orders == [first.result.value] + rest.result.value;
      forall i | 1 <= i < |items|
        ensures orders[i].orderId == items[i].orderId && HasOrder(store, items[i].orderId)
        ensures orders[i].updatedBy == Actor && orders[i].updatedAt == now
      {
        assert orders[i] == rest.result.value[i - 1] && items[i] == items[1..][i - 1];
      }
    }
  }

  /** A successful single update keeps the key of every order. */
  lemma KeysKeptByUpdate(store: Store, item: BatchUpdateOrderRequest, now: int, mapper: Mapper,
                         regenerate: Order -> seq<byte>)
    requires UpdateOrder(store, item.orderId, AsUpdate(item), Actor, now, mapper, regenerate).result.Ok?
    ensures OrderKeys(UpdateOrder(store, item.orderId, AsUpdate(item), Actor, now, mapper, regenerate).store.orders)
            == OrderKeys(store.orders)
  {
    var after := UpdateOrder(store, item.orderId, AsUpdate(item), Actor, now, mapper, regenerate).store;
    assert forall j :: 0 <= j < |store.orders| ==> after.orders[j].orderId == store.orders[j].orderId;
  }

  /**
   * The `catch` clauses of the batch update: an invalid operation and a
   * stale version are both 400, with different messages; anything else is
   * 500. The exception's own message is always reported.
   */
  function UpdateFailure(e: Exception): (r: Response)
    ensures r.body == Failed(if e.DbUpdateConcurrency? then BatchConflictMessage else UpdateFailedMessage, e.message)
    ensures r.status == BadRequest <==> e.InvalidOperation? || e.DbUpdateConcurrency?
    ensures r.status != BadRequest ==> r.status == InternalServerError
  {
    match e
    case InvalidOperation(m) => Response(BadRequest, Failed(UpdateFailedMessage, m))
    case DbUpdateConcurrency(m) => Response(BadRequest, Failed(BatchConflictMessage, m))
    case _ => Response(InternalServerError, Failed(UpdateFailedMessage, e.message))
  }

  /**
   * `UpdateBatchOrders`: every item is validated as a version-and-assignee
   * update first; then every order is updated in one transaction, and the
   * first exception rolls the whole batch back.
   */
  function UpdateBatch(store: Store, items: seq<BatchUpdateOrderRequest>, now: int, mapper: Mapper,
                       regenerate: Order -> seq<byte>): (r: BatchReply)
    ensures r.response.body.InvalidItem? <==> exists i :: 0 <= i < |items| && !UpdateOrderIsValid(AsUpdate(items[i]))
    ensures r.response.body.InvalidItem? ==>
              var i := r.response.body.itemIndex;
              && i < |items| && !UpdateOrderIsValid(AsUpdate(items[i]))
              && (forall j :: 0 <= j < i ==> UpdateOrderIsValid(AsUpdate(items[j])))
              && r == BatchReply(Response(BadRequest, InvalidItem(ItemMessage(i), UpdateErrors(items[i]), i)), store, [])
    ensures !r.response.body.InvalidItem? ==>
              var run := UpdateAll(store, items, UpdateInBatch(now, mapper, regenerate), now);
              && (run.result.Ok? ==> r == BatchReply(Response(OK, OrderList(run.result.value)), run.store, CommitPath))
              && (run.result.Err? ==> r == BatchReply(UpdateFailure(run.result.error), store, RollbackPath))
  {
    match FirstInvalidUpdate(items)
    case Some(i) =>
      BatchReply(Response(BadRequest, InvalidItem(ItemMessage(i), UpdateErrors(items[i]), i)), store, [])
    case None =>
      var run := UpdateAll(store, items, UpdateInBatch(now, mapper, regenerate), now);
      match run.result
      case Ok(orders) => BatchReply(Response(OK, OrderList(orders)), run.store, CommitPath)
      case Err(e) => BatchReply(UpdateFailure(e), store, RollbackPath)
  }

  /**
   * Every failure of a validated batch update is answered 400 and rolled
   * back; the 500 branch is not reached, since the single update raises
   * only invalid operations and concurrency conflicts.
   */
  lemma UpdateBatchFailuresAreBadRequests(store: Store, items: seq<BatchUpdateOrderRequest>, now: int, mapper: Mapper,
                                          regenerate: Order -> seq<byte>)
    ensures var r := UpdateBatch(store, items, now, mapper, regenerate);
            && r.response.status in {OK, BadRequest}
            && (r.response.status == BadRequest ==> r.store == store && Committed !in r.events)
  {
  }

  /**
   * A stale version is a conflict (409) for the single-order endpoint but
   * a bad request (400) for the batch, which rolls back.
   */
  lemma StaleVersionInBatchIsBadRequest(store: Store, item: BatchUpdateOrderRequest, now: int, mapper: Mapper,
                                        regenerate: Order -> seq<byte>)
    requires UpdateOrderIsValid(AsUpdate(item)) && HasOrder(store, item.orderId)
    requires Base64.Decode(item.version).Some?
    requires Base64.Decode(item.version).value != CurrentOrder(store, item.orderId).value.version
    ensures UpdateBatch(store, [item], now, mapper, regenerate)
            == BatchReply(Response(BadRequest, Failed(BatchConflictMessage, StaleVersionMessage)), store, RollbackPath)
    ensures OrdersApi.UpdateOrderEndpoint(store, item.orderId, AsUpdate(item), now, mapper, regenerate).outcome.value.status
            == Conflict
  {
    assert UpdateErrors(item) == [];
    OrdersApi.StaleVersionIsConflict(store, item.orderId, AsUpdate(item), now, mapper, regenerate);
  }

  /**
   * Only the version and the assignee of a batch item reach the order: the
   * patch applied is the one for a version-and-assignee update, and two
   * items that agree on those two members and the order id update alike.
   */
  lemma BatchUpdateForwardsVersionAndAssignee(store: Store, item: BatchUpdateOrderRequest, now: int, mapper: Mapper,
                                              regenerate: Order -> seq<byte>)
    requires UpdateBatch(store, [item], now, mapper, regenerate).response.status == OK
    ensures var r := UpdateBatch(store, [item], now, mapper, regenerate);
            && |r.response.body.orders| == 1
            && r.response.body.orders[0].details
               == mapper.patch(VersionOnlyUpdate(item.version, item.assignedEmployeeId),
                               CurrentOrder(store, item.orderId).value.details)
  {
    var r := UpdateBatch(store, [item], now, mapper, regenerate);
    var single := UpdateOrder(store, item.orderId, AsUpdate(item), Actor, now, mapper, regenerate);
    assert UpdateErrors(item) == [];
    assert single.result.Ok?;
    assert UpdateInBatch(now, mapper, regenerate)(store, item) == single;
    assert UpdateAll(single.store, [item][1..], UpdateInBatch(now, mapper, regenerate), now) == Run(Ok([]), single.store);
  }

  // ---- CancelBatchOrders ----

  /** What the cancel loop produced: the position of the first id it could not cancel, if any, and the store. */
  datatype CancelRun = CancelRun(failed: Option<nat>, store: Store)

  /** The "Cancelled" entries a batch appends after `base` existing status rows, one per id, in order. */
  function CancelEntries(base: nat, orderIds: seq<string>, now: int): seq<OrderStatusEntry>
    decreases |orderIds|
  {
    if |orderIds| == 0 then []
    else [OrderStatusEntry(base + 1, orderIds[0], "Cancelled", None, None, now, Actor)]
         + CancelEntries(base + 1, orderIds[1..], now)
  }

  /** The k-th appended entry cancels the k-th id and is numbered after the `base` existing rows. */
  lemma {:induction false} CancelEntriesAreOnePerId(base: nat, orderIds: seq<string>, now: int)
    ensures |CancelEntries(base, orderIds, now)| == |orderIds|
    ensures forall k :: 0 <= k < |orderIds| ==>
              CancelEntries(base, orderIds, now)[k] == OrderStatusEntry(base + k + 1, orderIds[k], "Cancelled", None, None, now, Actor)
    decreases |orderIds|
  {
    if |orderIds| > 0 {
      CancelEntriesAreOnePerId(base + 1, orderIds[1..], now);
      var entries := CancelEntries(base, orderIds, now);
      forall k | 1 <= k < |orderIds|
        ensures entries[k] == OrderStatusEntry(base + k + 1, orderIds[k], "Cancelled", None, None, now, Actor)
      {
        assert entries[k] == CancelEntries(base + 1, orderIds[1..], now)[k - 1];
        assert orderIds[k] == orderIds[1..][k - 1];
      }
    }
  }

  /**
   * The `foreach` of the batch cancel: each id is cancelled in turn, and the
   * first unknown id stops the loop with the earlier cancellations still in
   * place.
   */
  function CancelAll(store: Store, orderIds: seq<string>, now: int): (r: CancelRun)
    ensures r.store.orders == store.orders && r.store.files == store.files && r.store.notes == store.notes
    ensures r.failed.None? <==> forall i :: 0 <= i < |orderIds| ==> HasOrder(store, orderIds[i])
    ensures r.failed.Some? ==>
              && r.failed.value < |orderIds| && !HasOrder(store, orderIds[r.failed.value])
              && forall j :: 0 <= j < r.failed.value ==> HasOrder(store, orderIds[j])
    ensures r.failed.None? ==> r.store.statuses == store.statuses + CancelEntries(|store.statuses|, orderIds, now)
    decreases |orderIds|
  {
    if |orderIds| == 0 then CancelRun(None, store)
    else
      var (cancelled, after) := CancelOrder(store, orderIds[0], Actor, None, now);
      if !cancelled then CancelRun(Some(0), after)
      else
        assert after.orders == store.orders;
        var rest := CancelAll(after, orderIds[1..], now);
        assert forall i :: 1 <= i < |orderIds| ==> orderIds[i] == orderIds[1..][i - 1];
        match rest.failed
        case Some(k) => CancelRun(Some(k + 1), rest.store)
        case None => rest
  }

  /**
   * `CancelBatchOrders`: a missing or empty list is refused without a
   * transaction; the first unknown id rolls back every cancellation and is
   * named in a 404; otherwise one "Cancelled" entry is appended per id and
   * the count is reported.
   */
  function CancelBatch(store: Store, orderIds: Option<seq<string>>, now: int): (r: BatchReply)
    ensures orderIds.None? || orderIds.value == [] ==>
              r == BatchReply(Response(BadRequest, Message(IdsRequiredMessage)), store, [])
    ensures orderIds.Some? && orderIds.value != [] ==>
              var ids := orderIds.value;
              && ((exists i :: 0 <= i < |ids| && !HasOrder(store, ids[i])) ==>
                    && r.store == store && r.events == RollbackPath && r.response.status == NotFound
                    && exists i :: 0 <= i < |ids| && !HasOrder(store, ids[i])
                                   && r.response.body == Message(OrderNotFoundMessage(ids[i]))
                                   && forall j :: 0 <= j < i ==> HasOrder(store, ids[j]))
              && ((forall i :: 0 <= i < |ids| ==> HasOrder(store, ids[i])) ==>
                    && r.response == Response(OK, Cancellations(IntToString(|ids|) + " orders cancelled successfully", ids))
                    && r.events == CommitPath
                    && r.store == store.(statuses := store.statuses + CancelEntries(|store.statuses|, ids, now)))
  {
    if orderIds.None? || orderIds.value == [] then
      BatchReply(Response(BadRequest, Message(IdsRequiredMessage)), store, [])
    else
      var ids := orderIds.value;
      var run := CancelAll(store, ids, now);
      match run.failed
      case Some(i) => BatchReply(Response(NotFound, Message(OrderNotFoundMessage(ids[i]))), store, RollbackPath)
      case None =>
        BatchReply(Response(OK, Cancellations(IntToString(|ids|) + " orders cancelled successfully", ids)), run.store,
                   CommitPath)
  }

  /** A committed batch cancel appends exactly one "Cancelled" entry per listed id, by the batch's actor, and nothing else. */
  lemma CancelBatchAppendsOnePerId(store: Store, orderIds: seq<string>, now: int)
    requires orderIds != [] && forall i :: 0 <= i < |orderIds| ==> HasOrder(store, orderIds[i])
    ensures var after := CancelBatch(store, Some(orderIds), now).store;
            && after.orders == store.orders && after.files == store.files && after.notes == store.notes
            && |after.statuses| == |store.statuses| + |orderIds|
            && after.statuses[..|store.statuses|] == store.statuses
            && forall k :: 0 <= k < |orderIds| ==>
                 var entry := after.statuses[|store.statuses| + k];
                 entry.orderId == orderIds[k] && entry.status == "Cancelled" && entry.updatedBy == Actor
                 && entry.internalNotes == None && entry.timestamp == now
  {
    CancelEntriesAreOnePerId(|store.statuses|, orderIds, now);
    var after := CancelBatch(store, Some(orderIds), now).store;
    assert after.statuses[..|store.statuses|] == store.statuses;
  }
}
