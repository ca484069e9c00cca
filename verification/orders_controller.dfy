/**
 * `OrdersController`: the endpoints that create, update and cancel a
 * single order, and how they turn validation failures and service results
 * into responses. Every call acts as the literal user "system" and runs
 * without an ambient transaction.
 */
module OrdersApi {
  import opened Wrappers
  import opened Exceptions
  import opened Entities
  import opened Transactions
  import opened Validators
  import opened OrderManagement
  import opened Http
  import Base64

  /** The user every endpoint acts as. */
  const Actor: string := "system"

  const UpdateConflictMessage: string := "Order has been modified by another user. Please refresh and try again."
  const CancelledMessage: string := "Order cancelled successfully"

  /** What an endpoint answered (or the exception that escaped it) and the store afterwards. */
  datatype Reply = Reply(outcome: Result<Response, Exception>, store: Store)

  /**
   * `CreateOrder`: an invalid request is answered with its failures before
   * the service is called; otherwise the new order is returned, and an
   * exception of the service escapes to the middleware, which reports an
   * internal error. `validatedAt` is the instant the validator was built.
   */
  function CreateOrderEndpoint(store: Store, request: CreateOrderRequest, validatedAt: int, clock: Clock,
                               mapper: Mapper): (r: Reply)
    ensures !CreateOrderIsValid(request, validatedAt) ==>
              r == Reply(Ok(Response(BadRequest, Invalid(CreateOrderErrors(request, validatedAt)))), store)
    ensures CreateOrderIsValid(request, validatedAt) ==>
              var created := CreateOrder(store, NoTransaction, [], request, Actor, clock, mapper);
              && r.store == created.store
              && (created.result.Ok? ==> r.outcome == Ok(Response(Created, OrderBody(created.result.value))))
              && (created.result.Err? ==> r.outcome == Err(created.result.error) && r.store == store)
    ensures r.outcome.Err? ==> r.store == store && !IsMapped(r.outcome.error)
  {
    if !CreateOrderIsValid(request, validatedAt) then
      Reply(Ok(Response(BadRequest, Invalid(CreateOrderErrors(request, validatedAt)))), store)
    else
      var created := CreateOrder(store, NoTransaction, [], request, Actor, clock, mapper);
      match created.result
      case Ok(order) => Reply(Ok(Response(Created, OrderBody(order))), created.store)
      case Err(e) => Reply(Err(e), created.store)
  }

  /** A create that fails in the service reaches the client as an internal error, with nothing stored. */
  lemma CreateFailureIsInternal(store: Store, request: CreateOrderRequest, validatedAt: int, clock: Clock, mapper: Mapper)
    requires CreateOrderIsValid(request, validatedAt)
    requires CreateOrder(store, NoTransaction, [], request, Actor, clock, mapper).result.Err?
    ensures var r := CreateOrderEndpoint(store, request, validatedAt, clock, mapper);
            && r.outcome.Err? && r.store == store && Invoke(r.outcome).status == InternalServerError
  {
  }

  /**
   * `UpdateOrder`: an invalid request is answered with its failures; an
   * invalid operation of the service (an unknown order or a version that
   * is not base 64) becomes 404 with its message, and a stale version 409.
   */
  function UpdateOrderEndpoint(store: Store, orderId: string, request: UpdateOrderRequest, now: int, mapper: Mapper,
                               regenerate: Order -> seq<byte>): (r: Reply)
    ensures !UpdateOrderIsValid(request) ==>
              r == Reply(Ok(Response(BadRequest, Invalid(UpdateOrderErrors(request)))), store)
    ensures UpdateOrderIsValid(request) ==> r.store == UpdateOrder(store, orderId, request, Actor, now, mapper, regenerate).store
    ensures r.outcome.Ok?
    ensures r.outcome.value.status == OK <==>
              UpdateOrderIsValid(request) && UpdateOrder(store, orderId, request, Actor, now, mapper, regenerate).result.Ok?
    ensures r.outcome.value.status != OK ==> r.store == store
  {
    var errors := UpdateOrderErrors(request);
    if errors != [] then
      Reply(Ok(Response(BadRequest, Invalid(errors))), store)
    else
      var updated := UpdateOrder(store, orderId, request, Actor, now, mapper, regenerate);
      match updated.result
      case Ok(order) => Reply(Ok(Response(OK, OrderBody(order))), updated.store)
      case Err(InvalidOperation(m)) => Reply(Ok(Response(NotFound, Message(m))), updated.store)
      case Err(DbUpdateConcurrency(_)) => Reply(Ok(Response(Conflict, Message(UpdateConflictMessage))), updated.store)
      case Err(e) => Reply(Err(e), updated.store)
  }

  /**
   * A valid update of an unknown order and a valid update whose version is
   * not base 64 are both answered 404, because the service raises the same
   * exception type for both; only the message tells them apart.
   */
  lemma UnknownOrderAndMalformedVersionAreNotFound(store: Store, orderId: string, request: UpdateOrderRequest, now: int,
                                                   mapper: Mapper, regenerate: Order -> seq<byte>)
    requires UpdateOrderIsValid(request)
    requires !HasOrder(store, orderId) || Base64.Decode(request.version).None?
    ensures var r := UpdateOrderEndpoint(store, orderId, request, now, mapper, regenerate);
            && r.store == store
            && (!HasOrder(store, orderId) ==> r.outcome == Ok(Response(NotFound, Message(OrderNotFoundMessage(orderId)))))
            && (HasOrder(store, orderId) ==> r.outcome == Ok(Response(NotFound, Message(InvalidVersionMessage(orderId)))))
  {
  }

  /** A valid update carrying a well-formed but stale version is answered 409 and changes nothing. */
  lemma StaleVersionIsConflict(store: Store, orderId: string, request: UpdateOrderRequest, now: int, mapper: Mapper,
                               regenerate: Order -> seq<byte>)
    requires UpdateOrderIsValid(request) && HasOrder(store, orderId)
    requires Base64.Decode(request.version).Some?
    requires Base64.Decode(request.version).value != CurrentOrder(store, orderId).value.version
    ensures UpdateOrderEndpoint(store, orderId, request, now, mapper, regenerate)
            == Reply(Ok(Response(Conflict, Message(UpdateConflictMessage))), store)
  {
  }

  /** A valid update that sends back the base 64 text of the stored version succeeds. */
  lemma CurrentVersionIsUpdated(store: Store, orderId: string, request: UpdateOrderRequest, now: int, mapper: Mapper,
                                regenerate: Order -> seq<byte>)
    requires UpdateOrderIsValid(request) && HasOrder(store, orderId)
    requires request.version == Base64.Encode(CurrentOrder(store, orderId).value.version)
    ensures UpdateOrderEndpoint(store, orderId, request, now, mapper, regenerate).outcome.value.status == OK
  {
    CurrentVersionAccepted(store, orderId, request, Actor, now, mapper, regenerate);
  }

  /** An invalid request is refused before the store is read: the answer is the same for every store. */
  lemma InvalidUpdateIgnoresStore(s1: Store, s2: Store, orderId: string, request: UpdateOrderRequest, now: int,
                                  mapper: Mapper, regenerate: Order -> seq<byte>)
    requires !UpdateOrderIsValid(request)
    ensures UpdateOrderEndpoint(s1, orderId, request, now, mapper, regenerate).outcome
            == UpdateOrderEndpoint(s2, orderId, request, now, mapper, regenerate).outcome
  {
  }

  /** `CancelOrder` (DELETE): 404 when the service reports an unknown order, otherwise 200; no reason is recorded. */
  function CancelOrderEndpoint(store: Store, orderId: string, now: int): (r: Reply)
    ensures r.outcome.Ok?
    ensures !HasOrder(store, orderId) ==>
              r == Reply(Ok(Response(NotFound, Message(OrderNotFoundMessage(orderId)))), store)
    ensures HasOrder(store, orderId) ==>
              && r.outcome.value == Response(OK, Message(CancelledMessage))
              && r.store == CancelOrder(store, orderId, Actor, None, now).1
  {
    var (cancelled, after) := CancelOrder(store, orderId, Actor, None, now);
    if !cancelled then Reply(Ok(Response(NotFound, Message(OrderNotFoundMessage(orderId)))), after)
    else Reply(Ok(Response(OK, Message(CancelledMessage))), after)
  }

  /**
   * `CancelOrderWithReason` (POST): the same outcomes, but the request's
   * reason is forwarded to the service and echoed back; its customer notes
   * are not used.
   */
  function CancelOrderWithReasonEndpoint(store: Store, orderId: string, request: CancelOrderRequest, now: int): (r: Reply)
    ensures r.outcome.Ok?
    ensures !HasOrder(store, orderId) ==>
              r == Reply(Ok(Response(NotFound, Message(OrderNotFoundMessage(orderId)))), store)
    ensures HasOrder(store, orderId) ==>
              && r.outcome.value == Response(OK, MessageWithReason(CancelledMessage, request.cancellationReason))
              && r.store == CancelOrder(store, orderId, Actor, Some(request.cancellationReason), now).1
  {
    var (cancelled, after) := CancelOrder(store, orderId, Actor, Some(request.cancellationReason), now);
    if !cancelled then Reply(Ok(Response(NotFound, Message(OrderNotFoundMessage(orderId)))), after)
    else Reply(Ok(Response(OK, MessageWithReason(CancelledMessage, request.cancellationReason))), after)
  }

  /**
   * The two cancel endpoints agree on the status and on every row except
   * the internal note of the appended "Cancelled" entry, which only the
   * POST variant fills with the reason.
   */
  lemma CancelEndpointsDifferOnlyInReason(store: Store, orderId: string, request: CancelOrderRequest, now: int)
    ensures var plain := CancelOrderEndpoint(store, orderId, now);
            var reasoned := CancelOrderWithReasonEndpoint(store, orderId, request, now);
            && plain.outcome.value.status == reasoned.outcome.value.status
            && plain.store.orders == reasoned.store.orders
            && |plain.store.statuses| == |reasoned.store.statuses|
            && (HasOrder(store, orderId) ==>
                  var last := |store.statuses|;
                  && plain.store.statuses[..last] == reasoned.store.statuses[..last] == store.statuses
                  && plain.store.statuses[last].internalNotes == None
                  && reasoned.store.statuses[last] == plain.store.statuses[last].(internalNotes := Some(request.cancellationReason))
                  && reasoned.store.statuses[last].customerNotes == None)
  {
    if HasOrder(store, orderId) {
      var plain := CancelOrderEndpoint(store, orderId, now);
      var reasoned := CancelOrderWithReasonEndpoint(store, orderId, request, now);
      assert plain.store.statuses[..|store.statuses|] == store.statuses;
      assert reasoned.store.statuses[..|store.statuses|] == store.statuses;
    }
  }
}
