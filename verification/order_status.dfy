/**
 * The status log of an order (`OrderStatusService`): the history in time
 * order, the current status as the latest entry, and appending a status
 * that differs from the current one.
 */
module OrderStatuses {
  import opened Wrappers
  import opened Exceptions
  import opened Sequences
  import opened Entities
  import OrderManagement

  function OfOrder(orderId: string): OrderStatusEntry -> bool {
    (e: OrderStatusEntry) => e.orderId == orderId
  }

  function TimestampKey(e: OrderStatusEntry): int {
    e.timestamp
  }

  /** `GetOrderStatusHistoryAsync`: the entries of the order, oldest first. */
  function History(store: Store, orderId: string): (r: seq<OrderStatusEntry>)
    ensures SortedBy(r, TimestampKey, false)
    ensures forall x :: multiset(r)[x] == if x.orderId == orderId then multiset(store.statuses)[x] else 0
  {
    SortBy(Filter(store.statuses, OfOrder(orderId)), TimestampKey, false)
  }

  /**
   * The `OrderByDescending(Timestamp).FirstOrDefault()` of the order's
   * entries: `None` when the log is empty, otherwise an entry of the order
   * with the latest timestamp.
   */
  function CurrentStatus(store: Store, orderId: string): (r: Option<OrderStatusEntry>)
    ensures r.None? <==> forall i :: 0 <= i < |store.statuses| ==> store.statuses[i].orderId != orderId
    ensures r.Some? ==> r.value in store.statuses && r.value.orderId == orderId
    ensures r.Some? ==> forall i :: 0 <= i < |store.statuses| && store.statuses[i].orderId == orderId ==>
                          store.statuses[i].timestamp <= r.value.timestamp
  {
    var entries := Filter(store.statuses, OfOrder(orderId));
    var latest := SortBy(entries, TimestampKey, true);
    if |latest| == 0 then
      NoEntries(store, orderId);
      None
    else
      LatestIsCurrent(store, orderId, latest);
      Some(latest[0])
  }

  /** An empty filtered log means the order has no entry at all. */
  lemma NoEntries(store: Store, orderId: string)
    requires |Filter(store.statuses, OfOrder(orderId))| == 0
    ensures forall i :: 0 <= i < |store.statuses| ==> store.statuses[i].orderId != orderId
  {
    forall i | 0 <= i < |store.statuses| ensures store.statuses[i].orderId != orderId {
      assert store.statuses[i] in multiset(store.statuses);
    }
  }

  /** The head of the newest-first log is an entry of the order, no older than any other. */
  lemma LatestIsCurrent(store: Store, orderId: string, latest: seq<OrderStatusEntry>)
    requires latest == SortBy(Filter(store.statuses, OfOrder(orderId)), TimestampKey, true) && |latest| > 0
    ensures latest[0] in store.statuses && latest[0].orderId == orderId
    ensures forall i :: 0 <= i < |store.statuses| && store.statuses[i].orderId == orderId ==>
              store.statuses[i].timestamp <= latest[0].timestamp
  {
    var entries := Filter(store.statuses, OfOrder(orderId));
    var head := latest[0];
    assert head in multiset(entries);
    assert multiset(store.statuses)[head] > 0;
    forall i | 0 <= i < |store.statuses| && store.statuses[i].orderId == orderId
      ensures store.statuses[i].timestamp <= head.timestamp
    {
      var x := store.statuses[i];
      assert multiset(latest)[x] == multiset(store.statuses)[x] > 0;
      SortedHeadIsExtreme(latest, TimestampKey, true, x);
    }
  }

  function AlreadyInStatusMessage(status: string): string {
    "Order is already in " + status + " status"
  }

  datatype StatusOutcome = StatusOutcome(result: Result<OrderStatusEntry, Exception>, store: Store)

  /**
   * `CreateOrderStatusAsync`: the order must exist and the requested status
   * must differ from the current one; any other transition is accepted. The
   * new entry copies the request's status and notes.
   */
  function CreateOrderStatus(store: Store, orderId: string, request: CreateOrderStatusRequest, actor: string,
                             now: int): (r: StatusOutcome)
    ensures r.result.Err? ==> r.store == store
    ensures !HasOrder(store, orderId) ==> r.result == Err(InvalidOperation(OrderNotFoundMessage(orderId)))
    ensures HasOrder(store, orderId) && CurrentStatus(store, orderId).Some?
            && CurrentStatus(store, orderId).value.status == request.status ==>
              r.result == Err(InvalidOperation(AlreadyInStatusMessage(request.status)))
    ensures r.result.Ok? <==>
              HasOrder(store, orderId)
              && (CurrentStatus(store, orderId).None? || CurrentStatus(store, orderId).value.status != request.status)
    ensures r.result.Ok? ==>
              && r.result.value == OrderManagement.NewStatusEntry(store, orderId, request.status, request.internalNotes,
                                                                  request.customerNotes, now, actor)
              && r.store == store.(statuses := store.statuses + [r.result.value])
  {
    if !HasOrder(store, orderId) then
      StatusOutcome(Err(InvalidOperation(OrderNotFoundMessage(orderId))), store)
    else
      var current := CurrentStatus(store, orderId);
      if current.Some? && current.value.status == request.status then
        StatusOutcome(Err(InvalidOperation(AlreadyInStatusMessage(request.status))), store)
      else
        var entry := OrderManagement.NewStatusEntry(store, orderId, request.status, request.internalNotes,
                                                    request.customerNotes, now, actor);
        StatusOutcome(Ok(entry), store.(statuses := store.statuses + [entry]))
  }

  /** An entry stamped later than every earlier entry of its order becomes the current status. */
  lemma LatestEntryBecomesCurrent(store: Store, entry: OrderStatusEntry)
    requires forall i :: 0 <= i < |store.statuses| && store.statuses[i].orderId == entry.orderId ==>
               store.statuses[i].timestamp < entry.timestamp
    ensures CurrentStatus(store.(statuses := store.statuses + [entry]), entry.orderId) == Some(entry)
  {
    var grown := store.(statuses := store.statuses + [entry]);
    assert grown.statuses[|store.statuses|] == entry;
  }

  /** Setting a status and then the same status again, later, is refused the second time. */
  lemma SameStatusTwiceRefused(store: Store, orderId: string, request: CreateOrderStatusRequest, actor: string,
                               now: int, later: int)
    requires HasOrder(store, orderId)
    requires forall i :: 0 <= i < |store.statuses| && store.statuses[i].orderId == orderId ==>
               store.statuses[i].timestamp < now
    requires CreateOrderStatus(store, orderId, request, actor, now).result.Ok?
    ensures var first := CreateOrderStatus(store, orderId, request, actor, now);
            CreateOrderStatus(first.store, orderId, request, actor, later).result
              == Err(InvalidOperation(AlreadyInStatusMessage(request.status)))
  {
    var first := CreateOrderStatus(store, orderId, request, actor, now);
    LatestEntryBecomesCurrent(store, first.result.value);
  }

  /** The first status of an order with an empty log is always accepted. */
  lemma EmptyLogAcceptsAnyStatus(store: Store, orderId: string, request: CreateOrderStatusRequest, actor: string, now: int)
    requires HasOrder(store, orderId)
    requires forall i :: 0 <= i < |store.statuses| ==> store.statuses[i].orderId != orderId
    ensures CreateOrderStatus(store, orderId, request, actor, now).result.Ok?
  {
  }

  /** Appending a status of an existing order keeps the store valid. */
  lemma CreateStatusPreservesValidStore(store: Store, orderId: string, request: CreateOrderStatusRequest,
                                        actor: string, now: int)
    requires ValidStore(store)
    ensures ValidStore(CreateOrderStatus(store, orderId, request, actor, now).store)
  {
  }

  /** The history ends with an entry as recent as the current status. */
  lemma HistoryEndsAtCurrent(store: Store, orderId: string)
    requires |History(store, orderId)| > 0
    ensures var h := History(store, orderId);
            CurrentStatus(store, orderId).Some?
            && h[|h| - 1].timestamp == CurrentStatus(store, orderId).value.timestamp
  {
    var h := History(store, orderId);
    var last := h[|h| - 1];
    var c := CurrentStatus(store, orderId);
    assert c.Some? by {
      assert multiset(h)[last] > 0;
      assert last.orderId == orderId && last in multiset(store.statuses);
    }
    assert last.timestamp <= c.value.timestamp by {
      assert multiset(store.statuses)[last] == multiset(h)[last] > 0;
      var k :| 0 <= k < |store.statuses| && store.statuses[k] == last;
    }
    assert c.value.timestamp <= last.timestamp by {
      assert multiset(h)[c.value] == multiset(store.statuses)[c.value] > 0;
      SortedLastIsExtreme(h, TimestampKey, false, c.value);
    }
  }

  /** After a cancel stamped later than the whole log, the order's current status is "Cancelled". */
  lemma CancelledIsCurrent(store: Store, orderId: string, actor: string, reason: Option<string>, now: int)
    requires HasOrder(store, orderId)
    requires forall i :: 0 <= i < |store.statuses| && store.statuses[i].orderId == orderId ==>
               store.statuses[i].timestamp < now
    ensures var cancelled := OrderManagement.CancelOrder(store, orderId, actor, reason, now).1;
            CurrentStatus(cancelled, orderId).Some? && CurrentStatus(cancelled, orderId).value.status == "Cancelled"
  {
    LatestEntryBecomesCurrent(store, OrderManagement.NewStatusEntry(store, orderId, "Cancelled", reason, None, now, actor));
  }
}
