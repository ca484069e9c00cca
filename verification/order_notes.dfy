/**
 * The notes of an order (`OrderNoteService`): the notes newest first, and
 * adding a note to an existing order.
 */
module OrderNotes {
  import opened Wrappers
  import opened Exceptions
  import opened Sequences
  import opened Entities

  function IsNoteOf(orderId: string): OrderNote -> bool {
    (n: OrderNote) => n.orderId == orderId
  }

  function CreatedAtKey(n: OrderNote): int {
    n.createdAt
  }

  /** `GetOrderNotesAsync`: the order's notes, newest first. */
  function GetOrderNotes(store: Store, orderId: string): (r: seq<OrderNote>)
    ensures SortedBy(r, CreatedAtKey, true)
    ensures forall x :: multiset(r)[x] == if x.orderId == orderId then multiset(store.notes)[x] else 0
  {
    SortBy(Filter(store.notes, IsNoteOf(orderId)), CreatedAtKey, true)
  }

  datatype NoteOutcome = NoteOutcome(result: Result<OrderNote, Exception>, store: Store)

  /**
   * `CreateOrderNoteAsync`: the order must exist; the note copies the
   * request's type and text unchecked and records the author and the time.
   */
  function CreateOrderNote(store: Store, orderId: string, request: CreateOrderNoteRequest, createdBy: string,
                           now: int): (r: NoteOutcome)
    ensures r.result.Ok? <==> HasOrder(store, orderId)
    ensures r.result.Err? ==> r.result.error == InvalidOperation(OrderNotFoundMessage(orderId)) && r.store == store
    ensures r.result.Ok? ==>
              var note := r.result.value;
              && note.noteId == |store.notes| + 1
              && note.orderId == orderId && note.noteType == request.noteType && note.noteText == request.noteText
              && note.createdBy == createdBy && note.createdAt == now
              && r.store == store.(notes := store.notes + [note])
  {
    if !HasOrder(store, orderId) then
      NoteOutcome(Err(InvalidOperation(OrderNotFoundMessage(orderId))), store)
    else
      var note := OrderNote(|store.notes| + 1, orderId, request.noteType, request.noteText, createdBy, now);
      NoteOutcome(Ok(note), store.(notes := store.notes + [note]))
  }

  /** Adding a note to an existing order keeps every note pointing at an order. */
  lemma CreateNotePreservesValidStore(store: Store, orderId: string, request: CreateOrderNoteRequest,
                                      createdBy: string, now: int)
    requires ValidStore(store)
    ensures ValidStore(CreateOrderNote(store, orderId, request, createdBy, now).store)
  {
  }

  /**
   * A new note is listed for its order, once more than before, and the
   * listings of other orders are unchanged.
   */
  lemma CreatedNoteIsListed(store: Store, orderId: string, request: CreateOrderNoteRequest, createdBy: string,
                            now: int, other: string)
    requires HasOrder(store, orderId) && other != orderId
    ensures var r := CreateOrderNote(store, orderId, request, createdBy, now);
            && multiset(GetOrderNotes(r.store, orderId)) == multiset(GetOrderNotes(store, orderId)) + multiset{r.result.value}
            && multiset(GetOrderNotes(r.store, other)) == multiset(GetOrderNotes(store, other))
  {
    var r := CreateOrderNote(store, orderId, request, createdBy, now);
    var note := r.result.value;
    FilterAppend(store.notes, [note], IsNoteOf(orderId));
    FilterAppend(store.notes, [note], IsNoteOf(other));
    assert Filter([note], IsNoteOf(orderId)) == [note];
    assert Filter([note], IsNoteOf(other)) == [];
  }
}
