/**
 * Database transactions as the order engine sees them: whether one is
 * already open around a call, and the calls made on a transaction it owns.
 */
module Transactions {

  /** `Database.CurrentTransaction` at the start of a call. */
  datatype TxContext = NoTransaction | AmbientTransaction

  datatype TxEvent = Began | Committed | RolledBack | Disposed

  /**
   * The calls on the transaction a service method opens for itself: only
   * when none is ambient, committed only on success, disposed in every case
   * (disposal without commit rolls back).
   */
  function OwnedTransaction(tx: TxContext, succeeded: bool): (events: seq<TxEvent>)
    ensures tx.AmbientTransaction? <==> events == []
    ensures Committed in events <==> tx.NoTransaction? && succeeded
    ensures RolledBack !in events
    ensures tx.NoTransaction? ==> events[0] == Began && events[|events| - 1] == Disposed
  {
    if tx.AmbientTransaction? then []
    else if succeeded then [Began, Committed, Disposed]
    else [Began, Disposed]
  }
}
