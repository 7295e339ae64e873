/** The fallback rules shared by the two data-access hooks (useBirds, useEvents): what a list
    fetch stores and what a slug lookup returns, given what the backend answered. */
module Fetch {
  import opened Wrappers
  import opened Seqs

  /** The backend's answer to a list query (`select('*').order(...)`). */
  datatype ListReply<T> = Rows(rows: seq<T>) | ListFailed(message: string)

  /** The backend's answer to a single-row query (`eq('slug', slug).single()`), which fails
      unless exactly one row matches. */
  datatype RowReply<T> = Row(row: T) | RowFailed(message: string)

  /** The list a fetch stores: the mock list when no backend URL is configured, when the query
      fails, or when it returns no rows; the returned rows otherwise. */
  function FetchedList<T>(hasBackend: bool, reply: ListReply<T>, mocks: seq<T>): (list: seq<T>)
    ensures !hasBackend || reply.ListFailed? || (reply.Rows? && reply.rows == []) ==> list == mocks
    ensures hasBackend && reply.Rows? && reply.rows != [] ==> list == reply.rows
    ensures mocks != [] ==> list != []
  {
    if !hasBackend then mocks
    else match reply
      case ListFailed(_) => mocks
      case Rows(rows) => if |rows| > 0 then rows else mocks
  }

  /** The record a slug lookup returns: the backend's row when the query succeeds, otherwise
      the first mock whose slug matches, or None (`null`). */
  function LookedUp<T>(hasBackend: bool, reply: RowReply<T>, mocks: seq<T>, matches: T -> bool): (r: Option<T>)
    ensures hasBackend && reply.Row? ==> r == Some(reply.row)
    ensures !hasBackend || reply.RowFailed? ==>
      (r.None? <==> forall i :: 0 <= i < |mocks| ==> !matches(mocks[i]))
    ensures !hasBackend || reply.RowFailed? ==>
      r.Some? ==> r.value in mocks && matches(r.value)
  {
    if hasBackend && reply.Row? then Some(reply.row) else FindFirst(mocks, matches)
  }
}
