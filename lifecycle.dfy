/** The order status state machine and the log of status writes made to orders. */
module Lifecycle {

  /** The three values of the order status enumeration. */
  datatype OrderStatus = PENDING | PROCESSING | COMPLETED

  /** Position of a status along PENDING -> PROCESSING -> COMPLETED. */
  function Rank(s: OrderStatus): nat
  {
    match s
    case PENDING => 0
    case PROCESSING => 1
    case COMPLETED => 2
  }

  /**
   * The statuses an order has been written with, in order, once it holds `s`:
   * the k-th write has rank k, so the history moves forward one step at a
   * time, never repeats, never skips and ends in `s`.
   */
  function StatusesUpTo(s: OrderStatus): (h: seq<OrderStatus>)
    ensures |h| == Rank(s) + 1 && h[Rank(s)] == s
    ensures forall k | 0 <= k < |h| :: Rank(h[k]) == k
  {
    [PENDING, PROCESSING, COMPLETED][..Rank(s) + 1]
  }

  /** One write of a status value to the row of an order. */
  datatype StatusWrite = StatusWrite(orderId: int, status: OrderStatus)

  /** The statuses written to order `id`, in the order of the log. */
  function WritesFor(log: seq<StatusWrite>, id: int): seq<OrderStatus>
  {
    if log == [] then []
    else
      var last := log[|log| - 1];
      WritesFor(log[..|log| - 1], id) + (if last.orderId == id then [last.status] else [])
  }

  /** Appending a write extends the history of its own order and of no other. */
  lemma WritesForAppend(log: seq<StatusWrite>, w: StatusWrite, id: int)
    ensures WritesFor(log + [w], id)
         == WritesFor(log, id) + (if w.orderId == id then [w.status] else [])
  {
    assert (log + [w])[..|log|] == log;
  }

  /** An order that no write mentions has an empty history. */
  lemma {:induction false} WritesForUntouched(log: seq<StatusWrite>, id: int)
    requires forall k | 0 <= k < |log| :: log[k].orderId != id
    ensures WritesFor(log, id) == []
  {
    if log != [] {
      WritesForUntouched(log[..|log| - 1], id);
    }
  }

  /**
   * A history that is a lifecycle prefix, extended by one write, is again a
   * lifecycle prefix exactly when the write is the next status in line.
   */
  lemma ForwardStep(s: OrderStatus, t: OrderStatus)
    ensures StatusesUpTo(s) + [t] == StatusesUpTo(t) <==> Rank(t) == Rank(s) + 1
  {
    if Rank(t) == Rank(s) + 1 {
      assert StatusesUpTo(s) + [t] == [PENDING, PROCESSING, COMPLETED][..Rank(t) + 1];
    }
  }
}
