/** The ownership-scoped reads of the orders table. */
module Queries {
  import opened Domain

  /** Every row is stored under its own primary key. */
  predicate KeyedById(orders: map<int, Order>)
  {
    forall id | id in orders :: orders[id].id == id
  }

  /** The order with this id, if the given user owns it; otherwise 404, whether absent or foreign. */
  function FindOwnedOrder(orders: map<int, Order>, orderId: int, owner: int): (r: Result<Order>)
    ensures r.Ok? <==> orderId in orders && orders[orderId].userId == owner
    ensures r.Ok? ==> r.value == orders[orderId]
    ensures r.Err? ==> r.error == NotFound
  {
    if orderId in orders && orders[orderId].userId == owner then Ok(orders[orderId]) else Err(NotFound)
  }

  /** An order owned by someone else is reported exactly as an id that does not exist. */
  lemma ForeignOrderLooksAbsent(orders: map<int, Order>, foreignId: int, absentId: int, owner: int)
    requires foreignId in orders && orders[foreignId].userId != owner
    requires absentId !in orders
    ensures FindOwnedOrder(orders, foreignId, owner) == FindOwnedOrder(orders, absentId, owner)
  {
  }

  /**
   * The orders of `owner` with ids in [lo, hi), by ascending id: only that
   * owner's rows, as stored, every one of them, each once.
   */
  function OrdersOf(orders: map<int, Order>, owner: int, lo: int, hi: int): (r: seq<Order>)
    requires KeyedById(orders)
    decreases hi - lo
    ensures forall k | 0 <= k < |r| ::
              lo <= r[k].id < hi && r[k].id in orders && orders[r[k].id] == r[k] && r[k].userId == owner
    ensures forall id | lo <= id < hi && id in orders && orders[id].userId == owner :: orders[id] in r
    ensures forall i, j | 0 <= i < j < |r| :: r[i].id < r[j].id
  {
    if lo >= hi then []
    else
      var rest := OrdersOf(orders, owner, lo + 1, hi);
      if lo in orders && orders[lo].userId == owner then [orders[lo]] + rest else rest
  }

  /** Reading one order by id and listing agree: an id is readable exactly when it is listed. */
  lemma GetAgreesWithList(orders: map<int, Order>, owner: int, lo: int, hi: int, orderId: int)
    requires KeyedById(orders) && lo <= orderId < hi
    ensures FindOwnedOrder(orders, orderId, owner).Ok?
            <==> exists k | 0 <= k < |OrdersOf(orders, owner, lo, hi)| :: OrdersOf(orders, owner, lo, hi)[k].id == orderId
  {
    var r := OrdersOf(orders, owner, lo, hi);
    if orderId in orders && orders[orderId].userId == owner {
      var k :| 0 <= k < |r| && r[k] == orders[orderId];
      assert r[k].id == orderId;
    }
  }
}
