/**
 * The database and the background-task runner: the users and orders tables,
 * the order id counter, the queue of background tasks, and the endpoints
 * that read and write them.
 */
module OrderService {
  import opened Lifecycle
  import opened Domain
  import opened Auth
  import opened Queries

  /**
   * A scheduled unit of background work. `ProcessTask(id)` is the task
   * enqueued at submission; running it performs the first half of order
   * processing and leaves `ResumeTask(id)`, the part after the delay.
   */
  datatype Task = ProcessTask(orderId: int) | ResumeTask(orderId: int)

  /** Steps left to run: two for a task not yet started, one for a resumed one. */
  function Work(tasks: seq<Task>): nat
  {
    if tasks == [] then 0
    else (if tasks[0].ProcessTask? then 2 else 1) + Work(tasks[1..])
  }

  lemma WorkOfHead(t: Task, rest: seq<Task>)
    ensures Work([t] + rest) == (if t.ProcessTask? then 2 else 1) + Work(rest)
  {
    assert ([t] + rest)[1..] == rest;
  }

  /** How many times `t` is queued. */
  function Occurrences(tasks: seq<Task>, t: Task): nat
  {
    if tasks == [] then 0
    else (if tasks[0] == t then 1 else 0) + Occurrences(tasks[1..], t)
  }

  lemma OccurrencesOfHead(head: Task, rest: seq<Task>, t: Task)
    ensures Occurrences([head] + rest, t) == (if head == t then 1 else 0) + Occurrences(rest, t)
  {
    assert ([head] + rest)[1..] == rest;
  }

  /** Appending a task adds one occurrence of it and of nothing else. */
  lemma {:induction false} OccurrencesAppend(tasks: seq<Task>, last: Task, t: Task)
    ensures Occurrences(tasks + [last], t) == Occurrences(tasks, t) + (if last == t then 1 else 0)
  {
    if tasks != [] {
      assert (tasks + [last])[1..] == tasks[1..] + [last];
      OccurrencesAppend(tasks[1..], last, t);
    }
  }

  /** A task that is queued has an index in the queue. */
  lemma {:induction false} OccurrenceHasIndex(tasks: seq<Task>, t: Task)
    requires Occurrences(tasks, t) > 0
    ensures exists k | 0 <= k < |tasks| :: tasks[k] == t
  {
    if tasks[0] != t {
      OccurrenceHasIndex(tasks[1..], t);
      var k :| 0 <= k < |tasks[1..]| && tasks[1..][k] == t;
      assert tasks[k + 1] == t;
    }
  }

  /**
   * Exactly one task is pending per order that still has work left: a
   * PENDING order has one unstarted task, a PROCESSING order one resumed
   * task, a COMPLETED order none.
   */
  predicate TasksMatch(tasks: seq<Task>, id: int, s: OrderStatus)
  {
    && Occurrences(tasks, ProcessTask(id)) == (if s == PENDING then 1 else 0)
    && Occurrences(tasks, ResumeTask(id)) == (if s == PROCESSING then 1 else 0)
  }

  /** Once no task is left, an order whose tasks match its status is COMPLETED. */
  lemma IdleMeansCompleted(id: int, s: OrderStatus)
    requires TasksMatch([], id, s)
    ensures s == COMPLETED
  {
  }

  /** An entry of the fixed seed list. */
  datatype SeedUser = SeedUser(username: string, hashedPassword: string)

  /** The fixed seed list; the hashes are computed by the foreign hashing library. */
  function FakeUsersDb(aliceHash: string, bobHash: string): seq<SeedUser>
  {
    [SeedUser("alice", aliceHash), SeedUser("bob", bobHash)]
  }

  /** Row k of the users table is seed entry k, with auto-incremented id k + 1. */
  predicate SeededFrom(users: seq<User>, seed: seq<SeedUser>)
  {
    && |users| == |seed|
    && forall k | 0 <= k < |users| :: users[k] == User(k + 1, seed[k].username, seed[k].hashedPassword)
  }

  predicate UsersNumbered(users: seq<User>)
  {
    forall k | 0 <= k < |users| :: users[k].id == k + 1
  }

  /** Every queued task and every logged write refers to an existing order. */
  predicate RefersToOrders(orders: map<int, Order>, tasks: seq<Task>, history: seq<StatusWrite>)
  {
    && (forall k | 0 <= k < |tasks| :: tasks[k].orderId in orders)
    && (forall k | 0 <= k < |history| :: history[k].orderId in orders)
  }

  /** Each order has exactly the task its status calls for. */
  predicate TasksTrackStatus(orders: map<int, Order>, tasks: seq<Task>)
  {
    forall id | id in orders :: TasksMatch(tasks, id, orders[id].status)
  }

  /** The statuses written to each order are PENDING, PROCESSING, COMPLETED up to its current one. */
  predicate HistoryTracksStatus(orders: map<int, Order>, history: seq<StatusWrite>)
  {
    forall id | id in orders :: WritesFor(history, id) == StatusesUpTo(orders[id].status)
  }

  /** The lifecycle invariant of the orders table, the task queue and the write log. */
  predicate LifecycleInvariant(orders: map<int, Order>, tasks: seq<Task>, history: seq<StatusWrite>)
  {
    RefersToOrders(orders, tasks, history) && TasksTrackStatus(orders, tasks) && HistoryTracksStatus(orders, history)
  }

  /** Creating a PENDING order with a new id and enqueuing its one task keeps the invariant. */
  lemma CreateKeepsInvariant(orders: map<int, Order>, tasks: seq<Task>, history: seq<StatusWrite>, order: Order)
    requires LifecycleInvariant(orders, tasks, history)
    requires order.id !in orders && order.status == PENDING
    ensures LifecycleInvariant(orders[order.id := order], tasks + [ProcessTask(order.id)],
                               history + [StatusWrite(order.id, PENDING)])
  {
    CreateKeepsTasks(orders, tasks, order);
    CreateKeepsHistory(orders, history, order);
  }

  lemma CreateKeepsTasks(orders: map<int, Order>, tasks: seq<Task>, order: Order)
    requires forall k | 0 <= k < |tasks| :: tasks[k].orderId in orders
    requires TasksTrackStatus(orders, tasks)
    requires order.id !in orders && order.status == PENDING
    ensures TasksTrackStatus(orders[order.id := order], tasks + [ProcessTask(order.id)])
  {
    var id := order.id;
    var orders', tasks' := orders[id := order], tasks + [ProcessTask(id)];
    forall other | other in orders'
      ensures TasksMatch(tasks', other, orders'[other].status)
    {
      OccurrencesAppend(tasks, ProcessTask(id), ProcessTask(other));
      OccurrencesAppend(tasks, ProcessTask(id), ResumeTask(other));
      if other == id {
        if Occurrences(tasks, ProcessTask(id)) > 0 {
          OccurrenceHasIndex(tasks, ProcessTask(id));
        }
        if Occurrences(tasks, ResumeTask(id)) > 0 {
          OccurrenceHasIndex(tasks, ResumeTask(id));
        }
      }
    }
  }

  lemma CreateKeepsHistory(orders: map<int, Order>, history: seq<StatusWrite>, order: Order)
    requires forall k | 0 <= k < |history| :: history[k].orderId in orders
    requires HistoryTracksStatus(orders, history)
    requires order.id !in orders && order.status == PENDING
    ensures HistoryTracksStatus(orders[order.id := order], history + [StatusWrite(order.id, PENDING)])
  {
    var id := order.id;
    var orders', history' := orders[id := order], history + [StatusWrite(id, PENDING)];
    forall k | 0 <= k < |history| ensures history[k].orderId != id {
      assert history[k].orderId in orders;
    }
    WritesForUntouched(history, id);
    assert StatusesUpTo(PENDING) == [PENDING];
    forall other | other in orders'
      ensures WritesFor(history', other) == StatusesUpTo(orders'[other].status)
    {
      WritesForAppend(history, StatusWrite(id, PENDING), other);
      if other != id {
        assert orders'[other] == orders[other];
      }
    }
  }

  /** Writing the next status in line to one order keeps the per-order write histories in step. */
  lemma AdvanceKeepsHistory(orders: map<int, Order>, history: seq<StatusWrite>, id: int, s: OrderStatus)
    requires HistoryTracksStatus(orders, history)
    requires id in orders && Rank(s) == Rank(orders[id].status) + 1
    ensures HistoryTracksStatus(orders[id := orders[id].(status := s)], history + [StatusWrite(id, s)])
  {
    var orders', history' := orders[id := orders[id].(status := s)], history + [StatusWrite(id, s)];
    forall other | other in orders'
      ensures WritesFor(history', other) == StatusesUpTo(orders'[other].status)
    {
      WritesForAppend(history, StatusWrite(id, s), other);
      if other == id {
        ForwardStep(orders[id].status, s);
      }
    }
  }

  /** Starting the head task of a PENDING order keeps the invariant; the order must be PENDING. */
  lemma StartKeepsInvariant(orders: map<int, Order>, rest: seq<Task>, history: seq<StatusWrite>, id: int)
    requires LifecycleInvariant(orders, [ProcessTask(id)] + rest, history)
    ensures id in orders && orders[id].status == PENDING
    ensures LifecycleInvariant(orders[id := orders[id].(status := PROCESSING)], [ResumeTask(id)] + rest,
                               history + [StatusWrite(id, PROCESSING)])
  {
    var tasks := [ProcessTask(id)] + rest;
    assert tasks[0].orderId == id;
    OccurrencesOfHead(ProcessTask(id), rest, ProcessTask(id));
    var orders', tasks' := orders[id := orders[id].(status := PROCESSING)], [ResumeTask(id)] + rest;
    forall k | 0 <= k < |tasks'| ensures tasks'[k].orderId in orders' {
      assert tasks'[k].orderId == tasks[k].orderId;
    }
    forall other | other in orders'
      ensures TasksMatch(tasks', other, orders'[other].status)
    {
      OccurrencesOfHead(ProcessTask(id), rest, ProcessTask(other));
      OccurrencesOfHead(ProcessTask(id), rest, ResumeTask(other));
      OccurrencesOfHead(ResumeTask(id), rest, ProcessTask(other));
      OccurrencesOfHead(ResumeTask(id), rest, ResumeTask(other));
    }
    AdvanceKeepsHistory(orders, history, id, PROCESSING);
  }

  /** Resuming the head task of a PROCESSING order keeps the invariant; the order must be PROCESSING. */
  lemma ResumeKeepsInvariant(orders: map<int, Order>, rest: seq<Task>, history: seq<StatusWrite>, id: int)
    requires LifecycleInvariant(orders, [ResumeTask(id)] + rest, history)
    ensures id in orders && orders[id].status == PROCESSING
    ensures LifecycleInvariant(orders[id := orders[id].(status := COMPLETED)], rest,
                               history + [StatusWrite(id, COMPLETED)])
  {
    var tasks := [ResumeTask(id)] + rest;
    assert tasks[0].orderId == id;
    OccurrencesOfHead(ResumeTask(id), rest, ResumeTask(id));
    var orders' := orders[id := orders[id].(status := COMPLETED)];
    forall k | 0 <= k < |rest| ensures rest[k].orderId in orders' {
      assert rest[k] == tasks[k + 1];
    }
    forall other | other in orders'
      ensures TasksMatch(rest, other, orders'[other].status)
    {
      OccurrencesOfHead(ResumeTask(id), rest, ProcessTask(other));
      OccurrencesOfHead(ResumeTask(id), rest, ResumeTask(other));
    }
    AdvanceKeepsHistory(orders, history, id, COMPLETED);
  }

  /**
   * The effect of running the task at the head of a non-empty queue on the
   * orders table and the queue. An unstarted task of an order that no longer
   * exists is dropped; otherwise the order becomes PROCESSING and the rest of
   * the task goes back to the head, or, for a resumed task, COMPLETED.
   */
  function AfterNextTask(orders: map<int, Order>, tasks: seq<Task>): (map<int, Order>, seq<Task>)
    requires tasks != []
  {
    var id := tasks[0].orderId;
    if id !in orders then (orders, tasks[1..])
    else if tasks[0].ProcessTask? then (orders[id := orders[id].(status := PROCESSING)], [ResumeTask(id)] + tasks[1..])
    else (orders[id := orders[id].(status := COMPLETED)], tasks[1..])
  }

  /** The status write that running the head task makes, if any. */
  function NextTaskWrites(orders: map<int, Order>, tasks: seq<Task>): seq<StatusWrite>
    requires tasks != []
  {
    var id := tasks[0].orderId;
    if id !in orders then []
    else [StatusWrite(id, if tasks[0].ProcessTask? then PROCESSING else COMPLETED)]
  }

  /**
   * Running the head task touches only the status of the head task's order,
   * keeps every order, and leaves less work.
   */
  lemma NextTaskIsForward(orders: map<int, Order>, tasks: seq<Task>)
    requires tasks != []
    ensures AfterNextTask(orders, tasks).0.Keys == orders.Keys
    ensures forall id | id in orders ::
              AfterNextTask(orders, tasks).0[id] == orders[id].(status := AfterNextTask(orders, tasks).0[id].status)
    ensures forall id | id in orders && id != tasks[0].orderId :: AfterNextTask(orders, tasks).0[id] == orders[id]
    ensures Work(AfterNextTask(orders, tasks).1) < Work(tasks)
  {
    assert tasks == [tasks[0]] + tasks[1..];
    WorkOfHead(tasks[0], tasks[1..]);
    WorkOfHead(ResumeTask(tasks[0].orderId), tasks[1..]);
    var after := AfterNextTask(orders, tasks).0;
    forall id | id in orders
      ensures after[id] == orders[id].(status := after[id].status)
    {
      var o := orders[id];
      assert o == Order(o.id, o.itemName, o.quantity, o.status, o.userId);
    }
  }

  /**
   * Under the lifecycle invariant the head task's order exists and is in the
   * status its task expects, so running the task moves it exactly one step
   * forward, and the invariant holds again afterwards.
   */
  lemma NextTaskKeepsInvariant(orders: map<int, Order>, tasks: seq<Task>, history: seq<StatusWrite>)
    requires tasks != [] && LifecycleInvariant(orders, tasks, history)
    ensures tasks[0].orderId in orders
    ensures orders[tasks[0].orderId].status == if tasks[0].ProcessTask? then PENDING else PROCESSING
    ensures Rank(AfterNextTask(orders, tasks).0[tasks[0].orderId].status) == Rank(orders[tasks[0].orderId].status) + 1
    ensures LifecycleInvariant(AfterNextTask(orders, tasks).0, AfterNextTask(orders, tasks).1,
                               history + NextTaskWrites(orders, tasks))
  {
    var id, rest := tasks[0].orderId, tasks[1..];
    assert tasks == [tasks[0]] + rest;
    if tasks[0].ProcessTask? {
      StartKeepsInvariant(orders, rest, history, id);
    } else {
      ResumeKeepsInvariant(orders, rest, history, id);
    }
  }

  /**
   * Why exactly one task per order matters: a second processing task for an
   * order that is already COMPLETED would set it back to PROCESSING.
   */
  lemma StrayTaskMovesBackward(orders: map<int, Order>, tasks: seq<Task>)
    requires tasks != [] && tasks[0].ProcessTask?
    requires tasks[0].orderId in orders && orders[tasks[0].orderId].status == COMPLETED
    ensures Rank(AfterNextTask(orders, tasks).0[tasks[0].orderId].status) < Rank(COMPLETED)
  {
  }

  class Database {
    var users: seq<User>
    var orders: map<int, Order>
    var nextOrderId: int
    var tasks: seq<Task>
    /** Every status value ever written to an order row, in order. */
    ghost var history: seq<StatusWrite>

    /** The table constraints: numbered users with unique names, orders under their ids below the counter. */
    ghost predicate WellFormed()
      reads this
    {
      && UsersNumbered(users)
      && UniqueUsernames(users)
      && KeyedById(orders)
      && 1 <= nextOrderId
      && (forall id | id in orders :: 1 <= id < nextOrderId)
    }

    /** The table constraints together with the lifecycle invariant. */
    ghost predicate Valid()
      reads this
    {
      WellFormed() && LifecycleInvariant(orders, tasks, history)
    }

    /** Empty tables, before startup. */
    constructor ()
      ensures Valid()
      ensures users == [] && orders == map[] && nextOrderId == 1 && tasks == [] && history == []
    {
      users, orders, nextOrderId, tasks := [], map[], 1, [];
      history := [];
    }

    /** Seed the users table from the fixed list, only when it is empty. */
    method Startup(aliceHash: string, bobHash: string)
      requires Valid()
      modifies this
      ensures Valid()
      ensures old(users) == [] ==> SeededFrom(users, FakeUsersDb(aliceHash, bobHash))
      ensures old(users) != [] ==> users == old(users)
      ensures orders == old(orders) && nextOrderId == old(nextOrderId)
      ensures tasks == old(tasks) && history == old(history)
    {
      if |users| == 0 {
        var seed := FakeUsersDb(aliceHash, bobHash);
        var i := 0;
        while i < |seed|
          invariant 0 <= i <= |seed|
          invariant SeededFrom(users, seed[..i])
          invariant UsersNumbered(users) && UniqueUsernames(users)
          invariant orders == old(orders) && nextOrderId == old(nextOrderId)
          invariant tasks == old(tasks) && history == old(history)
        {
          users := users + [User(|users| + 1, seed[i].username, seed[i].hashedPassword)];
          i := i + 1;
        }
        assert seed[..i] == seed;
      }
    }

    /** Insert a PENDING order for `owner` and enqueue its processing task. */
    method CreateOrder(owner: int, itemName: string, quantity: int) returns (order: Order)
      requires Valid()
      modifies this`orders, this`nextOrderId, this`tasks, this`history
      ensures Valid()
      ensures order == Order(old(nextOrderId), itemName, quantity, PENDING, owner)
      ensures order.id !in old(orders) && orders == old(orders)[order.id := order]
      ensures nextOrderId == order.id + 1
      ensures tasks == old(tasks) + [ProcessTask(order.id)]
      ensures history == old(history) + [StatusWrite(order.id, PENDING)]
    {
      order := Order(nextOrderId, itemName, quantity, PENDING, owner);
      CreateKeepsInvariant(orders, tasks, history, order);
      orders, nextOrderId, tasks, history := orders[order.id := order], order.id + 1, tasks + [ProcessTask(order.id)], history + [StatusWrite(order.id, PENDING)];
    }

    /**
     * Create a PENDING order for the token's user and enqueue one processing
     * task for it. The token is checked before the body.
     */
    method SubmitOrder(token: string, itemName: string, quantity: int) returns (r: Result<Order>)
      requires Valid()
      modifies this
      ensures Valid()
      ensures users == old(users)
      ensures ResolveToken(users, token).Err? ==> r == Err(Unauthorized) && unchanged(this)
      ensures ResolveToken(users, token).Ok? && !ValidOrderInput(itemName, quantity)
              ==> r == Err(ValidationError) && unchanged(this)
      ensures ResolveToken(users, token).Ok? && ValidOrderInput(itemName, quantity) ==>
                var id := old(nextOrderId);
                && id !in old(orders)
                && r == Ok(Order(id, itemName, quantity, PENDING, ResolveToken(users, token).value.id))
                && orders == old(orders)[id := r.value]
                && nextOrderId == id + 1
                && tasks == old(tasks) + [ProcessTask(id)]
                && history == old(history) + [StatusWrite(id, PENDING)]
    {
      var current := ResolveToken(users, token);
      if current.Err? {
        return Err(Unauthorized);
      }
      if !ValidOrderInput(itemName, quantity) {
        return Err(ValidationError);
      }
      var order := CreateOrder(current.value.id, itemName, quantity);
      r := Ok(order);
    }

    /** The caller's orders, by ascending id; 401 for a token that does not resolve. */
    function ListOrders(token: string): (r: Result<seq<Order>>)
      reads this
      requires Valid()
      ensures ResolveToken(users, token).Err? ==> r == Err(Unauthorized)
      ensures ResolveToken(users, token).Ok? ==>
                var owner := ResolveToken(users, token).value.id;
                && r.Ok?
                && (forall k | 0 <= k < |r.value| ::
                      r.value[k].id in orders && orders[r.value[k].id] == r.value[k] && r.value[k].userId == owner)
                && (forall id | id in orders && orders[id].userId == owner :: orders[id] in r.value)
    {
      match ResolveToken(users, token)
      case Err(_) => Err(Unauthorized)
      case Ok(u) => Ok(OrdersOf(orders, u.id, 1, nextOrderId))
    }

    /** One order of the caller; 404 alike for an absent id and another user's order, 401 for a bad token. */
    function GetOrder(token: string, orderId: int): (r: Result<Order>)
      reads this
      requires Valid()
      ensures ResolveToken(users, token).Err? ==> r == Err(Unauthorized)
      ensures ResolveToken(users, token).Ok? ==>
                var owner := ResolveToken(users, token).value.id;
                && (r.Ok? <==> orderId in orders && orders[orderId].userId == owner)
                && (r.Ok? ==> r.value == orders[orderId])
                && (r.Err? ==> r.error == NotFound)
    {
      match ResolveToken(users, token)
      case Err(_) => Err(Unauthorized)
      case Ok(u) => FindOwnedOrder(orders, orderId, u.id)
    }

    /** The part of order processing before the delay: nothing if the order is gone, else PROCESSING. */
    method BeginProcessing(orderId: int) returns (found: bool)
      requires WellFormed()
      modifies this`orders, this`history
      ensures WellFormed()
      ensures found == (orderId in old(orders))
      ensures users == old(users) && nextOrderId == old(nextOrderId) && tasks == old(tasks)
      ensures !found ==> orders == old(orders) && history == old(history)
      ensures found ==> orders == old(orders)[orderId := old(orders)[orderId].(status := PROCESSING)]
                        && history == old(history) + [StatusWrite(orderId, PROCESSING)]
    {
      found := orderId in orders;
      if found {
        orders := orders[orderId := orders[orderId].(status := PROCESSING)];
        history := history + [StatusWrite(orderId, PROCESSING)];
      }
    }

    /** The part of order processing after the delay: the order becomes COMPLETED. */
    method FinishProcessing(orderId: int)
      requires WellFormed() && orderId in orders
      modifies this`orders, this`history
      ensures WellFormed()
      ensures users == old(users) && nextOrderId == old(nextOrderId) && tasks == old(tasks)
      ensures orders == old(orders)[orderId := old(orders)[orderId].(status := COMPLETED)]
      ensures history == old(history) + [StatusWrite(orderId, COMPLETED)]
    {
      orders := orders[orderId := orders[orderId].(status := COMPLETED)];
      history := history + [StatusWrite(orderId, COMPLETED)];
    }

    /**
     * The whole processing task run without interruption: an absent order
     * changes nothing; an existing one is written PROCESSING, then COMPLETED,
     * and no other order is touched.
     */
    method ProcessOrder(orderId: int)
      requires WellFormed()
      modifies this`orders, this`history
      ensures WellFormed()
      ensures users == old(users) && nextOrderId == old(nextOrderId) && tasks == old(tasks)
      ensures orderId !in old(orders) ==> orders == old(orders) && history == old(history)
      ensures orderId in old(orders) ==>
                && orders == old(orders)[orderId := old(orders)[orderId].(status := COMPLETED)]
                && history == old(history) + [StatusWrite(orderId, PROCESSING), StatusWrite(orderId, COMPLETED)]
    {
      var found := BeginProcessing(orderId);
      if found {
        FinishProcessing(orderId);
      }
    }

    /** Run the task at the head of the queue, if any, as the processing task body does. */
    method RunNextTask() returns (ran: bool)
      requires Valid()
      modifies this
      ensures Valid()
      ensures ran == (old(tasks) != [])
      ensures !ran ==> unchanged(this)
      ensures users == old(users) && nextOrderId == old(nextOrderId)
      ensures ran ==> && (orders, tasks) == AfterNextTask(old(orders), old(tasks))
                      && history == old(history) + NextTaskWrites(old(orders), old(tasks))
    {
      if tasks == [] {
        return false;
      }
      ran := true;
      var task, rest := tasks[0], tasks[1..];
      var id := task.orderId;
      NextTaskKeepsInvariant(orders, tasks, history);
      if task.ProcessTask? {
        var found := BeginProcessing(id);
        tasks := if found then [ResumeTask(id)] + rest else rest;
      } else {
        FinishProcessing(id);
        tasks := rest;
      }
    }

    /** Run background tasks until the queue is empty: every order ends COMPLETED, nothing else changes. */
    method DrainTasks()
      requires Valid()
      modifies this
      ensures Valid() && tasks == []
      ensures users == old(users) && nextOrderId == old(nextOrderId) && orders.Keys == old(orders).Keys
      ensures forall id | id in orders :: orders[id] == old(orders)[id].(status := COMPLETED)
    {
      while tasks != []
        invariant Valid()
        invariant users == old(users) && nextOrderId == old(nextOrderId) && orders.Keys == old(orders).Keys
        invariant forall id | id in orders ::
                    orders[id].(status := COMPLETED) == old(orders)[id].(status := COMPLETED)
        decreases Work(tasks)
      {
        ghost var orders0, tasks0 := orders, tasks;
        NextTaskIsForward(orders0, tasks0);
        var _ := RunNextTask();
      }
      forall id | id in orders
        ensures orders[id] == old(orders)[id].(status := COMPLETED)
      {
        IdleMeansCompleted(id, orders[id].status);
      }
    }
  }
}
