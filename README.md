# Order-management API: a Dafny model

This project models the core of a small authenticated order-management
service (`main.py`). The users table is seeded once at startup. A user logs in
with a username and password and receives a bearer token. With that token the
user submits orders, lists their own orders and reads a single order. Each
submitted order starts PENDING. A background task then moves it to PROCESSING
and, after a delay, to COMPLETED.

Modules, one per part of the core:

- `Lifecycle` (`lifecycle.dfy`): the three order statuses and their order, and a
  log of every status value written to an order row.
- `Domain` (`domain.dfy`): the user and order rows, the four failures a caller
  can see (400 bad credentials, 401 bad token, 404 order not found, 422 body out
  of bounds), and the bounds of the order body.
- `Auth` (`auth.dfy`): lookup of a user by username, password authentication,
  login, and the demonstration token scheme. A token is 48 random hex characters
  followed by the username. It is resolved by taking its last five characters
  and looking for a user whose whole username equals them. This is modelled as
  written: only a user whose name has exactly five characters gets back a usable
  token of their own. Any string that ends in such a name passes as that user's
  token.
- `Queries` (`queries.dfy`): the reads scoped by owner, one order by id and the
  list of a user's orders.
- `OrderService` (`service.dfy`): class `Database`. It holds the users table (a
  sequence, ids 1, 2, …), the orders table (a map from id to row), the next order
  id, the queue of background tasks, and a ghost log of status writes. It has the
  startup seeding, the order endpoints and the background task runner. The
  processing task is split at its delay into two steps. `ProcessTask(id)` does
  the part before the delay. It leaves `ResumeTask(id)` at the head of the queue,
  and that step does the part after. Requests can therefore observe an order
  between its two writes.
- `Scenarios` (`scenario.dfy`): the example run. alice submits "Widget" × 3.
  bob tries to read it. The queue is then drained.

The central invariant (`LifecycleInvariant`, part of `Database.Valid`) says
three things:

- every order has exactly the task its status calls for: one unstarted task
  while PENDING, one resumed task while PROCESSING, none once COMPLETED;
- the statuses written to each order are exactly PENDING, PROCESSING, COMPLETED,
  up to its current status;
- every queued task and every logged write refers to an existing order.

The processing task itself sets PROCESSING without checking the current status
(`StrayTaskMovesBackward`). So "status never moves backward" holds only because
submission enqueues exactly one task per order.

Two behaviours of the code are worth stating plainly:

- A token is resolved by comparing its last five characters with the whole
  username, not with the last five characters of usernames (`main.py:99-100`).
- With the seeded users, the token issued to "bob" never resolves, so bob gets
  401 on every order endpoint (`Auth.SeededBobTokenRefused`). Sending the bare
  string "bob" as a token does resolve to bob, and reading alice's order then
  gives 404 (`Scenarios.WidgetScenario`).

## Model

| member | source | states |
|---|---|---|
| `Lifecycle.StatusesUpTo` | main.py:24-27 | The writes an order has received once it holds status s: the k-th write has rank k. The history moves one step at a time, never repeats or skips, and ends in s. |
| `Lifecycle.ForwardStep` | main.py:136-139 | Extending a lifecycle history by one status gives a lifecycle history exactly when that status is the next one in line. |
| `Domain.ValidOrderInput` | main.py:47-49 | An order body is accepted exactly when the item name has 2 to 50 characters and the quantity is between 1 and 100. |
| `Domain.OrderInputEdges` | main.py:47-49 | Names of length 2 and 50 and quantities 1 and 100 are accepted. Lengths 1 and 51 and quantities 0 and 101 are rejected. |
| `Auth.FindUser` | main.py:84-85 | Finds the first user row with the given username. The result is a user of the table with that name. None means no row has that name. |
| `Auth.FindUserUnique` | main.py:32 | Usernames are unique, so looking up a user's name returns that same user. |
| `Auth.ValidTokenPrefix` | main.py:95 | What `secrets.token_hex(24)` returns: exactly 48 characters, each a lower-case hex digit. |
| `Auth.AuthenticateUser` | main.py:87-91 | A returned user is in the table, has the given name, and the password verifies against that user's stored hash. |
| `Auth.AuthenticateIff` | main.py:87-91 | Returns user u exactly when u has the name and the password verifies. Fails exactly when no such user exists, so an unknown name and a wrong password fail alike. |
| `Auth.CreateAccessToken` | main.py:93-95 | The token is 48 + n characters long: the random hex prefix, then the whole username. |
| `Auth.TokenTail` | main.py:99 | `token[-5:]` is the suffix of length min(5, \|token\|): the whole token when it is shorter than five characters. |
| `Auth.ResolveToken` | main.py:97-103 | Resolves to a user of the table whose whole username equals the token's tail. Gives 401 exactly when no username equals the tail. |
| `Auth.IssuedTokenTail` | main.py:93-99 | An issued token's tail is the username's last five characters. For a name shorter than five, it is the last 5 - n hex characters of the prefix followed by the name. |
| `Auth.IssuedTokenResolvesToFiveCharName` | main.py:93-103 | An issued token that resolves always resolves to a user whose username has exactly five characters. |
| `Auth.IssuedTokenResolvesToOwnerIff` | main.py:93-103 | A user's own issued token resolves back to that user if and only if the username has five characters. |
| `Auth.LongUsernameResolvesBySuffix` | main.py:93-103 | A token issued for a name of five or more characters resolves exactly as the name's last five characters would. |
| `Auth.MaliceTokenResolvesToAlice` | main.py:93-103 | With a user "alice" in the table, the token issued for the name "malice" is accepted as alice's token. |
| `Auth.ForgedTokenResolves` | main.py:97-103 | Any string ending in a five-character username is accepted as that user's token. |
| `Auth.BareShortUsernameResolves` | main.py:97-103 | A username of at most five characters, sent alone as the token, resolves to that user. |
| `Auth.SeededBobTokenRefused` | main.py:66-77 | With the seeded users alice and bob, every token issued to "bob" is refused with 401, whatever its random prefix. |
| `Auth.Login` | main.py:117-125 | Succeeds exactly when authentication does, with a bearer token made of the prefix and the username. Otherwise gives 400. |
| `Auth.LoginOutcome` | main.py:117-125 | Succeeds, with the bearer token, if and only if a user of that name exists and the password verifies. Every other case gives the same 400. |
| `Queries.FindOwnedOrder` | main.py:169-172 | Returns the order if and only if the id exists and belongs to the caller, and then returns that row. Otherwise gives 404. |
| `Queries.ForeignOrderLooksAbsent` | main.py:169-172 | Another user's order id gives exactly the same result as an id that does not exist. |
| `Queries.OrdersOf` | main.py:162 | Lists only the caller's rows, as stored. Every row of the caller in range appears, each once, by ascending id. |
| `Queries.GetAgreesWithList` | main.py:159-173 | Reading an id succeeds exactly when that id appears in the caller's list. |
| `OrderService.IdleMeansCompleted` | main.py:129-141 | An order with no task left in the queue is COMPLETED. |
| `OrderService.FakeUsersDb` | main.py:66-77 | The fixed seed list: "alice" then "bob", each with the hash of their password. |
| `OrderService.SeededFrom` | main.py:110-114 | The users table is the seed list in order, row k having id k + 1 and the seed entry's name and hash. |
| `OrderService.CreateKeepsInvariant` | main.py:146-155 | Inserting a PENDING order under a new id and enqueuing its one task keeps the lifecycle invariant. |
| `OrderService.AdvanceKeepsHistory` | main.py:136-139 | Writing the next status in line to one order keeps every order's write history equal to its lifecycle prefix. |
| `OrderService.StartKeepsInvariant` | main.py:132-137 | Under the invariant, an unstarted task at the head belongs to a PENDING order. Moving it to PROCESSING and leaving the resumed task keeps the invariant. |
| `OrderService.ResumeKeepsInvariant` | main.py:139-140 | Under the invariant, a resumed task at the head belongs to a PROCESSING order. Moving it to COMPLETED keeps the invariant. |
| `OrderService.NextTaskIsForward` | main.py:129-141 | Running the head task keeps every order and every field other than the status. Only the head task's order is touched, and the remaining work shrinks. |
| `OrderService.NextTaskKeepsInvariant` | main.py:129-141 | Under the invariant, the head task's order exists in the status the task expects and moves exactly one step forward. The invariant holds again afterwards. |
| `OrderService.StrayTaskMovesBackward` | main.py:136 | A second processing task for an order that is already COMPLETED would set it back. Forward-only depends on there being one task per order. |
| `OrderService.AfterNextTask` | main.py:129-141 | One step of the processing task on the orders table and the queue. A task whose order is absent is dropped. An unstarted task sets its order PROCESSING and leaves its resumed part at the head. A resumed task sets its order COMPLETED. |
| `OrderService.NextTaskWrites` | main.py:129-141 | The status write of that step: none for an absent order, else one write of PROCESSING or COMPLETED. |
| `OrderService.Database.Startup` | main.py:105-115 | On an empty users table, seeds alice then bob with ids 1 and 2. On a non-empty table, writes nothing, so a second startup changes nothing. Orders and tasks are untouched. |
| `OrderService.Database.CreateOrder` | main.py:146-155 | Inserts a PENDING row with the next id, which is new, and the caller as owner. Enqueues exactly one processing task for it. Leaves the other rows as they were and keeps the invariant. |
| `OrderService.Database.SubmitOrder` | main.py:143-157 | A bad token gives 401 and a body out of bounds gives 422, both with nothing changed. Otherwise returns the new PENDING order of the token's user with the given name and quantity, and enqueues one task for its id. |
| `OrderService.Database.ListOrders` | main.py:159-164 | A bad token gives 401. Otherwise lists exactly the caller's orders, as stored, none of another user's. |
| `OrderService.Database.GetOrder` | main.py:166-173 | A bad token gives 401. Otherwise returns the order if and only if it exists and is the caller's. An absent order and another user's order both give 404. |
| `OrderService.Database.BeginProcessing` | main.py:129-137 | An id not in the table changes nothing. Otherwise that order alone becomes PROCESSING, and one write is logged. |
| `OrderService.Database.FinishProcessing` | main.py:138-141 | The order alone becomes COMPLETED, and one write is logged. |
| `OrderService.Database.ProcessOrder` | main.py:129-141 | An absent id changes nothing. An existing order ends COMPLETED after the writes PROCESSING then COMPLETED, and no other order is touched. |
| `OrderService.Database.RunNextTask` | main.py:127-141 | Runs the head of the queue if there is one, as `AfterNextTask` says, and keeps the invariant. An empty queue changes nothing. |
| `OrderService.Database.DrainTasks` | main.py:155 | Runs tasks until the queue is empty. Every order then is COMPLETED with its other fields unchanged, and the invariant holds. |
| `Scenarios.WidgetScenario` | main.py:117-173 | alice and bob log in. alice's order is created as order 1, PENDING, owned by user 1, and reads back PENDING before the queue runs. bob's issued token gives 401 and his bare name gives 404. After draining, the order reads back COMPLETED. |

## Left out

- Password hashing and verification (bcrypt) are foreign calls. Verification is
  a parameter `verify: (string, string) -> bool`. The seeded hashes are
  parameters of `Startup`.
- The randomness of `secrets.token_hex(24)` is left out. The 48-character hex
  prefix is a parameter.
- `time.sleep(2)` and concurrent background tasks are left out. The tasks run
  one at a time from a queue, and a started task resumes at the head of the
  queue. Requests can be interleaved between any two steps. Two tasks'
  halves interleaving with each other is not modelled.
- A crash between the two writes of processing is not modelled. In the source
  that leaves an order PROCESSING for good.
- FastAPI routing, the `Authorization` header parsing of the OAuth2 bearer
  scheme (a missing header also gives 401), and pydantic's coercion of request
  values are left out. `Token` is modelled as `TokenResponse`. `OrderOut` is not
  modelled: `SubmitOrder`, `GetOrder` and `ListOrders` return whole `Order`
  rows, including the owner's `userId`, which `OrderOut` does not serialise,
  and with the status as an enum value rather than its string.
- SQLAlchemy sessions, commits and `create_all` are left out. Each commit is
  one atomic update of the class's fields. The ORM relationships
  `User.orders`/`Order.user` are not modelled, since nothing in the core reads
  them.
- Order ids come from a counter starting at 1. This equals SQLite's next rowid
  because no row is ever deleted.
- Queries.OrdersOf: returns the rows in ascending id order. The query has no
  ORDER BY. This is the order of SQLite's table scan, not a promise of the code.
- The `id` entries of the seed dictionary are ignored, as in the source. Rows
  get their ids from the table.
