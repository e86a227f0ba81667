/** Records of the users and orders tables, request outcomes and order input bounds. */
module Domain {
  import opened Lifecycle

  datatype Option<T> = None | Some(value: T)

  /**
   * The failures a caller can observe: 400 on login, 401 for a token that
   * does not resolve, 404 for an order that is absent or not the caller's,
   * 422 for an order body outside its bounds.
   */
  datatype ApiError = InvalidCredentials | Unauthorized | NotFound | ValidationError

  datatype Result<T> = Ok(value: T) | Err(error: ApiError)

  /** A row of the users table. */
  datatype User = User(id: int, username: string, hashedPassword: string)

  /** A row of the orders table; `userId` is the owning user's id. */
  datatype Order = Order(id: int, itemName: string, quantity: int, status: OrderStatus, userId: int)

  const MIN_ITEM_NAME_LENGTH := 2
  const MAX_ITEM_NAME_LENGTH := 50
  const MAX_QUANTITY := 100

  /** The bounds of the order creation body: a 2 to 50 character name and 0 < quantity <= 100. */
  predicate ValidOrderInput(itemName: string, quantity: int)
  {
    MIN_ITEM_NAME_LENGTH <= |itemName| <= MAX_ITEM_NAME_LENGTH && 0 < quantity <= MAX_QUANTITY
  }

  /** The edges of the bounds: lengths 2 and 50 and quantities 1 and 100 pass, one step beyond fails. */
  lemma OrderInputEdges(name1: string, name2: string, name50: string, name51: string)
    requires |name1| == 1 && |name2| == 2 && |name50| == 50 && |name51| == 51
    ensures ValidOrderInput(name2, 1) && ValidOrderInput(name50, 100)
    ensures !ValidOrderInput(name1, 1) && !ValidOrderInput(name51, 1)
    ensures !ValidOrderInput(name2, 0) && !ValidOrderInput(name2, 101)
  {
  }
}
