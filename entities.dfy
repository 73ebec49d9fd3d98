/**
 * The persisted entities (User, Order, Item) and the request/response shapes
 * the order flow reads. Java `double` amounts are modelled as `real`: exact
 * arithmetic, with no floating-point rounding. Ids are Java `Long` values and
 * are never computed on, so they are unbounded `int`s.
 */
module Entities {
  import opened JavaInt

  /** The status every order receives when it is placed. */
  const PLACED: string := "PLACED"

  /** An order line. Its own generated id and its back-reference to the order are not modelled. */
  datatype Item = Item(sku: string, name: string, quantity: int32, price: real)

  /**
   * A purchase. `userId` stands for the owning user (the evident intent of
   * `order.setUserId(user.getId())`); the generated `id` is left to the store.
   */
  datatype Order = Order(
    userId: int,
    items: seq<Item>,
    totalAmount: real,
    discountApplied: real,
    status: string,
    createdAt: int)

  /** A customer with the running statistics the order flow maintains. */
  datatype User = User(
    id: int,
    email: string,
    name: string,
    totalOrders: int32,
    totalSpent: real,
    loyaltyPoints: int32,
    orders: seq<Order>)

  /** The cart being checked out; its lines are carried over to the order as they are. */
  datatype CartRequest = CartRequest(userId: int, items: seq<Item>, totalAmount: real)

  datatype OrderRequest = OrderRequest(userId: int, cart: CartRequest)

  /** The rewards engine's evaluation of a cart (the list of reward descriptors is not modelled). */
  datatype RewardsResponse = RewardsResponse(
    discountAmount: real,
    appliedCoupons: seq<string>,
    loyaltyPointsUsed: int32,
    loyaltyPointsEarned: int32)
}
