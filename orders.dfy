/**
 * The order service: placing an order looks up the user, derives the
 * discount and total, appends a PLACED order to the order table, overwrites
 * the user's statistics from the snapshot read first, and finally asks the
 * rewards engine to confirm loyalty. Nothing is rolled back when that last
 * call fails.
 */
module Orders {
  import opened Wrappers
  import opened JavaInt
  import opened Decimal
  import opened Entities
  import opened Users

  /** Why `saveOrder` throws. */
  datatype OrderError =
    | UserNotFound(id: int)                          // raised before anything is written
    | LoyaltyNotConfirmed(userId: string, total: real)  // raised after the order and the stats are committed

  /** One externally visible step of the flow, in the order it happens. */
  datatype Effect =
    | OrderPersisted(order: Order)
    | StatsWritten(userId: int, totalOrders: int32, totalSpent: real, found: bool)
    | LoyaltyRequested(userIdText: string, total: real)

  /**
   * The state the flow acts on: the user table, the order table (the order
   * repository as a sequence, newest last) and the log of effects so far.
   */
  datatype World = World(users: UserTable, orders: seq<Order>, effects: seq<Effect>)

  /** The new state and what `saveOrder` returns or throws. */
  datatype Placement = Placement(world: World, result: Result<Order, OrderError>)

  /** No rewards evaluation means no discount. */
  function DiscountOf(rewards: Option<RewardsResponse>): (d: real)
    ensures rewards.None? ==> d == 0.0
    ensures rewards.Some? ==> d == rewards.value.discountAmount
  {
    if rewards.Some? then rewards.value.discountAmount else 0.0
  }

  /**
   * `saveOrder(orderRequest, rewards)` as a function of the state before the
   * call. `loyaltyConfirmed` is the rewards engine's answer to the loyalty
   * confirmation (false for a transport error or a 4xx/5xx status, true for
   * any other reply). Its contract gives the outcome and the shape of the
   * order table; the lemmas that follow state the rest of what it promises.
   */
  function PlaceOrder(w: World, req: OrderRequest, rewards: Option<RewardsResponse>, loyaltyConfirmed: bool): (p: Placement)
    ensures p.result.Success? <==> req.userId in w.users && loyaltyConfirmed
    ensures req.userId !in w.users ==> p.world == w
    ensures req.userId in w.users ==> |p.world.orders| == |w.orders| + 1 && p.world.orders[..|w.orders|] == w.orders
    ensures p.world.users.Keys == w.users.Keys
  {
    if req.userId !in w.users then
      Placement(w, Failure(UserNotFound(req.userId)))
    else
      var user := w.users[req.userId];
      var discount := DiscountOf(rewards);
      var total := req.cart.totalAmount - discount;
      var order := Order(user.id, req.cart.items, total, discount, PLACED, 0);
      var stats := SetStats(w.users, user.id, Inc(user.totalOrders), user.totalSpent + total);
      var idText := IntToDecimal(user.id);
      var effects := w.effects
        + [OrderPersisted(order)]
        + [StatsWritten(user.id, Inc(user.totalOrders), user.totalSpent + total, stats.found)]
        + [LoyaltyRequested(idText, total)];
      var world := World(stats.users, w.orders + [order], effects);
      Placement(world, if loyaltyConfirmed then Success(order) else Failure(LoyaltyNotConfirmed(idText, total)))
  }

  /** An unknown user fails first, and nothing is written: not an order, not a user, not a request. */
  lemma UnknownUserWritesNothing(w: World, req: OrderRequest, rewards: Option<RewardsResponse>, confirmed: bool)
    requires req.userId !in w.users
    ensures var p := PlaceOrder(w, req, rewards, confirmed);
            p.world == w && p.result == Failure(UserNotFound(req.userId))
  {
  }

  /**
   * A known user gets exactly one new order, after the unchanged earlier ones:
   * PLACED, the discount (zero without rewards), the cart total less that
   * discount, the cart's lines in order, and the user's id.
   */
  lemma OneOrderAppended(w: World, req: OrderRequest, rewards: Option<RewardsResponse>, confirmed: bool)
    requires req.userId in w.users
    ensures var p := PlaceOrder(w, req, rewards, confirmed);
            var discount := if rewards.None? then 0.0 else rewards.value.discountAmount;
            && |p.world.orders| == |w.orders| + 1
            && p.world.orders[..|w.orders|] == w.orders
            && var order := p.world.orders[|w.orders|];
               && order.status == PLACED
               && order.discountApplied == discount
               && order.totalAmount == req.cart.totalAmount - discount
               && order.items == req.cart.items
               && order.userId == req.userId
               && order.createdAt == 0
  {
  }

  /**
   * The user's counters advance from the snapshot read first, by one order
   * (as a Java int) and by the new order's total; nothing else in the user
   * table changes.
   */
  lemma StatsAdvanceFromSnapshot(w: World, req: OrderRequest, rewards: Option<RewardsResponse>, confirmed: bool)
    requires req.userId in w.users
    ensures var p := PlaceOrder(w, req, rewards, confirmed);
            && p.world.users.Keys == w.users.Keys
            && |p.world.orders| == |w.orders| + 1
            && (var (before, after) := (w.users[req.userId], p.world.users[req.userId]);
                && after.totalOrders == Inc(before.totalOrders)
                && after.totalSpent == before.totalSpent + p.world.orders[|w.orders|].totalAmount
                && after == before.(totalOrders := after.totalOrders, totalSpent := after.totalSpent))
            && forall k :: k in w.users && k != req.userId ==> p.world.users[k] == w.users[k]
  {
  }

  /**
   * The effects happen in the source's order: persist the order, write the
   * stats (the user is always found, so the ignored boolean is always true),
   * then request the loyalty confirmation for the order's own total. The
   * order is returned only when the engine confirms.
   */
  lemma EffectsInSourceOrder(w: World, req: OrderRequest, rewards: Option<RewardsResponse>, confirmed: bool)
    requires req.userId in w.users
    ensures var p := PlaceOrder(w, req, rewards, confirmed);
            && |p.world.orders| == |w.orders| + 1
            && var order := p.world.orders[|w.orders|];
               && p.world.effects == w.effects + [
                    OrderPersisted(order),
                    StatsWritten(req.userId, p.world.users[req.userId].totalOrders, p.world.users[req.userId].totalSpent, true),
                    LoyaltyRequested(IntToDecimal(req.userId), order.totalAmount)]
               && p.result == if confirmed then Success(order)
                              else Failure(LoyaltyNotConfirmed(IntToDecimal(req.userId), order.totalAmount))
  {
  }

  /** A failed loyalty confirmation leaves every earlier write committed: same tables, same log. */
  lemma LateFailureKeepsWrites(w: World, req: OrderRequest, rewards: Option<RewardsResponse>)
    requires req.userId in w.users
    ensures PlaceOrder(w, req, rewards, false).world == PlaceOrder(w, req, rewards, true).world
    ensures PlaceOrder(w, req, rewards, false).result.Failure?
    ensures |PlaceOrder(w, req, rewards, false).world.orders| == |w.orders| + 1
  {
  }

  /** The total is not floored at zero: a discount above the cart amount gives a negative order total. */
  lemma DiscountAboveCartGivesNegativeTotal(w: World, req: OrderRequest, rewards: RewardsResponse, confirmed: bool)
    requires req.userId in w.users && rewards.discountAmount > req.cart.totalAmount
    ensures PlaceOrder(w, req, Some(rewards), confirmed).world.orders[|w.orders|].totalAmount < 0.0
  {
  }

  /** The loyalty request names the ordering user: its id text reads back as that user's id. */
  lemma LoyaltyRequestNamesUser(w: World, req: OrderRequest, rewards: Option<RewardsResponse>, confirmed: bool)
    requires req.userId in w.users
    ensures var e := PlaceOrder(w, req, rewards, confirmed).world.effects;
            e[|e| - 1].LoyaltyRequested? && ParseDecimal(e[|e| - 1].userIdText) == Some(req.userId)
  {
    DecimalRoundTrip(req.userId);
  }

  // ---------------------------------------------------------------------------------------------
  // The statistics invariant: each user's counters reflect the PLACED orders that name the user.

  /** How many PLACED orders in `orders` belong to user `id`. */
  function PlacedCount(orders: seq<Order>, id: int): nat {
    if orders == [] then 0
    else (if orders[0].userId == id && orders[0].status == PLACED then 1 else 0) + PlacedCount(orders[1..], id)
  }

  /** The sum of the totals of user `id`'s PLACED orders. */
  function PlacedSpent(orders: seq<Order>, id: int): real {
    if orders == [] then 0.0
    else (if orders[0].userId == id && orders[0].status == PLACED then orders[0].totalAmount else 0.0)
         + PlacedSpent(orders[1..], id)
  }

  /** Every user's `totalOrders` (as a Java int) and `totalSpent` match that user's PLACED orders. */
  ghost predicate StatsConsistent(users: UserTable, orders: seq<Order>) {
    forall id :: id in users ==>
      users[id].totalOrders == Wrap(PlacedCount(orders, id)) && users[id].totalSpent == PlacedSpent(orders, id)
  }

  /** Appending one order changes only its own user's count and sum. */
  lemma {:induction false} PlacedAppend(orders: seq<Order>, o: Order, id: int)
    ensures PlacedCount(orders + [o], id)
            == PlacedCount(orders, id) + (if o.userId == id && o.status == PLACED then 1 else 0)
    ensures PlacedSpent(orders + [o], id)
            == PlacedSpent(orders, id) + (if o.userId == id && o.status == PLACED then o.totalAmount else 0.0)
  {
    if orders != [] {
      assert (orders + [o])[1..] == orders[1..] + [o];
      PlacedAppend(orders[1..], o, id);
    } else {
      assert [o][1..] == [];
    }
  }

  /** A placement, successful or failing at any point, keeps the statistics consistent with the orders. */
  lemma PlaceOrderKeepsStatsConsistent(w: World, req: OrderRequest, rewards: Option<RewardsResponse>, confirmed: bool)
    requires StatsConsistent(w.users, w.orders)
    ensures var p := PlaceOrder(w, req, rewards, confirmed);
            StatsConsistent(p.world.users, p.world.orders)
  {
    var p := PlaceOrder(w, req, rewards, confirmed);
    if req.userId in w.users {
      var order := p.world.orders[|w.orders|];
      assert p.world.orders == w.orders + [order];
      forall id | id in p.world.users
        ensures p.world.users[id].totalOrders == Wrap(PlacedCount(p.world.orders, id))
        ensures p.world.users[id].totalSpent == PlacedSpent(p.world.orders, id)
      {
        PlacedAppend(w.orders, order, id);
        if id == req.userId {
          IncWrap(PlacedCount(w.orders, id));
        }
      }
    }
  }

  /**
   * The worked example: user 1 with 2 orders and 100.0 spent checks out a
   * 50.0 cart with a 10.0 discount.
   */
  lemma WorkedExample(confirmed: bool)
    ensures
      var user := User(1, "a@example.com", "A", 2, 100.0, 0, []);
      var cart := CartRequest(1, [Item("A", "A", 1, 50.0)], 50.0);
      var rewards := RewardsResponse(10.0, [], 0, 0);
      var p := PlaceOrder(World(map[1 := user], [], []), OrderRequest(1, cart), Some(rewards), confirmed);
      && p.world.orders == [Order(1, cart.items, 40.0, 10.0, PLACED, 0)]
      && p.world.users[1].totalOrders == 3
      && p.world.users[1].totalSpent == 140.0
  {
  }

  class OrderService {
    /** The user service the flow reads and updates users through. */
    const userService: UserService
    /** The order repository's contents, oldest first. */
    var orders: seq<Order>
    /** The flow's externally visible steps so far. */
    ghost var effects: seq<Effect>

    constructor (userService: UserService, orders: seq<Order>)
      ensures this.userService == userService && this.orders == orders && effects == []
    {
      this.userService := userService;
      this.orders := orders;
      effects := [];
    }

    ghost function State(): World
      reads this, userService
    {
      World(userService.users, orders, effects)
    }

    /**
     * `saveOrder`: the six steps in their source order. `loyaltyConfirmed`
     * is the rewards engine's answer to the final confirmation call.
     */
    method SaveOrder(request: OrderRequest, rewards: Option<RewardsResponse>, loyaltyConfirmed: bool)
      returns (r: Result<Order, OrderError>)
      modifies this, userService
      ensures var p := PlaceOrder(old(State()), request, rewards, loyaltyConfirmed);
              State() == p.world && r == p.result
    {
      ghost var before := State();
      // 1. look up the user
      var found := userService.GetUserById(request.userId);
      if found.None? {
        return Failure(UserNotFound(request.userId));
      }
      var user := found.value;

      // 2. discount and final total
      var discount := DiscountOf(rewards);
      var total := request.cart.totalAmount - discount;

      // 3. build the order (createdAt is never set and keeps Java's default 0)
      var order := Order(user.id, request.cart.items, total, discount, PLACED, 0);

      // 4. persist it
      orders := orders + [order];
      effects := effects + [OrderPersisted(order)];

      // 5. overwrite the statistics from the snapshot read in step 1; the boolean is ignored
      var newTotalOrders := Inc(user.totalOrders);
      var newTotalSpent := user.totalSpent + total;
      var updated := userService.UpdateUserStats(user.id, newTotalOrders, newTotalSpent);
      effects := effects + [StatsWritten(user.id, newTotalOrders, newTotalSpent, updated)];

      // 6. confirm loyalty with the rewards engine; a failure propagates, nothing is undone
      var idText := IntToDecimal(user.id);
      effects := effects + [LoyaltyRequested(idText, total)];
      ghost var p := PlaceOrder(before, request, rewards, loyaltyConfirmed);
      assert user == before.users[request.userId];
      assert p.world.users == userService.users;
      assert p.world.orders == orders;
      assert p.world.effects == effects;
      if !loyaltyConfirmed {
        return Failure(LoyaltyNotConfirmed(idText, total));
      }
      return Success(order);
    }
  }
}
