# Order placement and user statistics — a Dafny model

This project models the core of a small e-commerce backend that keeps users
and orders in two relational tables and delegates discounts and loyalty
points to an external rewards engine (Talon.One).

The core is `OrderService.saveOrder`: look up the user, derive the discount
and the final total, build an order with status `PLACED`, append it to the
order table, overwrite the user's `totalOrders` and `totalSpent` from the
snapshot read at the start, and finally ask the rewards engine to confirm
loyalty. That last call may fail, and nothing written before it is rolled
back. The user service beneath it has three operations. `getUserById` is a
keyed lookup. `updateUserStats` overwrites two counters and reports whether
the user existed. `save` puts a record into the table.

Files:

- `wrappers.dfy` — `Option` (Java's null) and `Result` (a return value or a thrown exception).
- `java_int.dfy` — Java's 32-bit `int` and the wrap-around of `totalOrders + 1`.
- `decimal.dfy` — `Long.toString` of the user id passed to the rewards engine, with a parser that reads it back.
- `entities.dfy` — `User`, `Order`, `Item` and the request/response shapes as datatypes. Java `double` amounts are exact `real`s.
- `users.dfy` — the user table as a map keyed by each record's own id; `SetStats` specifies `updateUserStats`; class `UserService` holds the table.
- `orders.dfy` — `PlaceOrder` specifies `saveOrder` as a function of the state before the call, and lemmas state what it promises; class `OrderService` runs the six steps imperatively and is proved equal to it. It also holds the invariant that each user's counters reflect that user's PLACED orders.

The state the flow acts on (`World`) is the user table, the order table as a
sequence (newest last) and a log of the flow's visible effects:
`OrderPersisted`, `StatsWritten`, `LoyaltyRequested`. The log makes the order
of the side effects part of the contract. The rewards engine's reply to the
loyalty confirmation is a parameter (`loyaltyConfirmed`). A transport error
or a 4xx/5xx status counts as `false`; any other reply counts as `true`,
because the confirmation call never inspects the status and the default
error handler throws only on 4xx and 5xx.

Three choices where the source's declarations and its statements disagree, or where the code alone decides:

- The order's owner and the stats update use the id of the record that was
  read (`user.getId()`), not the requested id. Because the table stores every
  record under its own id, the two are equal.
- The order is linked through `setUserId`, although the entity declares a
  `User` field. The model keeps the evident intent: an order holds its user's id.
- The cart's lines are stored on the order as they are. The cart line type
  (`CartItemDTO`) is not part of this model; cart lines are modelled as `Item`s.

## Model

| member | source | states |
|---|---|---|
| `JavaInt.Wrap` | src/main/java/com/app/model/User.java:23 | the Java `int` a mathematical integer truncates to: the same value inside the 32-bit range, and always congruent to it modulo 2^32 |
| `JavaInt.Inc` | src/main/java/com/app/service/OrderService.java:53 | `totalOrders + 1` is exact below `Integer.MAX_VALUE` and wraps to `Integer.MIN_VALUE` at it |
| `JavaInt.IncWrap` | src/main/java/com/app/service/OrderService.java:53 | incrementing a truncated count equals truncating the incremented count, so the Java counter tracks the true count modulo 2^32 |
| `Decimal.NatToDecimal` | src/main/java/com/app/service/OrderService.java:58 | the decimal text of an id is a non-empty run of digits without a leading zero |
| `Decimal.IntToDecimal` | src/main/java/com/app/service/OrderService.java:58 | `Long.toString` starts with a minus sign exactly when the id is negative |
| `Decimal.NatRoundTrip` | src/main/java/com/app/service/OrderService.java:58 | reading back the digits of a natural number gives that number |
| `Decimal.ParseDigits` | src/main/java/com/app/service/OrderService.java:58 | a non-empty run of digits parses to its value |
| `Decimal.ParseNegative` | src/main/java/com/app/service/OrderService.java:58 | a minus sign before a run of digits of value m parses to −m |
| `Decimal.NonNegativeRoundTrip` | src/main/java/com/app/service/OrderService.java:58 | the text of a non-negative id parses back to that id |
| `Decimal.NegativeRoundTrip` | src/main/java/com/app/service/OrderService.java:58 | the text of a negative id parses back to that id |
| `Decimal.DecimalRoundTrip` | src/main/java/com/app/service/OrderService.java:58 | the id text sent to the rewards engine parses back to exactly the id it was printed from |
| `Decimal.DecimalInjective` | src/main/java/com/app/service/OrderService.java:58 | two different user ids never produce the same text |
| `Users.SetStats` | src/main/java/com/app/service/UserService.java:35-45 | absent id: reports false and the table is unchanged; present id: reports true, that user's `totalOrders` and `totalSpent` equal the arguments, its `id`, `email`, `name`, `loyaltyPoints` and `orders` are unchanged, every other user is unchanged, and the key set is the same |
| `Users.SetStatsIdempotent` | src/main/java/com/app/service/UserService.java:41-43 | applying the same counters twice gives the same table and the same report as applying them once |
| `Users.UserService.GetUserById` | src/main/java/com/app/service/UserService.java:24-26 | returns the stored record when the id is present and `None` (null) when it is absent; the returned record's id is the requested id; it reads the table and changes nothing |
| `Users.UserService.UpdateUserStats` | src/main/java/com/app/service/UserService.java:35-45 | the load, two setter calls and write-back produce exactly the report and table `SetStats` specifies |
| `Users.UserService.Save` | src/main/java/com/app/service/UserService.java:52-54 | puts the record into the table under its id, returns it, and a later lookup of that id finds it |
| `Orders.DiscountOf` | src/main/java/com/app/service/OrderService.java:38 | the discount is zero without a rewards evaluation, and otherwise that evaluation's `discountAmount` |
| `Orders.PlaceOrder` | src/main/java/com/app/service/OrderService.java:30-61 | `saveOrder` as a function of the prior tables and log. It succeeds exactly when the user exists and the engine confirms. An unknown user leaves the world unchanged. A known user gets exactly one order appended after the unchanged earlier ones. The user table's key set never changes. The lemmas in the rows below state the rest |
| `Orders.UnknownUserWritesNothing` | src/main/java/com/app/service/OrderService.java:32-35 | an unknown user fails with `UserNotFound` for the requested id, and the tables and effect log are exactly as before |
| `Orders.OneOrderAppended` | src/main/java/com/app/service/OrderService.java:38-50 | a known user gets exactly one new order after the unchanged earlier ones. It has status `PLACED`, discount 0 without rewards (else `discountAmount`), total = cart total − discount, the cart's items in order, the user's id and `createdAt` 0 |
| `Orders.StatsAdvanceFromSnapshot` | src/main/java/com/app/service/OrderService.java:53-55 | the user's `totalOrders` is the snapshot's + 1 as a Java `int` and `totalSpent` the snapshot's + the new order's total; all other fields and every other user are unchanged, and the key set is the same |
| `Orders.EffectsInSourceOrder` | src/main/java/com/app/service/OrderService.java:50-60 | the log grows by persist → stats write (user always found) → loyalty request for the order's own total, and the order is returned only when the engine confirms, otherwise `LoyaltyNotConfirmed` |
| `Orders.LateFailureKeepsWrites` | src/main/java/com/app/service/OrderService.java:50-58 | when the loyalty confirmation fails, the tables and effect log are the same as on success, so the new order (one more than before) and the updated stats stay committed, and the call fails |
| `Orders.DiscountAboveCartGivesNegativeTotal` | src/main/java/com/app/service/OrderService.java:38-39 | no floor at zero: a discount larger than the cart amount gives the stored order a negative total |
| `Orders.LoyaltyRequestNamesUser` | src/main/java/com/app/service/OrderService.java:58 | the last effect is the loyalty request, and its user-id text reads back as the ordering user's id |
| `Orders.PlacedAppend` | src/main/java/com/app/service/OrderService.java:50 | appending an order changes only its own user's PLACED count (by 1) and PLACED sum (by its total) |
| `Orders.PlaceOrderKeepsStatsConsistent` | src/main/java/com/app/service/OrderService.java:50-55 | if every user's `totalOrders` (as a Java `int`) and `totalSpent` match that user's PLACED orders before a placement, they still match afterwards, whether the placement succeeds, finds no user or fails at the loyalty step |
| `Orders.WorkedExample` | src/main/java/com/app/service/OrderService.java:37-55 | user 1 with 2 orders and 100.0 spent, cart 50.0, discount 10.0: the stored order has total 40.0, discount 10.0 and status PLACED; the user ends with 3 orders and 140.0 spent |
| `Orders.OrderService.SaveOrder` | src/main/java/com/app/service/OrderService.java:30-61 | the imperative flow (lookup, discount and total, build, persist, stats update with the boolean ignored, loyalty call) leaves exactly the tables and effect log `PlaceOrder` specifies and returns its result |

## Left out

- HTTP clients and wiring are not modelled: the rewards client, its URL building and bearer headers, the `RestTemplate` configuration, the rewards service's `evaluateRewards`, and the user and rewards controllers. The loyalty confirmation is only an outcome the engine chooses, passed in as `loyaltyConfirmed`.
- Floating-point rounding is not modelled. Amounts are exact `real`s, so `total == cart - discount` and `totalSpent + total` hold exactly, with no `double` rounding.
- Ids and nulls: ids are non-null and unbounded. A null `userId` (which makes the repository throw) or a null cart (a `NullPointerException` after the lookup, before any write) is not modelled.
- The order's generated id, the items' generated ids and their back-references are storage behaviour. The saved order is the built one, and the order table's positions stand in for ids.
- Cascades and the lazy `User.orders` collection are not modelled. The collection is kept as an opaque stored value that the flow never touches; it is not kept in sync with the order table.
- `createdAt` is never assigned by the flow. It keeps Java's default 0; no timestamp is invented.
- Store-level failures (a repository `save` that throws) are not modelled. Steps 4 and 5 always succeed; only the final loyalty call may fail.
- The lost-update race between two concurrent placements for the same user is concurrency, outside a single flow.
- Users.UserService.Save: (a) it stores a record whose `email` another user already holds, where the store's unique constraint would refuse it, and it may change an existing user's email freely; (b) a record whose id is null, or not yet in the table, gets a store-generated id in the source, which the model does not capture: the record is put under the id it carries.
- The rewards engine's list of reward descriptors (`RewardDetailDTO`) is not part of this model, so `RewardsResponse` drops that field. The flow reads only `discountAmount`.
