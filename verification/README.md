# Gift orders: a Dafny model of the scatter-money core

This project models the business core of the pay-webapp gift service, where a
creator scatters money in a chat room. `add` splits a total amount into
one share per receiver and files the order under a token that is unique in
its room. `receive` hands each claimant one unclaimed share: once per user,
never to the creator, and only until the order expires. `get` lets the creator
see who received how much while the order is still visible.

The model is purely functional. The order table is a map from (room, token)
to an order. Each order holds one slot per receiver, and a slot is an amount
plus who has claimed it. The service operations are functions from a store to
a `Result`, and every exception the service throws is a `Failure` carrying the
matching error kind. The clock, the token factory and the random source are
parameters:

- `now` is the current time in milliseconds.
- `candidates` are the tokens the factory would produce; at least ten of them,
  one per retry.
- `draws` are the values the random source would return. `LegalDraws` says
  which draw sequences `RandomUtils.nextLong` can produce. For a range that is
  empty because its two ends are equal it returns the lower end.

Modules:

- `GiftErrors`: the error kinds and `Result`.
- `SeqSum`: the sum of a sequence.
- `MoneyDivider`: the divider that precomputes the shares, and its `next()`
  cursor.
- `GiftOrder`: the order record, its expiry and visibility predicates, and
  operations on its slots.
- `GiftService`: token issuance, creation, claiming and the query.
- `GiftProperties`: properties that relate several calls.

Behaviour follows the code where its description says otherwise:

- A total equal to the receiver count is accepted. The guard rejects only a
  total below the count.
- Shares of zero are possible. When the total is below twice the receiver
  count, the minimum share is zero and zero is a legal draw.
- Expiry is strict. At exactly its expiration time an order still accepts
  claims; one millisecond later it does not. The same holds for visibility.
- The last share is the remainder and is bounded only by the total, not by
  `maxAmount`. The test at
  `src/test/java/com/sowells/pay/webapp/gift/service/GiftServiceTest.java:265`
  expects every share, the last included, to be at most `maxAmount`.
  `MoneyDivider.LastShareMayExceedMax` exhibits a legal division of 10000
  among three whose last share is 6668, above the maximum of 6666.
- The code puts no ceiling on the receiver count, so none is modelled.

## Model

| member | source | states |
|---|---|---|
| `MoneyDivider.Divide` | src/main/java/com/sowells/pay/webapp/gift/service/GiftService.java:194-210 | For any legal draws the divider yields exactly `n` shares that add up to the total. The first `n-1` shares are the draws, each in [minAmount, maxAmount]. The last share is the remainder, at least minAmount. Every share lies in [0, total]. |
| `MoneyDivider.Shares` | src/main/java/com/sowells/pay/webapp/gift/service/GiftService.java:199-210 | From any point of the loop where the amount left covers the minimum of every receiver still to come, the remaining shares add up to what is left. Each drawn share is within bounds, and the last share is at least the minimum. |
| `MoneyDivider.DrawRangeNonEmpty` | src/main/java/com/sowells/pay/webapp/gift/service/GiftService.java:203-205 | While the amount left covers every later receiver's minimum, the clamped range of `nextLong` never ends below minAmount, so the random source never rejects it, and minAmount itself can be drawn. |
| `MoneyDivider.DrawKeepsInvariant` | src/main/java/com/sowells/pay/webapp/gift/service/GiftService.java:203-209 | Any value the random source can return lies in [minAmount, maxAmount]. After subtracting it, the amount left still covers the minimum of every later receiver. |
| `MoneyDivider.MinSharesFit` | src/main/java/com/sowells/pay/webapp/gift/service/GiftService.java:197 | `n` minimum shares of `total / n / 2` never exceed the total, so the divider's invariant holds on entry. |
| `MoneyDivider.MinimalDrawsLegal` | src/main/java/com/sowells/pay/webapp/gift/service/GiftService.java:202-210 | Drawing the minimum for every receiver but the last is a draw sequence the random source can produce. |
| `MoneyDivider.DivisionAlwaysPossible` | src/main/java/com/sowells/pay/webapp/gift/service/GiftService.java:194-210 | For every non-negative total and positive receiver count the divider can finish: some legal draw sequence exists. |
| `MoneyDivider.DividerFitsInLong` | src/main/java/com/sowells/pay/webapp/gift/service/GiftService.java:203-216 | For a 64-bit total and a 32-bit receiver count, `maxAmount + 1` and `numOfRemainingReceivers * minAmount` stay within the 64-bit range, so the Java arithmetic never wraps. |
| `MoneyDivider.LastShareMayExceedMax` | src/main/java/com/sowells/pay/webapp/gift/service/GiftService.java:204-207 | With total 10000 and 3 receivers, minAmount is 1666 and maxAmount is 6666. The draws [1666, 1666] are legal and leave a last share of 6668, above maxAmount. |
| `MoneyDivider.ZeroShareMayOccur` | src/main/java/com/sowells/pay/webapp/gift/service/GiftService.java:197-205 | With total 3 and 2 receivers, minAmount is 0, a draw of 0 is legal, and the shares are [0, 3]. |
| `MoneyDivider.DrainYieldsRest` | src/main/java/com/sowells/pay/webapp/gift/service/GiftService.java:218-221 | From any cursor position, calling `next()` once per remaining amount returns exactly the remaining amounts in order and leaves the cursor at the end. |
| `MoneyDivider.DrainPastEndFails` | src/main/java/com/sowells/pay/webapp/gift/service/GiftService.java:218-221 | Calling `next()` more times than amounts remain fails with the fully-consumed error. |
| `MoneyDivider.FreshDividerYieldsAmounts` | src/main/java/com/sowells/pay/webapp/gift/service/GiftService.java:82-88 | A fresh divider's `n` calls to `next()`, as made by `add`, return the `n` precomputed shares in order, and an `(n+1)`-th call fails. |
| `GiftOrder.ExpiryBoundary` | src/main/java/com/sowells/pay/webapp/gift/entity/GiftOrder.java:37-41 | An order has not expired at its expiration time and has expired one millisecond later. |
| `GiftOrder.ExpiryIsMonotone` | src/main/java/com/sowells/pay/webapp/gift/entity/GiftOrder.java:37-41 | Once expired, an order stays expired at every later time. |
| `GiftOrder.VisibilityBoundary` | src/main/java/com/sowells/pay/webapp/gift/entity/GiftOrder.java:30-35 | An order is visible at creation time plus the period and invisible one millisecond later. |
| `GiftOrder.VisibilityOnlyLapses` | src/main/java/com/sowells/pay/webapp/gift/entity/GiftOrder.java:30-35 | Once no longer visible, an order stays invisible at every later time. |
| `GiftOrder.FirstUnclaimed` | src/main/java/com/sowells/pay/webapp/gift/service/GiftService.java:133-135 | When some slot is unclaimed, the slot found is unclaimed and every slot before it is claimed. |
| `GiftOrder.ClaimSlot` | src/main/java/com/sowells/pay/webapp/gift/service/GiftService.java:137-138 | Recording the receiver gives that slot to the user, keeps its amount, and leaves every other slot as it was. |
| `GiftOrder.NothingClaimedYet` | src/main/java/com/sowells/pay/webapp/gift/service/GiftService.java:83-88 | Freshly created slots, none with a receiver, count no claims and no claimed amount. |
| `GiftOrder.ClaimedCountBounds` | src/main/java/com/sowells/pay/webapp/gift/service/GiftService.java:133-134 | The claimed slots never outnumber the slots, and all slots are claimed exactly when none is free. This is the condition for the fully-consumed error. |
| `GiftOrder.ClaimedWithinTotal` | src/main/java/com/sowells/pay/webapp/gift/service/GiftService.java:166-177 | With non-negative amounts, the claimed amount lies between zero and the sum of all amounts. |
| `GiftOrder.ClaimAddsOne` | src/main/java/com/sowells/pay/webapp/gift/service/GiftService.java:135-140 | Claiming a free slot raises the claim count by exactly one and the claimed amount by exactly that slot's amount, and leaves every amount unchanged. |
| `GiftOrder.ClaimKeepsWellFormed` | src/main/java/com/sowells/pay/webapp/gift/service/GiftService.java:125-140 | Giving a free slot to a user who is not the creator and holds no slot keeps the order well-formed. Its amounts still sum to the total, no user holds two slots, and the creator holds none. |
| `GiftService.RoomTokenUnique` | src/main/java/com/sowells/pay/webapp/gift/entity/GiftOrder.java:13 | In a valid store, no two orders share both room and token. |
| `GiftService.TryTokens` | src/main/java/com/sowells/pay/webapp/gift/service/GiftService.java:94-104 | The retry loop from a given attempt returns the first candidate not yet taken in the room. It fails with the no-token error exactly when every remaining attempt's candidate is taken. |
| `GiftService.CreateToken` | src/main/java/com/sowells/pay/webapp/gift/service/GiftService.java:93-105 | A token is issued iff one of the first ten candidates is free in the room. The token is the first free candidate, and failure is the no-token error. |
| `GiftService.NewSlots` | src/main/java/com/sowells/pay/webapp/gift/service/GiftService.java:83-88 | One history row per share: the slots carry exactly the given amounts, and all are unclaimed. |
| `GiftService.NewOrder` | src/main/java/com/sowells/pay/webapp/gift/service/GiftService.java:71-88 | The stored order carries the caller's fields and expires one expire duration after now. It has one unclaimed slot per receiver, with amounts that come from the draws, are non-negative and sum to the total, and it is well-formed. |
| `GiftService.Add` | src/main/java/com/sowells/pay/webapp/gift/service/GiftService.java:65-91 | Each error happens exactly when the code raises it, checked in this order: non-positive input, total below the receiver count, every token taken. Success happens exactly when none applies. A success files a new order under a fresh key with a candidate token, adds exactly that key and changes no other order. |
| `GiftService.AddKeepsValid` | src/main/java/com/sowells/pay/webapp/gift/service/GiftService.java:65-91 | Creation keeps the store valid, so room-and-token uniqueness and well-formed orders survive. |
| `GiftService.Receive` | src/main/java/com/sowells/pay/webapp/gift/service/GiftService.java:121-141 | Each of the five errors happens exactly when its check is the first to fail, in the code's order. Success happens exactly when all checks pass. A success hands one previously free slot to the user, returns that slot's amount, and changes nothing else. The store stays valid. |
| `GiftService.ReceivingsMatchSlots` | src/main/java/com/sowells/pay/webapp/gift/service/GiftService.java:168-175 | There is one query line per claimed slot. A line (receiver, amount) appears iff some slot holds that amount for that receiver. The lines add up to the claimed amount. |
| `GiftService.Get` | src/main/java/com/sowells/pay/webapp/gift/service/GiftService.java:154-180 | Each error happens exactly when its check is the first to fail: unknown token, then not the creator, then past the visible period. A success reports the creation time, the total, exactly the claimed slots and their sum. In a valid store that sum lies between zero and the total. |
| `GiftProperties.ClaimedSlot` | src/main/java/com/sowells/pay/webapp/gift/service/GiftService.java:133-140 | A successful claim names the slot it took: a slot that was free, whose amount is the one returned, and which now holds the claimant. |
| `GiftProperties.ClaimAtMostOnce` | src/main/java/com/sowells/pay/webapp/gift/service/GiftService.java:127-131 | After a successful claim, the same user's next claim on that order fails. It fails as already received while the order is open, and as expired or already received later. |
| `GiftProperties.ClaimIsPermanent` | src/main/java/com/sowells/pay/webapp/gift/service/GiftService.java:130-138 | A successful claim needs the claimant to hold no slot yet and leaves them holding one. Any other user holds a slot afterwards exactly when they did before. |
| `GiftProperties.AtMostOncePerUser` | src/main/java/com/sowells/pay/webapp/gift/service/GiftService.java:110-138 | However the claims of a batch interleave, a user succeeds at most once per gift, and not at all if they already held a slot of it. |
| `GiftProperties.BatchTouchesOnlyClaims` | src/main/java/com/sowells/pay/webapp/gift/service/GiftService.java:121-141 | Any sequence of claims on one order keeps the store valid and keeps its keys and every other order. Of that order only the claims on its slots change; the amounts do not. |
| `GiftProperties.ClaimsNeverExceedReceivers` | src/main/java/com/sowells/pay/webapp/gift/service/GiftService.java:133-134 | Over any sequence of claims, the claimed slots grow by exactly the number of successes. Earlier claims plus successes never exceed the receiver count. |
| `GiftProperties.ClaimShowsInQuery` | src/test/java/com/sowells/pay/webapp/gift/service/GiftServiceTest.java:195-212 | After a successful claim, the creator's query reports a received amount larger by exactly the amount claimed and one more line, and that line names the claimant and the amount. |
| `GiftProperties.FreshThousandForTwo` | src/main/java/com/sowells/pay/webapp/gift/service/GiftService.java:65-91 | A gift of 1000 for two receivers is created with two unclaimed slots, a draw between 250 and 749 and its complement. |
| `GiftProperties.TwoClaims` | src/test/java/com/sowells/pay/webapp/gift/service/GiftServiceTest.java:121-170 | On such an order, user 1's claim gets between 250 and 750. The creator and user 1 again are refused. User 2 gets the rest. User 3 finds the gift fully consumed. |
| `GiftProperties.QueryAfterTwoClaims` | src/test/java/com/sowells/pay/webapp/gift/service/GiftServiceTest.java:184-212 | After those two claims, the creator's query lists both receivers with their amounts and reports their sum. |
| `GiftProperties.EndToEnd` | src/test/java/com/sowells/pay/webapp/gift/service/GiftServiceTest.java:98-170 | The walk-through from creation: a gift of 1000 for two, claimed by two users, refused to the creator, to a repeat claim and to a third user, and queried by the creator, who sees both claims summing to 1000. |
| `GiftProperties.ZeroShareOrderAccepted` | src/main/java/com/sowells/pay/webapp/gift/service/GiftService.java:67-86 | Whenever the total is at least the receiver count but less than twice it, creation succeeds with draws of zero, and the first receiver's share is zero. |

## Left out

- The HTTP controller, the exception handler, the request and response classes and the repository interfaces are outside the modelled core. The repository becomes the map from (room, token) to order.
- Transactions, isolation levels and concurrent claimants are not modelled. Each operation is one atomic step on the store, and a batch of claims is sequential.
- The token factory's random three-character tokens become the `candidates` parameter. Only uniqueness in the room is modelled, not the token format.
- `RandomUtils.nextLong` becomes the `draws` parameter, constrained by `LegalDraws`. Uniformity of the distribution is not modelled.
- The system clock becomes the `now` parameter. The creation time, which Hibernate assigns from the JVM clock when the order is inserted, is taken to be the same `now` as the expiration computation.
- The generated request and history identifiers are left out. A slot is identified by its position in the order, and the history rows' own timestamps are also left out.
- Error message texts, the parameter strings appended to them, and logging are not modelled. Each error is only its kind.
- Lombok's `@NonNull` makes the service throw NullPointerException on a null room or token before its own checks; the model has no null strings. The `@Positive` annotations are not modelled either; only the service's own checks are.
- Timestamps are unbounded integers, so overflow of `now + expireDuration` or of creation time plus the visible period is not modelled. Amounts are unbounded too, but `MoneyDivider.DividerFitsInLong` shows the divider's intermediate values fit in 64 bits.
- GiftService.Receive: the contract promises only that some free slot is handed out, not which one, because the source's `findAny()` promises no particular slot. The model's body takes the first.
- GiftService.Add: when the inputs pass the checks, the draws must be legal for the divider (`DrawsFit`). This constrains the random-source parameter, not the caller.
- MoneyDivider.Next: a call past the end throws an IndexOutOfBoundsException in the source, while `receive` reports a fully-consumed gift as a client error; the model gives both the same error kind, `AlreadyFullyConsumed`.
