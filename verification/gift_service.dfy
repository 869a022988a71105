/**
  The gift service: creating an order with a token unique in its room,
  claiming one share of it, and the creator's query of who claimed what.

  The order store is a map keyed by room and token. The clock, the token
  factory and the random source of the divider are parameters: `now`, a
  sequence of candidate tokens, and a sequence of draws.
*/
module GiftService {
  import opened GiftErrors
  import opened SeqSum
  import opened GiftOrder
  import MoneyDivider

  /** The lookup key of the order table: a token is unique within its room. */
  datatype Key = Key(roomId: string, token: string)

  type Store = map<Key, Order>

  /** Configured durations, in milliseconds. */
  datatype Config = Config(expireDuration: int, visiblePeriod: int)

  /** Number of candidate tokens tried before giving up. */
  const MaxRetry: nat := 10

  /** A created order: its token and the store holding it. */
  datatype Created = Created(token: string, store: Store)

  /** A successful claim: the amount received and the updated store. */
  datatype Received = Received(amount: int, store: Store)

  /** One line of the query answer: who received how much. */
  datatype Receiving = Receiving(receiverId: int, amount: int)

  /** The query answer. */
  datatype GiftInfo = GiftInfo(creationTime: int, totalAmount: int, receivedAmount: int, receivings: seq<Receiving>)

  /**
    The store invariant: each order sits under its own room and token, so no
    two orders share a room and token, and each order is well-formed.
  */
  predicate ValidStore(store: Store)
  {
    forall k :: k in store ==>
      && store[k].roomId == k.roomId
      && store[k].token == k.token
      && WellFormed(store[k])
  }

  /** No two stored orders carry the same room and token. */
  lemma RoomTokenUnique(store: Store, k1: Key, k2: Key)
    requires ValidStore(store)
    requires k1 in store && k2 in store && k1 != k2
    ensures store[k1].roomId != store[k2].roomId || store[k1].token != store[k2].token
  {
  }

  predicate Taken(store: Store, roomId: string, token: string)
  {
    Key(roomId, token) in store
  }

  /**
    The retry loop from `attempt` on: the first candidate not taken in the
    room, or failure once every remaining attempt found its candidate taken.
  */
  function TryTokens(store: Store, roomId: string, candidates: seq<string>, attempt: nat): (r: Result<string>)
    requires attempt <= MaxRetry <= |candidates|
    ensures r.Success? ==>
              exists i :: attempt <= i < MaxRetry && candidates[i] == r.value
                && !Taken(store, roomId, candidates[i])
                && forall j :: attempt <= j < i ==> Taken(store, roomId, candidates[j])
    ensures r.Failure? ==>
              && r.error == NoTokenAvailable
              && forall i :: attempt <= i < MaxRetry ==> Taken(store, roomId, candidates[i])
    decreases MaxRetry - attempt
  {
    if attempt == MaxRetry then Failure(NoTokenAvailable)
    else if !Taken(store, roomId, candidates[attempt]) then Success(candidates[attempt])
    else TryTokens(store, roomId, candidates, attempt + 1)
  }

  /**
    Token issuance: the first of the first `MaxRetry` candidates that is not
    yet taken in the room; `NoTokenAvailable` when all of them are.
  */
  function CreateToken(store: Store, roomId: string, candidates: seq<string>): (r: Result<string>)
    requires |candidates| >= MaxRetry
    ensures r.Success? <==> exists i :: 0 <= i < MaxRetry && !Taken(store, roomId, candidates[i])
    ensures r.Success? ==>
              exists i :: 0 <= i < MaxRetry && candidates[i] == r.value
                && !Taken(store, roomId, candidates[i])
                && forall j :: 0 <= j < i ==> Taken(store, roomId, candidates[j])
    ensures r.Failure? ==> r.error == NoTokenAvailable
  {
    TryTokens(store, roomId, candidates, 0)
  }

  /** Fresh, unclaimed slots holding the given amounts. */
  function NewSlots(amounts: seq<int>): (slots: seq<Slot>)
    ensures Amounts(slots) == amounts
    ensures forall i :: 0 <= i < |slots| ==> slots[i].claim.Unclaimed?
  {
    var slots := seq(|amounts|, i requires 0 <= i < |amounts| => Slot(amounts[i], Unclaimed));
    assert Amounts(slots) == amounts;
    slots
  }

  /** Storing a well-formed order under its own room and token keeps the store valid. */
  lemma InsertKeepsValid(store: Store, o: Order)
    requires ValidStore(store) && WellFormed(o)
    ensures ValidStore(store[Key(o.roomId, o.token) := o])
  {
  }

  /** The draws fit the divider whenever creation gets as far as dividing. */
  predicate DrawsFit(totalAmount: int, maxRecipients: int, draws: seq<int>)
  {
    1 <= maxRecipients <= totalAmount ==>
      MoneyDivider.LegalDraws(maxRecipients, totalAmount,
        MoneyDivider.MinAmount(totalAmount, maxRecipients),
        MoneyDivider.MaxAmount(totalAmount, maxRecipients), draws)
  }

  /**
    The order a creation stores: the caller's fields, an expiry one expire
    duration after now, and one unclaimed slot per share of the division.
  */
  function NewOrder(userId: int, roomId: string, token: string, totalAmount: int, maxRecipients: int,
                    now: int, config: Config, draws: seq<int>): (o: Order)
    requires 1 <= maxRecipients <= totalAmount
    requires DrawsFit(totalAmount, maxRecipients, draws)
    ensures WellFormed(o)
    ensures && o.creatorId == userId && o.roomId == roomId && o.token == token
            && o.totalAmount == totalAmount && o.maxRecipients == maxRecipients
            && o.createTime == now && o.expirationTime == now + config.expireDuration
    ensures |o.slots| == maxRecipients
    ensures forall i :: 0 <= i < |o.slots| ==> o.slots[i].claim.Unclaimed? && o.slots[i].amount >= 0
    ensures Sum(Amounts(o.slots)) == totalAmount
    ensures Amounts(o.slots)[..maxRecipients - 1] == draws
  {
    var amounts := MoneyDivider.Divide(totalAmount, maxRecipients, draws);
    Order(userId, roomId, token, totalAmount, maxRecipients,
          now, now + config.expireDuration, NewSlots(amounts))
  }

  /**
    Creating a gift: reject non-positive inputs, then a total below the
    receiver count, then token exhaustion; otherwise store the order under a
    fresh room-and-token key with one unclaimed slot per receiver.
  */
  function Add(store: Store, config: Config, userId: int, roomId: string, totalAmount: int,
               maxRecipients: int, now: int, candidates: seq<string>, draws: seq<int>): (r: Result<Created>)
    requires |candidates| >= MaxRetry
    requires DrawsFit(totalAmount, maxRecipients, draws)
    ensures r == Failure(MustBePositive) <==> totalAmount <= 0 || maxRecipients <= 0
    ensures r == Failure(AmountMustGreaterThanReceivers) <==>
                 0 < totalAmount && 0 < maxRecipients && totalAmount < maxRecipients
    ensures r == Failure(NoTokenAvailable) <==>
                 && 1 <= maxRecipients <= totalAmount
                 && forall i :: 0 <= i < MaxRetry ==> Taken(store, roomId, candidates[i])
    ensures r.Success? <==>
                 && 1 <= maxRecipients <= totalAmount
                 && exists i :: 0 <= i < MaxRetry && !Taken(store, roomId, candidates[i])
    ensures r.Success? ==>
              var k := Key(roomId, r.value.token);
              && k !in store
              && (exists i :: 0 <= i < MaxRetry && candidates[i] == r.value.token)
              && r.value.store.Keys == store.Keys + {k}
              && (forall k' :: k' in store ==> r.value.store[k'] == store[k'])
    ensures r.Success? ==>
              var o := r.value.store[Key(roomId, r.value.token)];
              && o.creatorId == userId && o.roomId == roomId && o.token == r.value.token
              && o.totalAmount == totalAmount && o.maxRecipients == maxRecipients
              && o.createTime == now && o.expirationTime == now + config.expireDuration
              && |o.slots| == maxRecipients
              && (forall i :: 0 <= i < |o.slots| ==> o.slots[i].claim.Unclaimed? && o.slots[i].amount >= 0)
              && Sum(Amounts(o.slots)) == totalAmount
              && Amounts(o.slots)[..maxRecipients - 1] == draws
  {
    if totalAmount <= 0 || maxRecipients <= 0 then Failure(MustBePositive)
    else if totalAmount < maxRecipients then Failure(AmountMustGreaterThanReceivers)
    else
      match CreateToken(store, roomId, candidates)
      case Failure(e) => Failure(e)
      case Success(token) =>
        var o := NewOrder(userId, roomId, token, totalAmount, maxRecipients, now, config, draws);
        Success(Created(token, store[Key(roomId, token) := o]))
  }

  /** Creation keeps the store valid: the new order is well-formed and filed under its own key. */
  lemma AddKeepsValid(store: Store, config: Config, userId: int, roomId: string, totalAmount: int,
                      maxRecipients: int, now: int, candidates: seq<string>, draws: seq<int>)
    requires ValidStore(store)
    requires |candidates| >= MaxRetry
    requires DrawsFit(totalAmount, maxRecipients, draws)
    ensures var r := Add(store, config, userId, roomId, totalAmount, maxRecipients, now, candidates, draws);
            r.Success? ==> ValidStore(r.value.store)
  {
    var r := Add(store, config, userId, roomId, totalAmount, maxRecipients, now, candidates, draws);
    if r.Success? {
      var o := NewOrder(userId, roomId, r.value.token, totalAmount, maxRecipients, now, config, draws);
      assert r.value.store == store[Key(roomId, r.value.token) := o];
      InsertKeepsValid(store, o);
    }
  }

  /** The checks a claim passes before a slot is handed out, in the order they are made. */
  predicate ClaimPasses(store: Store, userId: int, k: Key, now: int)
  {
    && k in store
    && store[k].creatorId != userId
    && !HasExpired(store[k], now)
    && !HasReceived(store[k].slots, userId)
    && HasUnclaimed(store[k].slots)
  }

  /**
    Claiming a share: reject an unknown token, the creator, an expired
    order, a user who already holds a slot, and an order with no free slot,
    in that order; otherwise hand one free slot to the user and return its
    amount, changing nothing else.
  */
  function Receive(store: Store, userId: int, roomId: string, token: string, now: int): (r: Result<Received>)
    ensures var k := Key(roomId, token);
            r == Failure(InvalidToken) <==> k !in store
    ensures var k := Key(roomId, token);
            r == Failure(NotAllowedToCreator) <==> k in store && store[k].creatorId == userId
    ensures var k := Key(roomId, token);
            r == Failure(Expired) <==>
                 k in store && store[k].creatorId != userId && HasExpired(store[k], now)
    ensures var k := Key(roomId, token);
            r == Failure(AlreadyReceived) <==>
                 && k in store && store[k].creatorId != userId && !HasExpired(store[k], now)
                 && HasReceived(store[k].slots, userId)
    ensures var k := Key(roomId, token);
            r == Failure(AlreadyFullyConsumed) <==>
                 && k in store && store[k].creatorId != userId && !HasExpired(store[k], now)
                 && !HasReceived(store[k].slots, userId) && !HasUnclaimed(store[k].slots)
    ensures r.Success? <==> ClaimPasses(store, userId, Key(roomId, token), now)
    ensures r.Success? ==>
              var k := Key(roomId, token);
              var o := store[k];
              exists i :: 0 <= i < |o.slots| && o.slots[i].claim.Unclaimed?
                && r.value.amount == o.slots[i].amount
                && r.value.store == store[k := o.(slots := ClaimSlot(o.slots, i, userId))]
    ensures ValidStore(store) && r.Success? ==> ValidStore(r.value.store)
  {
    var k := Key(roomId, token);
    if k !in store then Failure(InvalidToken)
    else
      var o := store[k];
      if o.creatorId == userId then Failure(NotAllowedToCreator)
      else if HasExpired(o, now) then Failure(Expired)
      else if HasReceived(o.slots, userId) then Failure(AlreadyReceived)
      else if !HasUnclaimed(o.slots) then Failure(AlreadyFullyConsumed)
      else
        var i := FirstUnclaimed(o.slots);
        var o' := o.(slots := ClaimSlot(o.slots, i, userId));
        assert WellFormed(o) ==> WellFormed(o') by {
          if WellFormed(o) {
            ClaimKeepsWellFormed(o, i, userId);
          }
        }
        Success(Received(o.slots[i].amount, store[k := o']))
  }

  /** The claimed slots, in slot order, as (receiver, amount) lines. */
  function Receivings(slots: seq<Slot>): seq<Receiving>
  {
    if |slots| == 0 then []
    else
      match slots[0].claim
      case ClaimedBy(u) => [Receiving(u, slots[0].amount)] + Receivings(slots[1..])
      case Unclaimed => Receivings(slots[1..])
  }

  /** The running total of the query loop. */
  function ReceivedTotal(rs: seq<Receiving>): int
  {
    if |rs| == 0 then 0 else rs[0].amount + ReceivedTotal(rs[1..])
  }

  /**
    The query lines are exactly the claimed slots: one per claimed slot, a
    line for a receiver and amount iff a slot holds that amount for that
    receiver, and their total is the claimed amount.
  */
  lemma {:induction false} ReceivingsMatchSlots(slots: seq<Slot>)
    ensures |Receivings(slots)| == ClaimedCount(slots)
    ensures ReceivedTotal(Receivings(slots)) == ClaimedAmount(slots)
    ensures forall rc :: rc in Receivings(slots) <==>
              exists i :: 0 <= i < |slots| && slots[i] == Slot(rc.amount, ClaimedBy(rc.receiverId))
  {
    if |slots| > 0 {
      ReceivingsMatchSlots(slots[1..]);
      var rest := Receivings(slots[1..]);
      match slots[0].claim
      case ClaimedBy(u) =>
        assert ([Receiving(u, slots[0].amount)] + rest)[1..] == rest;
      case Unclaimed =>
      forall rc
        ensures rc in Receivings(slots) <==>
                exists i :: 0 <= i < |slots| && slots[i] == Slot(rc.amount, ClaimedBy(rc.receiverId))
      {
        if exists i :: 0 <= i < |slots| && slots[i] == Slot(rc.amount, ClaimedBy(rc.receiverId)) {
          var i :| 0 <= i < |slots| && slots[i] == Slot(rc.amount, ClaimedBy(rc.receiverId));
          assert slots[1..][i - 1] == slots[i];
        }
        if rc in Receivings(slots) {
          var i :| 0 <= i < |slots[1..]| && slots[1..][i] == Slot(rc.amount, ClaimedBy(rc.receiverId));
          assert slots[i + 1] == slots[1..][i];
        }
      }
    }
  }

  /**
    The creator's query: reject an unknown token, anyone but the creator,
    and a query after the visible period, in that order; otherwise report
    the creation time, the total, exactly the claimed slots and their sum.
    The store is only read.
  */
  function Get(store: Store, userId: int, roomId: string, token: string, now: int, visiblePeriod: int): (r: Result<GiftInfo>)
    ensures var k := Key(roomId, token);
            r == Failure(InvalidToken) <==> k !in store
    ensures var k := Key(roomId, token);
            r == Failure(OnlyAllowedToCreator) <==> k in store && store[k].creatorId != userId
    ensures var k := Key(roomId, token);
            r == Failure(QueryPeriodPassed) <==>
                 k in store && store[k].creatorId == userId && !IsVisible(store[k], now, visiblePeriod)
    ensures var k := Key(roomId, token);
            r.Success? <==> k in store && store[k].creatorId == userId && IsVisible(store[k], now, visiblePeriod)
    ensures r.Success? ==>
              var o := store[Key(roomId, token)];
              && r.value.creationTime == o.createTime
              && r.value.totalAmount == o.totalAmount
              && r.value.receivedAmount == ClaimedAmount(o.slots)
              && |r.value.receivings| == ClaimedCount(o.slots)
              && forall rc :: rc in r.value.receivings <==>
                   exists i :: 0 <= i < |o.slots| && o.slots[i] == Slot(rc.amount, ClaimedBy(rc.receiverId))
    ensures ValidStore(store) && r.Success? ==> 0 <= r.value.receivedAmount <= r.value.totalAmount
  {
    var k := Key(roomId, token);
    if k !in store then Failure(InvalidToken)
    else
      var o := store[k];
      if o.creatorId != userId then Failure(OnlyAllowedToCreator)
      else if !IsVisible(o, now, visiblePeriod) then Failure(QueryPeriodPassed)
      else
        var rs := Receivings(o.slots);
        ReceivingsMatchSlots(o.slots);
        assert WellFormed(o) ==> 0 <= ClaimedAmount(o.slots) <= o.totalAmount by {
          if WellFormed(o) {
            ClaimedWithinTotal(o.slots);
          }
        }
        Success(GiftInfo(o.createTime, o.totalAmount, ReceivedTotal(rs), rs))
  }
}
