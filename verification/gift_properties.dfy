/**
  Properties that relate several service calls: a user claims at most once,
  no more claims succeed than there are receivers, a claim shows up in the
  creator's query, and the end-to-end walk through create, claim and query.
*/
module GiftProperties {
  import opened GiftErrors
  import opened SeqSum
  import opened GiftOrder
  import opened GiftService
  import MoneyDivider

  /** Names the slot a successful claim handed out. */
  lemma ClaimedSlot(store: Store, userId: int, roomId: string, token: string, now: int) returns (i: nat)
    requires Receive(store, userId, roomId, token, now).Success?
    ensures var k := Key(roomId, token);
            var o := store[k];
            var rcv := Receive(store, userId, roomId, token, now).value;
            && k in store
            && i < |o.slots| && o.slots[i].claim.Unclaimed?
            && rcv.amount == o.slots[i].amount
            && rcv.store == store[k := o.(slots := ClaimSlot(o.slots, i, userId))]
            && rcv.store[k].slots == ClaimSlot(o.slots, i, userId)
  {
    var k := Key(roomId, token);
    var o := store[k];
    var rcv := Receive(store, userId, roomId, token, now).value;
    i :| 0 <= i < |o.slots| && o.slots[i].claim.Unclaimed?
         && rcv.amount == o.slots[i].amount
         && rcv.store == store[k := o.(slots := ClaimSlot(o.slots, i, userId))];
  }

  /** A second claim by the same user fails: expired, or already received. */
  lemma ClaimAtMostOnce(store: Store, userId: int, roomId: string, token: string, now: int, later: int)
    requires Receive(store, userId, roomId, token, now).Success?
    ensures var r := Receive(Receive(store, userId, roomId, token, now).value.store, userId, roomId, token, later);
            && r.Failure?
            && (r.error == Expired || r.error == AlreadyReceived)
            && (later <= store[Key(roomId, token)].expirationTime ==> r.error == AlreadyReceived)
  {
    var k := Key(roomId, token);
    var i := ClaimedSlot(store, userId, roomId, token, now);
    var s' := Receive(store, userId, roomId, token, now).value.store;
    assert s'[k].slots[i].claim == ClaimedBy(userId);
    assert HasReceived(s'[k].slots, userId);
  }

  /** One claim request of a batch: who asks, and when. */
  datatype ClaimRequest = ClaimRequest(userId: int, now: int)

  /** The store after a batch of claims on one order, and how many succeeded. */
  datatype Batch = Batch(store: Store, succeeded: nat)

  /** Runs the claim requests one after another against the same room and token. */
  function ReceiveAll(store: Store, roomId: string, token: string, requests: seq<ClaimRequest>): Batch
    decreases |requests|
  {
    if |requests| == 0 then Batch(store, 0)
    else
      match Receive(store, requests[0].userId, roomId, token, requests[0].now)
      case Failure(_) => ReceiveAll(store, roomId, token, requests[1..])
      case Success(rcv) =>
        var b := ReceiveAll(rcv.store, roomId, token, requests[1..]);
        Batch(b.store, b.succeeded + 1)
  }

  /** How many claims of a batch succeed for user `u`. */
  function SuccessesOf(store: Store, roomId: string, token: string, requests: seq<ClaimRequest>, u: int): nat
    decreases |requests|
  {
    if |requests| == 0 then 0
    else
      match Receive(store, requests[0].userId, roomId, token, requests[0].now)
      case Failure(_) => SuccessesOf(store, roomId, token, requests[1..], u)
      case Success(rcv) =>
        (if requests[0].userId == u then 1 else 0) + SuccessesOf(rcv.store, roomId, token, requests[1..], u)
  }

  /**
    A claim is permanent: after a successful claim by `w`, user `w` holds a
    slot of the order, and every other user holds one exactly when they did
    before.
  */
  lemma ClaimIsPermanent(store: Store, w: int, roomId: string, token: string, now: int, u: int)
    requires Receive(store, w, roomId, token, now).Success?
    ensures var k := Key(roomId, token);
            var after := Receive(store, w, roomId, token, now).value.store;
            && k in after
            && !HasReceived(store[k].slots, w)
            && HasReceived(after[k].slots, w)
            && (u != w ==> (HasReceived(after[k].slots, u) <==> HasReceived(store[k].slots, u)))
  {
    var k := Key(roomId, token);
    var i := ClaimedSlot(store, w, roomId, token, now);
    var s := store[k].slots;
    var s' := Receive(store, w, roomId, token, now).value.store[k].slots;
    assert s'[i].claim == ClaimedBy(w);
    if u != w {
      if HasReceived(s, u) {
        var j :| 0 <= j < |s| && s[j].claim == ClaimedBy(u);
        assert s'[j] == s[j];
      }
      if HasReceived(s', u) {
        var j :| 0 <= j < |s'| && s'[j].claim == ClaimedBy(u);
        assert s'[j] == s[j];
      }
    }
  }

  /**
    However the claims of a batch interleave, a user succeeds at most once,
    and not at all if they already held a slot of the order.
  */
  lemma {:induction false} AtMostOncePerUser(store: Store, roomId: string, token: string,
                                             requests: seq<ClaimRequest>, u: int)
    requires Key(roomId, token) in store
    ensures SuccessesOf(store, roomId, token, requests, u)
            + (if HasReceived(store[Key(roomId, token)].slots, u) then 1 else 0) <= 1
    decreases |requests|
  {
    if |requests| > 0 {
      var rq := requests[0];
      var r := Receive(store, rq.userId, roomId, token, rq.now);
      if r.Success? {
        ClaimIsPermanent(store, rq.userId, roomId, token, rq.now, u);
        AtMostOncePerUser(r.value.store, roomId, token, requests[1..], u);
      } else {
        AtMostOncePerUser(store, roomId, token, requests[1..], u);
      }
    }
  }

  /**
    A batch of claims on one order keeps the store valid, leaves every other
    order and every key as it was, and changes nothing of the order but the
    claims on its slots.
  */
  lemma {:induction false} BatchTouchesOnlyClaims(store: Store, roomId: string, token: string, requests: seq<ClaimRequest>)
    requires ValidStore(store) && Key(roomId, token) in store
    ensures var b := ReceiveAll(store, roomId, token, requests);
            var k := Key(roomId, token);
            && ValidStore(b.store)
            && b.store.Keys == store.Keys
            && (forall k' :: k' in store && k' != k ==> b.store[k'] == store[k'])
            && b.store[k].(slots := store[k].slots) == store[k]
            && Amounts(b.store[k].slots) == Amounts(store[k].slots)
    decreases |requests|
  {
    if |requests| > 0 {
      var rq := requests[0];
      var r := Receive(store, rq.userId, roomId, token, rq.now);
      var tail := requests[1..];
      if r.Success? {
        var k := Key(roomId, token);
        var o := store[k];
        var i := ClaimedSlot(store, rq.userId, roomId, token, rq.now);
        ClaimAddsOne(o.slots, i, rq.userId);
        BatchTouchesOnlyClaims(r.value.store, roomId, token, tail);
        var b := ReceiveAll(r.value.store, roomId, token, tail);
        assert ReceiveAll(store, roomId, token, requests) == Batch(b.store, b.succeeded + 1);
      } else {
        BatchTouchesOnlyClaims(store, roomId, token, tail);
        assert ReceiveAll(store, roomId, token, requests) == ReceiveAll(store, roomId, token, tail);
      }
    }
  }

  /**
    However many claims arrive, each success claims one more slot, so the
    successes never exceed the receivers still unserved.
  */
  lemma {:induction false} ClaimsNeverExceedReceivers(store: Store, roomId: string, token: string, requests: seq<ClaimRequest>)
    requires ValidStore(store) && Key(roomId, token) in store
    ensures var b := ReceiveAll(store, roomId, token, requests);
            var k := Key(roomId, token);
            && k in b.store
            && ClaimedCount(b.store[k].slots) == ClaimedCount(store[k].slots) + b.succeeded
            && ClaimedCount(store[k].slots) + b.succeeded <= store[k].maxRecipients
    decreases |requests|
  {
    var k := Key(roomId, token);
    BatchTouchesOnlyClaims(store, roomId, token, requests);
    var b := ReceiveAll(store, roomId, token, requests);
    ClaimedCountBounds(b.store[k].slots);
    assert |b.store[k].slots| == b.store[k].maxRecipients == store[k].maxRecipients;
    if |requests| > 0 {
      var rq := requests[0];
      var r := Receive(store, rq.userId, roomId, token, rq.now);
      var tail := requests[1..];
      if r.Success? {
        var o := store[k];
        var i := ClaimedSlot(store, rq.userId, roomId, token, rq.now);
        ClaimAddsOne(o.slots, i, rq.userId);
        ClaimsNeverExceedReceivers(r.value.store, roomId, token, tail);
        assert b == Batch(ReceiveAll(r.value.store, roomId, token, tail).store,
                          ReceiveAll(r.value.store, roomId, token, tail).succeeded + 1);
      } else {
        ClaimsNeverExceedReceivers(store, roomId, token, tail);
        assert b == ReceiveAll(store, roomId, token, tail);
      }
    }
  }

  /**
    After a successful claim, the creator's query (if it succeeded before)
    still succeeds, reports the claimed amount increased by exactly the
    amount received, one more line, and a line for the receiver with that
    amount.
  */
  lemma ClaimShowsInQuery(store: Store, userId: int, creatorId: int, roomId: string, token: string,
                          now: int, later: int, visiblePeriod: int)
    requires Receive(store, userId, roomId, token, now).Success?
    requires Get(store, creatorId, roomId, token, later, visiblePeriod).Success?
    ensures var rcv := Receive(store, userId, roomId, token, now).value;
            var before := Get(store, creatorId, roomId, token, later, visiblePeriod).value;
            var after := Get(rcv.store, creatorId, roomId, token, later, visiblePeriod);
            && after.Success?
            && after.value.receivedAmount == before.receivedAmount + rcv.amount
            && |after.value.receivings| == |before.receivings| + 1
            && Receiving(userId, rcv.amount) in after.value.receivings
  {
    var k := Key(roomId, token);
    var o := store[k];
    var rcv := Receive(store, userId, roomId, token, now).value;
    var i := ClaimedSlot(store, userId, roomId, token, now);
    ClaimAddsOne(o.slots, i, userId);
    var s' := rcv.store[k].slots;
    assert s'[i] == Slot(rcv.amount, ClaimedBy(userId));
  }

  /**
    A fresh gift of 1000 for two receivers holds two unclaimed slots: a draw
    between 250 and 749 and the rest of the thousand.
  */
  lemma FreshThousandForTwo(store: Store, config: Config, now: int, candidates: seq<string>, draws: seq<int>)
    returns (d: int)
    requires |candidates| >= MaxRetry
    requires exists i :: 0 <= i < MaxRetry && !Taken(store, "r0", candidates[i])
    requires DrawsFit(1000, 2, draws)
    ensures var c := Add(store, config, 0, "r0", 1000, 2, now, candidates, draws);
            && c.Success?
            && var o := c.value.store[Key("r0", c.value.token)];
               && o.creatorId == 0 && o.createTime == now && o.expirationTime == now + config.expireDuration
               && o.slots == [Slot(d, Unclaimed), Slot(1000 - d, Unclaimed)]
               && 250 <= d <= 749
  {
    var c := Add(store, config, 0, "r0", 1000, 2, now, candidates, draws);
    var o := c.value.store[Key("r0", c.value.token)];
    assert MoneyDivider.MinAmount(1000, 2) == 250 && MoneyDivider.MaxAmount(1000, 2) == 750;
    assert MoneyDivider.DrawBound(250, 750, 1, 1000) == 750;
    var a := Amounts(o.slots);
    d := draws[0];
    assert a[0] == a[..1][0] == d;
    assert a[1..][1..] == [];
    assert a[0] + a[1] == 1000;
    assert o.slots[0] == Slot(d, Unclaimed) && o.slots[1] == Slot(1000 - d, Unclaimed);
  }

  /**
    Claims on an open order with two free slots, a draw `d` between 250 and
    749 and the rest of 1000: user 1 gets one slot, the creator and user 1
    again are refused, user 2 gets the other, user 3 finds nothing left.
  */
  lemma TwoClaims(st0: Store, roomId: string, token: string, d: int, later: int)
    requires Key(roomId, token) in st0
    requires st0[Key(roomId, token)].creatorId == 0
    requires !HasExpired(st0[Key(roomId, token)], later)
    requires st0[Key(roomId, token)].slots == [Slot(d, Unclaimed), Slot(1000 - d, Unclaimed)]
    requires 250 <= d <= 749
    ensures var r1 := Receive(st0, 1, roomId, token, later);
            && r1.Success?
            && 250 <= r1.value.amount <= 750
            && Receive(r1.value.store, 0, roomId, token, later) == Failure(NotAllowedToCreator)
            && Receive(r1.value.store, 1, roomId, token, later) == Failure(AlreadyReceived)
            && var r2 := Receive(r1.value.store, 2, roomId, token, later);
               && r2.Success?
               && r1.value.amount + r2.value.amount == 1000
               && Receive(r2.value.store, 3, roomId, token, later) == Failure(AlreadyFullyConsumed)
               && var k := Key(roomId, token);
                  var s2 := r2.value.store[k].slots;
                  && r2.value.store[k].(slots := st0[k].slots) == st0[k]
                  && ClaimedCount(s2) == 2
                  && ClaimedAmount(s2) == r1.value.amount + r2.value.amount
                  && (exists x :: 0 <= x < |s2| && s2[x] == Slot(r1.value.amount, ClaimedBy(1)))
                  && (exists x :: 0 <= x < |s2| && s2[x] == Slot(r2.value.amount, ClaimedBy(2)))
  {
    var k := Key(roomId, token);
    var s0 := st0[k].slots;

    // user 1 takes one of the two slots
    assert s0[0].claim.Unclaimed?;
    assert !HasReceived(s0, 1);
    assert ClaimPasses(st0, 1, k, later);
    var i1 := ClaimedSlot(st0, 1, roomId, token, later);
    var r1 := Receive(st0, 1, roomId, token, later).value;
    var s1 := r1.store[k].slots;
    ClaimAtMostOnce(st0, 1, roomId, token, later, later);

    // user 2 takes the other
    var j := 1 - i1;
    assert s1[j] == s0[j] && s1[i1].claim == ClaimedBy(1);
    assert forall x :: 0 <= x < |s1| ==> s1[x].claim != ClaimedBy(2);
    assert ClaimPasses(r1.store, 2, k, later);
    var i2 := ClaimedSlot(r1.store, 2, roomId, token, later);
    assert i2 == j;
    var r2 := Receive(r1.store, 2, roomId, token, later).value;
    var s2 := r2.store[k].slots;

    // nothing is left for user 3
    assert s2[i1] == Slot(r1.amount, ClaimedBy(1)) && s2[j] == Slot(r2.amount, ClaimedBy(2));
    assert forall x :: 0 <= x < |s2| ==> s2[x].claim.ClaimedBy? && s2[x].claim != ClaimedBy(3);

    // both claims are counted
    NothingClaimedYet(s0);
    ClaimAddsOne(s0, i1, 1);
    ClaimAddsOne(s1, j, 2);
  }

  /**
    After the two claims of `TwoClaims`, the creator's query within the
    visible period reports both claims and their sum.
  */
  lemma QueryAfterTwoClaims(st0: Store, roomId: string, token: string, d: int, later: int, visiblePeriod: int)
    requires Key(roomId, token) in st0
    requires st0[Key(roomId, token)].creatorId == 0
    requires !HasExpired(st0[Key(roomId, token)], later)
    requires IsVisible(st0[Key(roomId, token)], later, visiblePeriod)
    requires st0[Key(roomId, token)].slots == [Slot(d, Unclaimed), Slot(1000 - d, Unclaimed)]
    requires 250 <= d <= 749
    ensures var r1 := Receive(st0, 1, roomId, token, later);
            && r1.Success?
            && var r2 := Receive(r1.value.store, 2, roomId, token, later);
               && r2.Success?
               && var g := Get(r2.value.store, 0, roomId, token, later, visiblePeriod);
                  && g.Success?
                  && g.value.receivedAmount == r1.value.amount + r2.value.amount
                  && |g.value.receivings| == 2
                  && Receiving(1, r1.value.amount) in g.value.receivings
                  && Receiving(2, r2.value.amount) in g.value.receivings
  {
    TwoClaims(st0, roomId, token, d, later);
    var k := Key(roomId, token);
    var r1 := Receive(st0, 1, roomId, token, later).value;
    var r2 := Receive(r1.store, 2, roomId, token, later).value;
    assert r2.store[k].creatorId == 0 && IsVisible(r2.store[k], later, visiblePeriod);
  }

  /**
    The walk-through of a gift of 1000 for two receivers created by user 0
    in room "r0": user 1 receives between 250 and 750; the creator's claim
    and user 1's second claim are refused; user 2 receives the rest; a third
    user finds the gift fully consumed; and the creator's query lists both
    claims and reports their sum, the whole total.
  */
  lemma EndToEnd(store: Store, config: Config, now: int, later: int,
                 candidates: seq<string>, draws: seq<int>)
    requires ValidStore(store)
    requires |candidates| >= MaxRetry
    requires exists i :: 0 <= i < MaxRetry && !Taken(store, "r0", candidates[i])
    requires DrawsFit(1000, 2, draws)
    requires now <= later <= now + config.expireDuration
    requires later <= now + config.visiblePeriod
    ensures var c := Add(store, config, 0, "r0", 1000, 2, now, candidates, draws);
            && c.Success?
            && var t := c.value.token;
               var r1 := Receive(c.value.store, 1, "r0", t, later);
               && r1.Success?
               && 250 <= r1.value.amount <= 750
               && Receive(r1.value.store, 0, "r0", t, later) == Failure(NotAllowedToCreator)
               && Receive(r1.value.store, 1, "r0", t, later) == Failure(AlreadyReceived)
               && var r2 := Receive(r1.value.store, 2, "r0", t, later);
                  && r2.Success?
                  && r1.value.amount + r2.value.amount == 1000
                  && Receive(r2.value.store, 3, "r0", t, later) == Failure(AlreadyFullyConsumed)
                  && var g := Get(r2.value.store, 0, "r0", t, later, config.visiblePeriod);
                     && g.Success?
                     && g.value.receivedAmount == r1.value.amount + r2.value.amount
                     && |g.value.receivings| == 2
                     && Receiving(1, r1.value.amount) in g.value.receivings
                     && Receiving(2, r2.value.amount) in g.value.receivings
  {
    var d := FreshThousandForTwo(store, config, now, candidates, draws);
    var c := Add(store, config, 0, "r0", 1000, 2, now, candidates, draws);
    var t := c.value.token;
    TwoClaims(c.value.store, "r0", t, d, later);
    QueryAfterTwoClaims(c.value.store, "r0", t, d, later, config.visiblePeriod);
  }

  /**
    An order can hold shares of zero: whenever the total is at least the
    receiver count but less than twice it, the service accepts it, the
    minimum share is zero, and drawing zero for every receiver but the last
    is legal, giving the first receivers nothing.
  */
  lemma ZeroShareOrderAccepted(store: Store, config: Config, userId: int, roomId: string,
                               totalAmount: int, n: int, now: int, candidates: seq<string>)
    requires 2 <= n <= totalAmount < 2 * n
    requires |candidates| >= MaxRetry
    requires exists i :: 0 <= i < MaxRetry && !Taken(store, roomId, candidates[i])
    ensures MoneyDivider.MinAmount(totalAmount, n) == 0
    ensures DrawsFit(totalAmount, n, seq(n - 1, _ => 0))
    ensures var c := Add(store, config, userId, roomId, totalAmount, n, now, candidates, seq(n - 1, _ => 0));
            && c.Success?
            && c.value.store[Key(roomId, c.value.token)].slots[0].amount == 0
  {
    QuotientIsOne(totalAmount, n);
    MoneyDivider.DivisionAlwaysPossible(totalAmount, n);
    var draws := seq(n - 1, _ => 0);
    var c := Add(store, config, userId, roomId, totalAmount, n, now, candidates, draws);
    var a := Amounts(c.value.store[Key(roomId, c.value.token)].slots);
    assert a[0] == a[..n - 1][0] == draws[0];
  }

  lemma QuotientIsOne(a: int, n: int)
    requires 1 <= n <= a < 2 * n
    ensures a / n == 1
  {
    var q := a / n;
    assert n * q <= a < n * 2;
    MulCancel(n, q, 2);
    assert n * 0 < n * q;
    MulCancel(n, 0, q);
  }

  /** A positive factor can be cancelled from a strict inequality. */
  lemma MulCancel(n: int, x: int, y: int)
    requires n > 0 && n * x < n * y
    ensures x < y
  {
    if x >= y {
      MoneyDivider.MulMonotone(n, y, x);
    }
  }
}
