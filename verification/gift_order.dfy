/**
  A gift order and its slots: the creator, room, token, total, receiver count,
  the two timestamps (milliseconds), and one slot per receiver holding an
  amount and who, if anyone, has claimed it.
*/
module GiftOrder {
  import opened SeqSum

  /** Who holds a slot: nobody yet, or one user. */
  datatype Claim = Unclaimed | ClaimedBy(userId: int)

  datatype Slot = Slot(amount: int, claim: Claim)

  datatype Order = Order(
    creatorId: int,
    roomId: string,
    token: string,
    totalAmount: int,
    maxRecipients: int,
    createTime: int,
    expirationTime: int,
    slots: seq<Slot>)

  /** An order has expired once the time is strictly after its expiration time. */
  predicate HasExpired(o: Order, now: int)
  {
    now > o.expirationTime
  }

  /** An order can be queried until, and including, its creation time plus the period. */
  predicate IsVisible(o: Order, now: int, visiblePeriod: int)
  {
    !(now > o.createTime + visiblePeriod)
  }

  /** At its expiration time an order is still open; one millisecond later it has expired. */
  lemma ExpiryBoundary(o: Order)
    ensures !HasExpired(o, o.expirationTime)
    ensures HasExpired(o, o.expirationTime + 1)
  {
  }

  /** Once expired, an order stays expired. */
  lemma ExpiryIsMonotone(o: Order, t: int, t': int)
    requires HasExpired(o, t) && t <= t'
    ensures HasExpired(o, t')
  {
  }

  /** The last visible instant is creation time plus the period, inclusive. */
  lemma VisibilityBoundary(o: Order, visiblePeriod: int)
    ensures IsVisible(o, o.createTime + visiblePeriod, visiblePeriod)
    ensures !IsVisible(o, o.createTime + visiblePeriod + 1, visiblePeriod)
  {
  }

  /** Visibility only ever goes away. */
  lemma VisibilityOnlyLapses(o: Order, visiblePeriod: int, t: int, t': int)
    requires !IsVisible(o, t, visiblePeriod) && t <= t'
    ensures !IsVisible(o, t', visiblePeriod)
  {
  }

  function Amounts(slots: seq<Slot>): seq<int>
  {
    seq(|slots|, i requires 0 <= i < |slots| => slots[i].amount)
  }

  /** Some slot is already held by the user. */
  predicate HasReceived(slots: seq<Slot>, userId: int)
  {
    exists i :: 0 <= i < |slots| && slots[i].claim == ClaimedBy(userId)
  }

  /** Some slot is still free. */
  predicate HasUnclaimed(slots: seq<Slot>)
  {
    exists i :: 0 <= i < |slots| && slots[i].claim.Unclaimed?
  }

  /** No user holds two slots. */
  predicate DistinctReceivers(slots: seq<Slot>)
  {
    forall i, j ::
      0 <= i < |slots| && 0 <= j < |slots| && i != j && slots[i].claim.ClaimedBy?
      ==> slots[i].claim != slots[j].claim
  }

  /**
    The invariants of a stored order: one slot per receiver, amounts that are
    never negative and add up to the total, at most one slot per user, and
    none held by the creator.
  */
  predicate WellFormed(o: Order)
  {
    && 1 <= o.maxRecipients <= o.totalAmount
    && |o.slots| == o.maxRecipients
    && Sum(Amounts(o.slots)) == o.totalAmount
    && (forall i :: 0 <= i < |o.slots| ==> o.slots[i].amount >= 0)
    && DistinctReceivers(o.slots)
    && !HasReceived(o.slots, o.creatorId)
  }

  /** The first free slot, the one the claim protocol hands out. */
  function FirstUnclaimed(slots: seq<Slot>): (i: nat)
    requires HasUnclaimed(slots)
    ensures i < |slots| && slots[i].claim.Unclaimed?
    ensures forall j :: 0 <= j < i ==> slots[j].claim.ClaimedBy?
  {
    if slots[0].claim.Unclaimed? then 0
    else
      var k :| 0 <= k < |slots| && slots[k].claim.Unclaimed?;
      assert slots[1..][k - 1] == slots[k];
      1 + FirstUnclaimed(slots[1..])
  }

  /** The slots with slot `i` handed to `userId`. */
  function ClaimSlot(slots: seq<Slot>, i: nat, userId: int): (r: seq<Slot>)
    requires i < |slots|
    ensures |r| == |slots| && r[i].claim == ClaimedBy(userId) && r[i].amount == slots[i].amount
    ensures forall j :: 0 <= j < |slots| && j != i ==> r[j] == slots[j]
  {
    slots[i := Slot(slots[i].amount, ClaimedBy(userId))]
  }

  function ClaimedCount(slots: seq<Slot>): (c: nat)
  {
    if |slots| == 0 then 0
    else (if slots[0].claim.ClaimedBy? then 1 else 0) + ClaimedCount(slots[1..])
  }

  /** The total of the amounts in claimed slots. */
  function ClaimedAmount(slots: seq<Slot>): int
  {
    if |slots| == 0 then 0
    else (if slots[0].claim.ClaimedBy? then slots[0].amount else 0) + ClaimedAmount(slots[1..])
  }

  /** Slots nobody has claimed count no claims and no claimed amount. */
  lemma {:induction false} NothingClaimedYet(slots: seq<Slot>)
    requires forall i :: 0 <= i < |slots| ==> slots[i].claim.Unclaimed?
    ensures ClaimedCount(slots) == 0 && ClaimedAmount(slots) == 0
  {
    if |slots| > 0 {
      NothingClaimedYet(slots[1..]);
    }
  }

  /** Claimed slots never outnumber slots; all are claimed exactly when none is free. */
  lemma {:induction false} ClaimedCountBounds(slots: seq<Slot>)
    ensures ClaimedCount(slots) <= |slots|
    ensures ClaimedCount(slots) == |slots| <==> !HasUnclaimed(slots)
  {
    if |slots| > 0 {
      ClaimedCountBounds(slots[1..]);
      if HasUnclaimed(slots[1..]) {
        var k :| 0 <= k < |slots[1..]| && slots[1..][k].claim.Unclaimed?;
        assert slots[k + 1].claim.Unclaimed?;
      }
      if HasUnclaimed(slots) && slots[0].claim.ClaimedBy? {
        var k :| 0 <= k < |slots| && slots[k].claim.Unclaimed?;
        assert slots[1..][k - 1].claim.Unclaimed?;
      }
    }
  }

  /** With no negative amounts, what has been claimed lies between zero and the sum of all amounts. */
  lemma {:induction false} ClaimedWithinTotal(slots: seq<Slot>)
    requires forall i :: 0 <= i < |slots| ==> slots[i].amount >= 0
    ensures 0 <= ClaimedAmount(slots) <= Sum(Amounts(slots))
  {
    if |slots| > 0 {
      assert Amounts(slots)[1..] == Amounts(slots[1..]);
      ClaimedWithinTotal(slots[1..]);
    }
  }

  /**
    Claiming a free slot adds exactly one claim and exactly that slot's
    amount to what has been claimed, and leaves every amount as it was.
  */
  lemma {:induction false} ClaimAddsOne(slots: seq<Slot>, i: nat, userId: int)
    requires i < |slots| && slots[i].claim.Unclaimed?
    ensures ClaimedCount(ClaimSlot(slots, i, userId)) == ClaimedCount(slots) + 1
    ensures ClaimedAmount(ClaimSlot(slots, i, userId)) == ClaimedAmount(slots) + slots[i].amount
    ensures Amounts(ClaimSlot(slots, i, userId)) == Amounts(slots)
  {
    var s' := ClaimSlot(slots, i, userId);
    if i > 0 {
      assert s'[1..] == ClaimSlot(slots[1..], i - 1, userId);
      ClaimAddsOne(slots[1..], i - 1, userId);
    } else {
      assert s'[1..] == slots[1..];
    }
  }

  /**
    Handing a free slot to a user who is not the creator and holds no slot
    yet keeps the order well-formed.
  */
  lemma ClaimKeepsWellFormed(o: Order, i: nat, userId: int)
    requires WellFormed(o)
    requires i < |o.slots| && o.slots[i].claim.Unclaimed?
    requires userId != o.creatorId && !HasReceived(o.slots, userId)
    ensures WellFormed(o.(slots := ClaimSlot(o.slots, i, userId)))
  {
    var s' := ClaimSlot(o.slots, i, userId);
    ClaimAddsOne(o.slots, i, userId);
    forall a, b | 0 <= a < |s'| && 0 <= b < |s'| && a != b && s'[a].claim.ClaimedBy?
      ensures s'[a].claim != s'[b].claim
    {
      if a == i {
        assert s'[b] == o.slots[b];
      } else if b == i {
        assert s'[a] == o.slots[a];
      } else {
        assert s'[a] == o.slots[a] && s'[b] == o.slots[b];
      }
    }
    forall k | 0 <= k < |s'|
      ensures s'[k].claim != ClaimedBy(o.creatorId)
    {
      if k != i {
        assert s'[k] == o.slots[k];
      }
    }
  }
}
