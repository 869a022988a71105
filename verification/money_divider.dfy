/**
  The divider that splits a gift's total amount into one share per receiver.

  Every receiver but the last gets a random draw between a minimum (half of an
  equal split) and a maximum (half the total plus that minimum), clamped so that
  each receiver still to come can get the minimum; the last receiver gets what
  remains. Randomness is an oracle: the caller supplies the sequence of draws,
  and `LegalDraws` says which sequences the random source can produce.
*/
module MoneyDivider {
  import opened SeqSum
  import opened GiftErrors

  /** Largest value of a 64-bit signed integer, the width of the amounts. */
  const LongMax: int := 0x7FFF_FFFF_FFFF_FFFF
  /** Largest value of a 32-bit signed integer, the width of the receiver count. */
  const IntMax: int := 0x7FFF_FFFF

  /** Half of an equal split, both divisions truncating. */
  function MinAmount(total: int, n: int): int
    requires total >= 0 && n >= 1
  {
    total / n / 2
  }

  /** Half the total plus the minimum share. */
  function MaxAmount(total: int, n: int): int
    requires total >= 0 && n >= 1
  {
    total / 2 + MinAmount(total, n)
  }

  function Min(a: int, b: int): int
  {
    if a <= b then a else b
  }

  /**
    `count * amount`, written as repeated addition so that the divider's
    proofs stay within linear arithmetic; `TimesIsProduct` relates the two.
  */
  function Times(count: nat, amount: int): int
  {
    if count == 0 then 0 else amount + Times(count - 1, amount)
  }

  lemma {:induction false} TimesIsProduct(count: nat, amount: int)
    ensures Times(count, amount) == count * amount
  {
    if count > 0 {
      TimesIsProduct(count - 1, amount);
    }
  }

  /** What may be taken now so that each of the `after` receivers still to come can get `minA`. */
  function NextMax(minA: int, after: nat, remaining: int): int
  {
    remaining - Times(after, minA)
  }

  /** Exclusive upper end of the draw for a share followed by `after` more shares. */
  function DrawBound(minA: int, maxA: int, after: nat, remaining: int): int
  {
    Min(maxA + 1, NextMax(minA, after, remaining))
  }

  /**
    The values the random source may return when asked for a number from `lo`
    (inclusive) to `hi` (exclusive): one of [lo, hi), or `lo` itself when the
    range is empty because `lo == hi`. With `hi < lo` the source throws, so no
    value is a draw.
  */
  predicate IsDraw(lo: int, hi: int, d: int)
  {
    if lo == hi then d == lo else lo <= d < hi
  }

  /**
    `draws` is a sequence the random source can produce while `k` receivers
    are still to be served out of `remaining`: one draw for each of them but
    the last, each within the clamped range computed from the amount left.
  */
  predicate LegalDraws(k: nat, remaining: int, minA: int, maxA: int, draws: seq<int>)
    decreases k
  {
    if k <= 1 then draws == []
    else
      && |draws| > 0
      && IsDraw(minA, DrawBound(minA, maxA, k - 1, remaining), draws[0])
      && LegalDraws(k - 1, remaining - draws[0], minA, maxA, draws[1..])
  }

  /**
    While every receiver still to come can get the minimum, the draw range is
    never empty, and drawing the minimum is always possible.
  */
  lemma DrawRangeNonEmpty(k: nat, remaining: int, minA: int, maxA: int)
    requires k >= 2 && 0 <= minA <= maxA
    requires remaining >= Times(k, minA)
    ensures DrawBound(minA, maxA, k - 1, remaining) >= minA
    ensures IsDraw(minA, DrawBound(minA, maxA, k - 1, remaining), minA)
  {
  }

  /**
    One legal draw keeps the divider's invariant: what remains still covers
    the minimum of every receiver still to come, and the draw is a share
    within [minA, maxA].
  */
  lemma DrawKeepsInvariant(k: nat, remaining: int, minA: int, maxA: int, d: int)
    requires k >= 2 && 0 <= minA <= maxA
    requires remaining >= Times(k, minA)
    requires IsDraw(minA, DrawBound(minA, maxA, k - 1, remaining), d)
    ensures minA <= d <= maxA
    ensures remaining - d >= Times(k - 1, minA)
  {
  }

  /**
    The shares of the `k` receivers still to be served out of `remaining`:
    the draws for all but the last, then whatever is left.
  */
  function Shares(k: nat, remaining: int, minA: int, maxA: int, draws: seq<int>): (r: seq<int>)
    requires k >= 1 && 0 <= minA <= maxA
    requires remaining >= Times(k, minA)
    requires LegalDraws(k, remaining, minA, maxA, draws)
    ensures |r| == k
    ensures Sum(r) == remaining
    ensures r[..k - 1] == draws
    ensures forall j :: 0 <= j < k - 1 ==> minA <= r[j] <= maxA
    ensures r[k - 1] >= minA
    ensures r[k - 1] == remaining - Sum(draws)
    decreases k
  {
    if k == 1 then
      assert Times(k - 1, minA) == 0;
      [remaining]
    else
      var d := draws[0];
      DrawKeepsInvariant(k, remaining, minA, maxA, d);
      var rest := Shares(k - 1, remaining - d, minA, maxA, draws[1..]);
      var r := [d] + rest;
      assert r[1..] == rest;
      assert r[..k - 1] == [d] + rest[..k - 2];
      assert forall j :: 1 <= j < k ==> r[j] == rest[j - 1];
      r
  }

  lemma MulMonotone(n: nat, a: int, b: int)
    requires a <= b
    ensures n * a <= n * b
  {
  }

  /** The minimum share is never negative and never above the maximum. */
  lemma MinWithinMax(total: int, n: int)
    requires total >= 0 && n >= 1
    ensures 0 <= MinAmount(total, n) <= MaxAmount(total, n)
  {
  }

  /** The minimum shares of all `n` receivers fit into the total. */
  lemma MinSharesFit(total: int, n: int)
    requires total >= 0 && n >= 1
    ensures Times(n, MinAmount(total, n)) <= total
  {
    var q := total / n;
    assert n * q <= total;
    MulMonotone(n, q / 2, q);
    TimesIsProduct(n, MinAmount(total, n));
  }

  /** In a sequence without negative elements, no element exceeds the sum. */
  lemma {:induction false} ElementsWithinSum(s: seq<int>)
    requires forall j :: 0 <= j < |s| ==> s[j] >= 0
    ensures forall j :: 0 <= j < |s| ==> s[j] <= Sum(s)
    ensures Sum(s) >= 0
  {
    if |s| > 0 {
      ElementsWithinSum(s[1..]);
      assert forall j :: 1 <= j < |s| ==> s[j] == s[1..][j - 1];
    }
  }

  /**
    The amounts the divider precomputes for a total and a receiver count:
    they add up to the total, every one but the last is a draw within
    [MinAmount, MaxAmount], and the last, the remainder, is at least
    MinAmount but has no upper bound other than the total.
  */
  function Divide(total: int, n: int, draws: seq<int>): (amounts: seq<int>)
    requires total >= 0 && n >= 1
    requires LegalDraws(n, total, MinAmount(total, n), MaxAmount(total, n), draws)
    ensures |amounts| == n
    ensures Sum(amounts) == total
    ensures amounts[..n - 1] == draws
    ensures forall j :: 0 <= j < n - 1 ==> MinAmount(total, n) <= amounts[j] <= MaxAmount(total, n)
    ensures amounts[n - 1] >= MinAmount(total, n)
    ensures amounts[n - 1] == total - Sum(draws)
    ensures forall j :: 0 <= j < n ==> 0 <= amounts[j] <= total
  {
    var minA, maxA := MinAmount(total, n), MaxAmount(total, n);
    MinWithinMax(total, n);
    MinSharesFit(total, n);
    var r := Shares(n, total, minA, maxA, draws);
    assert forall j :: 0 <= j < n ==> r[j] >= minA >= 0;
    ElementsWithinSum(r);
    r
  }

  /** Drawing the minimum every time is always a legal draw sequence. */
  lemma {:induction false} MinimalDrawsLegal(k: nat, remaining: int, minA: int, maxA: int)
    requires k >= 1 && 0 <= minA <= maxA
    requires remaining >= Times(k, minA)
    ensures LegalDraws(k, remaining, minA, maxA, seq(k - 1, _ => minA))
    decreases k
  {
    if k >= 2 {
      var draws := seq(k - 1, _ => minA);
      DrawRangeNonEmpty(k, remaining, minA, maxA);
      DrawKeepsInvariant(k, remaining, minA, maxA, minA);
      assert draws[1..] == seq(k - 2, _ => minA);
      MinimalDrawsLegal(k - 1, remaining - minA, minA, maxA);
    }
  }

  /** Every accepted total and receiver count admits at least one legal draw sequence. */
  lemma DivisionAlwaysPossible(total: int, n: int)
    requires total >= 0 && n >= 1
    ensures LegalDraws(n, total, MinAmount(total, n), MaxAmount(total, n), seq(n - 1, _ => MinAmount(total, n)))
  {
    MinSharesFit(total, n);
    MinimalDrawsLegal(n, total, MinAmount(total, n), MaxAmount(total, n));
  }

  /**
    With a total and a receiver count of the source's widths, the divider's
    intermediate values fit in 64 bits: the draw's exclusive bound
    `maxAmount + 1` and the product in `nextMaxAmount`.
  */
  lemma DividerFitsInLong(total: int, n: int, after: nat)
    requires 0 <= total <= LongMax && 1 <= n <= IntMax
    requires after < n
    ensures MaxAmount(total, n) + 1 <= LongMax
    ensures 0 <= after * MinAmount(total, n) <= total
  {
    var m := MinAmount(total, n);
    QuotientAtMost(total, n);
    assert 0 <= m <= total / 2;
    assert 2 * (total / 2) <= LongMax - 1;
    MinSharesFit(total, n);
    TimesMonotone(after, n, m);
    TimesIsProduct(after, m);
  }

  lemma {:induction false} TimesMonotone(a: nat, b: nat, amount: int)
    requires a <= b && amount >= 0
    ensures 0 <= Times(a, amount) <= Times(b, amount)
    decreases b
  {
    if a < b {
      TimesMonotone(a, b - 1, amount);
    } else if a > 0 {
      TimesMonotone(a - 1, a - 1, amount);
    }
  }

  lemma QuotientAtMost(total: int, n: int)
    requires total >= 0 && n >= 1
    ensures 0 <= total / n <= total
  {
    var q := total / n;
    assert q * n <= total;
    MulMonotone(q, 1, n);
  }

  /**
    The last share is not bounded by MaxAmount: with a total of 10000 and
    three receivers, two minimal draws leave 6668 for the last receiver,
    above the maximum of 6666.
  */
  lemma LastShareMayExceedMax()
    ensures MinAmount(10000, 3) == 1666 && MaxAmount(10000, 3) == 6666
    ensures LegalDraws(3, 10000, 1666, 6666, [1666, 1666])
    ensures Divide(10000, 3, [1666, 1666]) == [1666, 1666, 6668]
  {
    assert [1666, 1666][1..] == [1666];
    var r := Divide(10000, 3, [1666, 1666]);
    assert r[..2] == [1666, 1666];
  }

  /**
    Shares of zero are possible: when the total is less than twice the
    receiver count the minimum is zero, and zero is a legal draw.
  */
  lemma ZeroShareMayOccur()
    ensures MinAmount(3, 2) == 0 && MaxAmount(3, 2) == 1
    ensures LegalDraws(2, 3, 0, 1, [0])
    ensures Divide(3, 2, [0]) == [0, 3]
  {
    assert DrawBound(0, 1, 1, 3) == 2;
    assert LegalDraws(1, 3, 0, 1, []);
    assert [0][1..] == [];
    var r := Divide(3, 2, [0]);
    assert r[..1] == [0] && r[1] == 3 - Sum([0]);
  }

  /** The divider object: its bounds, the precomputed amounts and a cursor. */
  datatype Divider = Divider(minAmount: int, maxAmount: int, amounts: seq<int>, index: nat)

  /** One successful `next()`: the amount handed out and the advanced divider. */
  datatype Step = Step(amount: int, divider: Divider)

  /** The divider as constructed for a total, a receiver count and the draws. */
  function NewDivider(total: int, n: int, draws: seq<int>): (d: Divider)
    requires total >= 0 && n >= 1
    requires LegalDraws(n, total, MinAmount(total, n), MaxAmount(total, n), draws)
  {
    Divider(MinAmount(total, n), MaxAmount(total, n), Divide(total, n, draws), 0)
  }

  /**
    Hands out the next precomputed amount; fails once all have been handed
    out. The source throws an IndexOutOfBoundsException carrying the
    fully-consumed message there, not the client error of a claim; both are
    the error kind `AlreadyFullyConsumed` here.
  */
  function Next(d: Divider): Result<Step>
  {
    if d.index >= |d.amounts| then Failure(AlreadyFullyConsumed)
    else Success(Step(d.amounts[d.index], d.(index := d.index + 1)))
  }

  /** The result of calling `next()` a number of times: the amounts handed out, in order. */
  datatype Drained = Drained(amounts: seq<int>, divider: Divider)

  /** Calls `Next` k times, collecting the amounts; the first failure stops it. */
  function Drain(d: Divider, k: nat): Result<Drained>
    decreases k
  {
    if k == 0 then Success(Drained([], d))
    else
      match Next(d)
      case Failure(e) => Failure(e)
      case Success(step) =>
        match Drain(step.divider, k - 1)
        case Failure(e) => Failure(e)
        case Success(rest) => Success(Drained([step.amount] + rest.amounts, rest.divider))
  }

  /** From any cursor position, the remaining calls yield exactly the remaining amounts in order. */
  lemma {:induction false} DrainYieldsRest(d: Divider)
    requires d.index <= |d.amounts|
    ensures Drain(d, |d.amounts| - d.index)
            == Success(Drained(d.amounts[d.index..], d.(index := |d.amounts|)))
    decreases |d.amounts| - d.index
  {
    if d.index < |d.amounts| {
      var d' := d.(index := d.index + 1);
      DrainYieldsRest(d');
      assert Next(d) == Success(Step(d.amounts[d.index], d'));
      assert d.amounts[d.index..] == [d.amounts[d.index]] + d.amounts[d.index + 1..];
    } else {
      assert d.amounts[d.index..] == [];
      assert d.(index := |d.amounts|) == d;
    }
  }

  /** More calls than amounts left fail with the fully-consumed error. */
  lemma {:induction false} DrainPastEndFails(d: Divider, k: nat)
    requires d.index <= |d.amounts|
    requires k > |d.amounts| - d.index
    ensures Drain(d, k) == Failure(AlreadyFullyConsumed)
    decreases k
  {
    if d.index < |d.amounts| {
      DrainPastEndFails(d.(index := d.index + 1), k - 1);
    }
  }

  /**
    A fresh divider yields exactly the `n` amounts of `Divide` in order, and
    an `(n+1)`-th call fails.
  */
  lemma FreshDividerYieldsAmounts(total: int, n: int, draws: seq<int>)
    requires total >= 0 && n >= 1
    requires LegalDraws(n, total, MinAmount(total, n), MaxAmount(total, n), draws)
    ensures var d := NewDivider(total, n, draws);
            && Drain(d, n) == Success(Drained(Divide(total, n, draws), d.(index := n)))
            && Drain(d, n + 1) == Failure(AlreadyFullyConsumed)
  {
    var d := NewDivider(total, n, draws);
    DrainYieldsRest(d);
    assert d.amounts[0..] == d.amounts;
    DrainPastEndFails(d, n + 1);
  }
}
