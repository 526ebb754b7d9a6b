/**
 * The inventory strategy's price arithmetic (packages/beta-filler/src/policy.ts): the
 * zero-RPC price filter against the full check, the cap on a fill, and the redemption
 * rail's two conversions.
 */
module Pricing {
  import opened Common
  import opened Arith

  const ONE: nat := 1_000_000_000_000_000_000
  const USDT0_TO_18: nat := 1_000_000_000_000
  const MOC_FEE_BPS: nat := 20

  datatype Direction = BuyUsdrif | SellUsdrif | SellRif | BuyRif | SellRifUsdrif

  datatype Leg = Leg(start: nat, end: nat)

  datatype Order = Order(curve: nat, legsIn: seq<Leg>, legsOut: seq<Leg>)

  datatype Policy = Policy(maxBuyPrice: nat, minSellPrice: nat)

  predicate PaysUsdt0(d: Direction) {
    d.BuyUsdrif? || d.BuyRif?
  }

  /** USDT0 per USDRIF of a fill, scaled by 1e18. */
  function FillPrice(d: Direction, paid: nat, received: nat): nat {
    if d.SellRifUsdrif? then if paid == 0 then 0 else received * ONE / paid
    else
      var usdt0, usdrif := if PaysUsdt0(d) then paid else received, if PaysUsdt0(d) then received else paid;
      if usdrif == 0 then if PaysUsdt0(d) then Pow(2, 255) else 0
      else usdt0 * USDT0_TO_18 * ONE / usdrif
  }

  predicate PriceOk(d: Direction, paid: nat, received: nat, p: Policy) {
    && paid != 0 && received != 0
    && (d.BuyUsdrif? ==> FillPrice(d, paid, received) <= p.maxBuyPrice)
    && (d.SellUsdrif? ==> FillPrice(d, paid, received) >= p.minSellPrice)
  }

  predicate IsFixedPrice(o: Order) {
    o.curve == 0 && (forall l | l in o.legsIn :: l.end == 0) && forall l | l in o.legsOut :: l.end == 0
  }

  predicate FixedPriceOk(o: Order, d: Direction, p: Policy) {
    if !IsFixedPrice(o) || o.legsIn == [] || o.legsOut == [] then true
    else PriceOk(d, o.legsOut[0].start, o.legsIn[0].start, p)
  }

  /** Scale a fill down to what the amount paid may be. */
  function CapFillAmount(fillAmount: nat, paidAtFill: nat, capPaid: int): nat {
    if paidAtFill <= capPaid then fillAmount
    else if capPaid <= 0 || paidAtFill == 0 then 0
    else
      var scaled := fillAmount * capPaid / paidAtFill;
      if scaled > 1 then scaled - 1 else 0
  }

  /** What a redemption keeps, in basis points, after the fee and the haircut. */
  function Kept(haircutBps: nat): int {
    10_000 - MOC_FEE_BPS - haircutBps
  }

  function RailRifOut(usdrif: nat, price: nat, haircutBps: nat): nat
    requires price > 0 && Kept(haircutBps) > 0
  {
    usdrif * ONE * Kept(haircutBps) / price / 10_000
  }

  function RailUsdrifFor(rif: nat, price: nat, haircutBps: nat): nat
    requires price > 0 && Kept(haircutBps) > 0
  {
    CeilDiv(rif * price * 10_000, ONE * Kept(haircutBps))
  }

  // ----------------------------------------------------------------- what it promises

  /** A fill of `num` of `den`: what we pay is rounded up, what we receive rounded down. */
  function PartPaid(o: Order, num: nat, den: nat): nat
    requires o.legsOut != [] && den > 0
  {
    CeilDiv(o.legsOut[0].start * num, den)
  }

  function PartReceived(o: Order, num: nat, den: nat): nat
    requires o.legsIn != [] && den > 0
  {
    o.legsIn[0].start * num / den
  }

  /** Rounding toward the maker never makes a part cheaper than the whole. */
  lemma PartIsNoCheaper(whole: nat, got: nat, num: nat, den: nat)
    requires den > 0
    ensures CeilDiv(whole * num, den) * got >= whole * (got * num / den)
  {
    var paid, received := CeilDiv(whole * num, den), got * num / den;
    CeilIs(whole * num, den, paid);
    FloorBounds(got * num, den);
    MulMono(whole * num, paid * den, got);
    MulMono(received * den, got * num, whole);
    assert received * den * whole == (whole * received) * den;
    assert got * num * whole == whole * num * got;
    assert paid * den * got == (paid * got) * den;
    MulCancel(whole * received, paid * got, den);
  }

  /** A ratio times a scale, floored, does not fall with the ratio. */
  lemma ScaledRatio(a: nat, b: nat, c: nat, d: nat, k: nat)
    requires b > 0 && d > 0 && a * d <= c * b
    ensures a * k / b <= c * k / d
  {
    MulMono(a * d, c * b, k);
    assert a * d * k == (a * k) * d && c * b * k == (c * k) * b;
    FloorRatio(a * k, b, c * k, d);
  }

  /**
   * The filter refines the full check: an order it refuses is refused by the full check at
   * every partial size, whatever the rounding toward the maker does.
   */
  lemma FilterIsSafe(o: Order, d: Direction, p: Policy, num: nat, den: nat)
    requires !FixedPriceOk(o, d, p) && 0 < num <= den
    ensures !PriceOk(d, PartPaid(o, num, den), PartReceived(o, num, den), p)
  {
    var whole, got := o.legsOut[0].start, o.legsIn[0].start;
    var paid, received := PartPaid(o, num, den), PartReceived(o, num, den);
    PartIsNoCheaper(whole, got, num, den);
    if whole == 0 {
      CeilIs(0, den, 0);
    } else if got == 0 {
      DivModIs(0, den, 0, 0);
    } else if paid != 0 && received != 0 {
      var k := USDT0_TO_18 * ONE;
      if d.BuyUsdrif? {
        ScaledRatio(whole, got, paid, received, k);
        assert whole * USDT0_TO_18 * ONE == whole * k && paid * USDT0_TO_18 * ONE == paid * k;
      } else {
        assert d.SellUsdrif?;
        assert received * whole == whole * received && got * paid == paid * got;
        ScaledRatio(received, paid, got, whole, k);
        assert received * USDT0_TO_18 * ONE == received * k && got * USDT0_TO_18 * ONE == got * k;
      }
    }
  }

  /**
   * A capped size fits: for an order paying `rate / base` of the fill amount, rounded up,
   * the preview of the returned size is at or below the cap; and the size is within two
   * units of what the cap allows in proportion.
   */
  lemma CappedFits(fillAmount: nat, rate: nat, base: nat, capPaid: int)
    requires base > 0
    ensures var paidAtFill := CeilDiv(fillAmount * rate, base);
      var r := CapFillAmount(fillAmount, paidAtFill, capPaid);
      && r <= fillAmount && (r > 0 || capPaid >= 0 ==> CeilDiv(r * rate, base) <= capPaid)
      && (paidAtFill > capPaid > 0 ==> (r + 2) * paidAtFill > fillAmount * capPaid)
  {
    var paidAtFill := CeilDiv(fillAmount * rate, base);
    CeilIs(fillAmount * rate, base, paidAtFill);
    var r := CapFillAmount(fillAmount, paidAtFill, capPaid);
    if paidAtFill > capPaid >= 0 {
      FloorBounds(fillAmount * capPaid, paidAtFill);
      CappedShare(fillAmount, rate, base, capPaid, paidAtFill, r);
    }
    CeilIs(r * rate, base, capPaid);
  }

  lemma CappedShare(fillAmount: nat, rate: nat, base: nat, capPaid: nat, paidAtFill: nat, r: nat)
    requires base > 0 && paidAtFill > capPaid && paidAtFill * base >= fillAmount * rate
    requires r * paidAtFill <= fillAmount * capPaid
    ensures r <= fillAmount && r * rate <= capPaid * base
  {
    MulMono(capPaid, paidAtFill, fillAmount);
    assert fillAmount * capPaid == capPaid * fillAmount && paidAtFill * fillAmount == fillAmount * paidAtFill;
    MulCancel(r, fillAmount, paidAtFill);
    MulMono(r * paidAtFill, fillAmount * capPaid, rate);
    MulMono(fillAmount * rate, paidAtFill * base, capPaid);
    assert fillAmount * capPaid * rate == fillAmount * rate * capPaid;
    assert r * paidAtFill * rate == (r * rate) * paidAtFill;
    assert paidAtFill * base * capPaid == (capPaid * base) * paidAtFill;
    MulCancel(r * rate, capPaid * base, paidAtFill);
  }

  /** The two conversions of the rail are inverse: the USDRIF asked for is the least that redeems to the RIF. */
  lemma RailInverse(usdrif: nat, rif: nat, price: nat, haircutBps: nat)
    requires price > 0 && Kept(haircutBps) > 0
    ensures RailRifOut(usdrif, price, haircutBps) >= rif <==> usdrif >= RailUsdrifFor(rif, price, haircutBps)
  {
    var rate := ONE * Kept(haircutBps);
    MulMono(1, Kept(haircutBps), ONE);
    CeilIs(rif * price * 10_000, rate, usdrif);
    assert usdrif * ONE * Kept(haircutBps) == usdrif * rate;
    FloorIs(usdrif * rate / price, 10_000, rif);
    FloorIs(usdrif * rate, price, rif * 10_000);
    assert rif * 10_000 * price == rif * price * 10_000;
  }

  // ----------------------------------------------------------------- exactly what passes

  /** Neither leg has an end price and nothing bends the clock. */
  ghost predicate Resting(o: Order) {
    && o.curve == 0
    && (forall k | 0 <= k < |o.legsIn| :: o.legsIn[k].end == 0)
    && (forall k | 0 <= k < |o.legsOut| :: o.legsOut[k].end == 0)
  }

  /**
   * The price check in cross products: something on both sides, a BUY of USDRIF for less than
   * one unit of price above the highest, a SELL for at least the lowest; no other direction
   * is priced here.
   */
  lemma PriceOkIff(d: Direction, paid: nat, received: nat, p: Policy)
    ensures PriceOk(d, paid, received, p) <==>
      && paid > 0 && received > 0
      && (d == BuyUsdrif ==> paid * (USDT0_TO_18 * ONE) < (p.maxBuyPrice + 1) * received)
      && (d == SellUsdrif ==> received * (USDT0_TO_18 * ONE) >= p.minSellPrice * paid)
  {
    var k := USDT0_TO_18 * ONE;
    if paid > 0 && received > 0 {
      assert paid * USDT0_TO_18 * ONE == paid * k && received * USDT0_TO_18 * ONE == received * k;
      FloorIs(paid * k, received, p.maxBuyPrice + 1);
      FloorIs(received * k, paid, p.minSellPrice);
    }
  }

  /** The filter refuses exactly the resting orders whose whole fill the price check refuses. */
  lemma FilterIff(o: Order, d: Direction, p: Policy)
    ensures !FixedPriceOk(o, d, p) <==>
      Resting(o) && o.legsIn != [] && o.legsOut != [] && !PriceOk(d, o.legsOut[0].start, o.legsIn[0].start, p)
  {
  }

  /** The size under a cap: all of it when that fits; else a unit less than its share, none without a cap. */
  lemma CapIs(fillAmount: nat, paidAtFill: nat, capPaid: int)
    ensures var r := CapFillAmount(fillAmount, paidAtFill, capPaid);
      && (paidAtFill <= capPaid ==> r == fillAmount)
      && (paidAtFill > capPaid && capPaid <= 0 ==> r == 0)
      && (paidAtFill > capPaid > 0 ==>
            && fillAmount * capPaid < (r + 2) * paidAtFill
            && (r > 0 ==> (r + 1) * paidAtFill <= fillAmount * capPaid))
  {
    if paidAtFill > capPaid > 0 {
      FloorBounds(fillAmount * capPaid, paidAtFill);
    }
  }

  /** What redeeming pays: the share left by a fee of 20 basis points and the haircut, rounded down. */
  lemma RailOutIs(usdrif: nat, price: nat, haircutBps: nat)
    requires price > 0 && haircutBps < 9_980
    ensures var r, v := RailRifOut(usdrif, price, haircutBps), usdrif * ONE * (10_000 - 20 - haircutBps);
      r * 10_000 * price <= v < (r + 1) * 10_000 * price
  {
    var v := usdrif * ONE * (10_000 - 20 - haircutBps);
    var r := RailRifOut(usdrif, price, haircutBps);
    FloorIs(v / price, 10_000, r);
    FloorIs(v / price, 10_000, r + 1);
    FloorIs(v, price, r * 10_000);
    FloorIs(v, price, (r + 1) * 10_000);
  }
}
