/**
 * When a decaying order will next pass its gate (packages/beta-filler/src/recheck.ts). The
 * order's own clock is a function from seconds to bumps, None before the auction starts;
 * the gate is a predicate on what the fill pays and receives.
 */
module Recheck {
  import opened Common
  import opened Arith

  const BPS: nat := 10_000

  datatype Leg = Leg(start: nat, end: nat, proportional: bool)

  datatype Order = Order(
    pricingModule: bool, priority: bool, blockClock: bool, gasBumpBps: nat,
    legIn: Option<Leg>, legOut: Option<Leg>, decayStart: nat, span: nat)

  datatype Preview = Preview(bumpNow: nat, paid: nat, received: nat)

  function OutTick(l: Leg, b: nat): int {
    l.start - (l.start - l.end) * b / BPS
  }

  function InTick(l: Leg, b: nat): int {
    l.start + (l.end - l.start) * b / BPS
  }

  predicate OutMoves(o: Order)
    requires o.legOut.Some?
  {
    o.legOut.value.end != 0 && o.legOut.value.start > o.legOut.value.end
  }

  predicate InMoves(o: Order)
    requires o.legIn.Some?
  {
    o.legIn.value.end != 0 && o.legIn.value.end > o.legIn.value.start
  }

  /** The orders whose price follows from the clock alone, with a preview to scale. */
  predicate Priceable(o: Order, p: Preview) {
    && !o.pricingModule && !o.priority && !o.blockClock && o.gasBumpBps == 0
    && o.legIn.Some? && o.legOut.Some? && !o.legIn.value.proportional && !o.legOut.value.proportional
    && p.paid != 0 && p.received != 0 && o.span != 0
    && (OutMoves(o) || InMoves(o))
    && (OutMoves(o) ==> OutTick(o.legOut.value, p.bumpNow) != 0)
    && (InMoves(o) ==> InTick(o.legIn.value, p.bumpNow) != 0)
  }

  /** What the fill would pay at bump `b`: the preview scaled by the ticks, rounded down. */
  function ScaledPaid(o: Order, p: Preview, b: nat): int
    requires Priceable(o, p)
  {
    if OutMoves(o) then TruncDiv(p.paid * OutTick(o.legOut.value, b), OutTick(o.legOut.value, p.bumpNow)) else p.paid
  }

  /** What it would receive: rounded up. */
  function ScaledReceived(o: Order, p: Preview, b: nat): int
    requires Priceable(o, p)
  {
    if InMoves(o) then
      var now := InTick(o.legIn.value, p.bumpNow);
      TruncDiv(p.received * InTick(o.legIn.value, b) + now - 1, now)
    else p.received
  }

  /** The scaled preview passes the gate at second `t`. */
  predicate PassesAt(o: Order, p: Preview, bump: int -> Option<nat>, passes: (int, int) -> bool, t: int)
    requires Priceable(o, p)
  {
    bump(t).Some? && passes(ScaledPaid(o, p, bump(t).value), ScaledReceived(o, p, bump(t).value))
  }

  function FloorAt(o: Order): int {
    o.decayStart + o.span
  }

  /** The promised answer: the first passing second of the horizon, else the floor inside it, else none. */
  ghost predicate Predicts(
    o: Order, p: Preview, bump: int -> Option<nat>, passes: (int, int) -> bool, now: int, horizon: nat, r: Option<int>)
    {
    if !Priceable(o, p) then r == None
    else if exists t :: now <= t <= now + horizon && PassesAt(o, p, bump, passes, t) then
      && r.Some? && now <= r.value <= now + horizon && PassesAt(o, p, bump, passes, r.value)
      && forall t | now <= t < r.value :: !PassesAt(o, p, bump, passes, t)
    else r == if now < FloorAt(o) <= now + horizon then Some(FloorAt(o)) else None
  }

  method ProfitableAt(
    o: Order, p: Preview, bump: int -> Option<nat>, passes: (int, int) -> bool, now: int, horizon: nat)
    returns (r: Option<int>)
    ensures Predicts(o, p, bump, passes, now, horizon, r)
  {
    if !Priceable(o, p) {
      return None;
    }
    var t := now;
    while t <= now + horizon
      invariant now <= t <= now + horizon + 1
      invariant forall s | now <= s < t :: !PassesAt(o, p, bump, passes, s)
    {
      var b := bump(t);
      if b.Some? && passes(ScaledPaid(o, p, b.value), ScaledReceived(o, p, b.value)) {
        assert PassesAt(o, p, bump, passes, t);
        return Some(t);
      }
      t := t + 1;
    }
    r := if now < FloorAt(o) <= now + horizon then Some(FloorAt(o)) else None;
  }

  // ----------------------------------------------------------------- what it promises

  /** Whatever passes still passes for less paid and for more received. */
  ghost predicate Monotone(passes: (int, int) -> bool) {
    forall p, q, r, s: int :: q <= p && r <= s && passes(p, r) ==> passes(q, s)
  }

  /** From `now` on the clock is inside the band and not before the bump the preview was priced at. */
  ghost predicate MovesOn(bump: int -> Option<nat>, bumpNow: nat, now: int) {
    forall t :: t >= now && bump(t).Some? ==> bumpNow <= bump(t).value <= BPS
  }

  /** What `num` of `den` of the order really pays at bump `b`: the leg's tick, pro rata, rounded up. */
  function TruePaid(l: Leg, num: nat, den: nat, b: nat): nat
    requires den > 0 && l.start >= l.end && b <= BPS
  {
    TickBounds(l, b);
    CeilDiv(num * OutTick(l, b), den)
  }

  /** What it really receives: pro rata of the rising tick, rounded down. */
  function TrueReceived(l: Leg, num: nat, den: nat, b: nat): nat
    requires den > 0 && l.end >= l.start
  {
    InTickFrom(l, b);
    num * InTick(l, b) / den
  }

  function OwnPaid(o: Order, p: Preview, num: nat, den: nat, b: nat): nat
    requires Priceable(o, p) && den > 0 && b <= BPS
  {
    if OutMoves(o) then TruePaid(o.legOut.value, num, den, b) else p.paid
  }

  function OwnReceived(o: Order, p: Preview, num: nat, den: nat, b: nat): nat
    requires Priceable(o, p) && den > 0
  {
    if InMoves(o) then TrueReceived(o.legIn.value, num, den, b) else p.received
  }

  /** The preview is the order's own price for `num` of `den` of it. */
  predicate TruePreview(o: Order, p: Preview, num: nat, den: nat) {
    && Priceable(o, p) && den > 0 && p.bumpNow <= BPS
    && p.paid == OwnPaid(o, p, num, den, p.bumpNow)
    && p.received == OwnReceived(o, p, num, den, p.bumpNow)
  }

  /** The order's own price passes the gate at second `t`. */
  predicate OwnPasses(
    o: Order, p: Preview, num: nat, den: nat, bump: int -> Option<nat>, passes: (int, int) -> bool, t: int)
    requires Priceable(o, p) && den > 0
  {
    && bump(t).Some? && bump(t).value <= BPS
    && passes(OwnPaid(o, p, num, den, bump(t).value), OwnReceived(o, p, num, den, bump(t).value))
  }

  /**
   * For every clock, gate and horizon: whenever the order's own price passes within the
   * horizon, the prediction is that second or an earlier one.
   */
  ghost predicate NeverLate(o: Order, p: Preview, num: nat, den: nat)
    requires Priceable(o, p) && den > 0
  {
    forall bump: int -> Option<nat>, passes: (int, int) -> bool, now: int, horizon: nat, r: Option<int>, t: int ::
      (MovesOn(bump, p.bumpNow, now) && Monotone(passes) && Predicts(o, p, bump, passes, now, horizon, r)
       && now <= t <= now + horizon && OwnPasses(o, p, num, den, bump, passes, t))
      ==> r.Some? && r.value <= t
  }

  lemma InTickFrom(l: Leg, b: nat)
    requires l.end >= l.start
    ensures InTick(l, b) >= l.start
  {
    MulMono(0, b, l.end - l.start);
    assert (l.end - l.start) * b >= 0;
    FloorIs((l.end - l.start) * b, BPS, 0);
  }

  lemma TickBounds(l: Leg, b: nat)
    requires l.start >= l.end && b <= BPS
    ensures l.end <= OutTick(l, b) <= l.start
  {
    var d := l.start - l.end;
    MulMono(b, BPS, d);
    assert d * b == b * d && BPS * d == d * BPS;
    MulMono(0, b, d);
    FloorMono(d * b, d * BPS, BPS);
    DivModIs(d * BPS, BPS, d, 0);
    FloorIs(d * b, BPS, 0);
  }

  lemma TickFalls(l: Leg, b: nat, c: nat)
    requires l.start >= l.end && b <= c
    ensures OutTick(l, c) <= OutTick(l, b)
  {
    var d := l.start - l.end;
    MulMono(b, c, d);
    assert d * b == b * d && d * c == c * d;
    FloorMono(d * b, d * c, BPS);
  }

  /** Scaling a rounded-up price down a falling tick never exceeds the later rounded-up price. */
  lemma ScaledBelowTrue(num: nat, den: nat, now: nat, later: nat)
    requires den > 0 && 0 < now && later <= now
    ensures CeilDiv(num * now, den) * later / now <= CeilDiv(num * later, den)
  {
    var paid, true_ := CeilDiv(num * now, den), CeilDiv(num * later, den);
    CeilIs(num * now, den, paid - 1);
    CeilIs(num * later, den, true_);
    NoOvershoot(num, den, now, later, paid, true_);
    FloorIs(paid * later, now, true_ + 1);
  }

  lemma PaidSide(num: nat, den: nat, now: nat, later: nat, paid: nat)
    requires (paid - 1) * den <= num * now - 1
    ensures (paid * later) * den <= (num * later) * now - later + den * later
  {
    MulMono((paid - 1) * den, num * now - 1, later);
    assert (num * now - 1) * later == (num * later) * now - later;
    assert (paid - 1) * den * later == (paid * later) * den - den * later;
  }

  /** `paid` is within one of pro rata above, `t` not below pro rata: the ticks' ratio keeps them within one. */
  lemma NoOvershoot(num: nat, den: nat, now: nat, later: nat, paid: nat, t: nat)
    requires den > 0 && 0 < now && later <= now
    requires (paid - 1) * den < num * now && t * den >= num * later
    ensures paid * later < (t + 1) * now
  {
    if later == 0 {
      MulMono(1, t + 1, now);
    } else {
      PaidSide(num, den, now, later, paid);
      MulMono(num * later, t * den, now);
      MulMono(later, now, den);
      assert later * den == den * later;
      assert ((t + 1) * now) * den == (t * den) * now + now * den;
      MulCancelStrict(paid * later, (t + 1) * now, den);
    }
  }

  /** At tick `later` the amount scaled up from the preview at `now` is no less than the true one. */
  predicate EarlyAt(num: nat, den: nat, now: nat, later: nat)
    requires den > 0 && now > 0
  {
    num * later / den <= CeilDiv((num * now / den) * later, now)
  }

  /** Early at every tick the leg has from the preview on. */
  predicate EveryTickEarly(l: Leg, num: nat, den: nat, bumpNow: nat)
    requires den > 0 && l.end >= l.start && InTick(l, bumpNow) > 0
  {
    forall b: nat | bumpNow <= b <= BPS :: EarlyTick(l, num, den, bumpNow, b)
  }

  predicate EarlyTick(l: Leg, num: nat, den: nat, bumpNow: nat, b: nat)
    requires den > 0 && l.end >= l.start && InTick(l, bumpNow) > 0
  {
    InTickFrom(l, b);
    EarlyAt(num, den, InTick(l, bumpNow), InTick(l, b))
  }

  predicate RisesEarly(o: Order, p: Preview, num: nat, den: nat)
    requires TruePreview(o, p, num, den)
  {
    if !InMoves(o) then true
    else
      RisingNow(o, p);
      EveryTickEarly(o.legIn.value, num, den, p.bumpNow)
  }

  lemma RisingNow(o: Order, p: Preview)
    requires Priceable(o, p) && InMoves(o)
    ensures InTick(o.legIn.value, p.bumpNow) > 0
  {
    InTickFrom(o.legIn.value, p.bumpNow);
  }

  /** What the prediction supposes is paid is never more than what is. */
  lemma PaidIsLow(o: Order, p: Preview, num: nat, den: nat, b: nat)
    requires TruePreview(o, p, num, den) && p.bumpNow <= b <= BPS
    ensures ScaledPaid(o, p, b) <= OwnPaid(o, p, num, den, b)
  {
    if OutMoves(o) {
      var l := o.legOut.value;
      TickBounds(l, p.bumpNow);
      TickBounds(l, b);
      TickFalls(l, p.bumpNow, b);
      ScaledBelowTrue(num, den, OutTick(l, p.bumpNow), OutTick(l, b));
      MulMono(0, p.paid, OutTick(l, b));
    }
  }

  /** What it supposes is received is no less than what is exactly when the tick is early. */
  lemma ReceivedIsHighIff(o: Order, p: Preview, num: nat, den: nat, b: nat)
    requires TruePreview(o, p, num, den) && InMoves(o)
    ensures InTick(o.legIn.value, p.bumpNow) > 0
    ensures EarlyTick(o.legIn.value, num, den, p.bumpNow, b)
      <==> OwnReceived(o, p, num, den, b) <= ScaledReceived(o, p, b)
  {
    var l := o.legIn.value;
    RisingNow(o, p);
    InTickFrom(l, b);
    MulMono(0, p.received, InTick(l, b));
  }

  lemma EarlyIsNeverLate(
    o: Order, p: Preview, num: nat, den: nat, bump: int -> Option<nat>, passes: (int, int) -> bool, now: int,
    horizon: nat, r: Option<int>, t: int)
    requires TruePreview(o, p, num, den) && RisesEarly(o, p, num, den)
    requires MovesOn(bump, p.bumpNow, now) && Monotone(passes) && Predicts(o, p, bump, passes, now, horizon, r)
    requires now <= t <= now + horizon && OwnPasses(o, p, num, den, bump, passes, t)
    ensures r.Some? && r.value <= t
  {
    var b := bump(t).value;
    PaidIsLow(o, p, num, den, b);
    if InMoves(o) {
      ReceivedIsHighIff(o, p, num, den, b);
    }
    assert PassesAt(o, p, bump, passes, t);
  }

  /** At a tick that is not early: a clock standing there and a gate asking just the true amount. */
  lemma LateTickIsLate(o: Order, p: Preview, num: nat, den: nat, b: nat)
    requires TruePreview(o, p, num, den) && InMoves(o) && p.bumpNow <= b <= BPS
    requires ScaledReceived(o, p, b) < OwnReceived(o, p, num, den, b)
    ensures !NeverLate(o, p, num, den)
  {
    var due := OwnReceived(o, p, num, den, b);
    var bump: int -> Option<nat> := t => Some(b);
    var passes: (int, int) -> bool := (paid, received) => received >= due;
    assert !PassesAt(o, p, bump, passes, 0);
    assert Predicts(o, p, bump, passes, 0, 0, None);
    assert OwnPasses(o, p, num, den, bump, passes, 0);
  }

  /**
   * The prediction is never late - whatever the clock, the gate and the horizon - if and
   * only if scaling the preview understates no tick of a rising input leg; a falling output
   * leg never makes it late.
   */
  lemma NeverLateIff(o: Order, p: Preview, num: nat, den: nat)
    requires TruePreview(o, p, num, den)
    ensures NeverLate(o, p, num, den) <==> RisesEarly(o, p, num, den)
  {
    if RisesEarly(o, p, num, den) {
      forall bump: int -> Option<nat>, passes: (int, int) -> bool, now: int, horizon: nat, r: Option<int>, t: int |
        MovesOn(bump, p.bumpNow, now) && Monotone(passes) && Predicts(o, p, bump, passes, now, horizon, r)
        && now <= t <= now + horizon && OwnPasses(o, p, num, den, bump, passes, t)
        ensures r.Some? && r.value <= t
      {
        EarlyIsNeverLate(o, p, num, den, bump, passes, now, horizon, r, t);
      }
    } else {
      RisingNow(o, p);
      var b: nat :| p.bumpNow <= b <= BPS && !EarlyTick(o.legIn.value, num, den, p.bumpNow, b);
      ReceivedIsHighIff(o, p, num, den, b);
      LateTickIsLate(o, p, num, den, b);
    }
  }

  /** A preview that lost nothing to rounding is early at every tick. */
  lemma ExactPreviewIsEarly(l: Leg, num: nat, den: nat, bumpNow: nat)
    requires den > 0 && l.end >= l.start && InTick(l, bumpNow) > 0 && num * InTick(l, bumpNow) % den == 0
    ensures EveryTickEarly(l, num, den, bumpNow)
  {
    var now := InTick(l, bumpNow);
    forall b: nat | bumpNow <= b <= BPS
      ensures EarlyTick(l, num, den, bumpNow, b)
    {
      InTickFrom(l, b);
      FloorBounds(num * now, den);
      ExactScalesUp(num, den, now, InTick(l, b), num * now / den);
    }
  }

  /** Losing some need not hurt: a tenth of a leg from 19 to 20. */
  lemma LossyCanBeEarly()
    ensures 1 * InTick(Leg(19, 20, false), 0) % 10 != 0 && EveryTickEarly(Leg(19, 20, false), 1, 10, 0)
  {
    var l := Leg(19, 20, false);
    forall b: nat | b <= BPS
      ensures EarlyTick(l, 1, 10, 0, b)
    {
      assert InTick(l, b) == 19 || InTick(l, b) == 20;
    }
  }

  lemma ExactScalesUp(num: nat, den: nat, now: nat, later: nat, received: nat)
    requires den > 0 && now > 0 && num * now == received * den
    ensures num * later / den <= CeilDiv(received * later, now)
  {
    var q := CeilDiv(received * later, now);
    CeilIs(received * later, now, q);
    FloorBounds(num * later, den);
    MulMono(received * later, q * now, den);
    assert received * later * den == (num * later) * now;
    assert q * now * den == (q * den) * now;
    MulCancel(num * later, q * den, now);
    MulMono((num * later / den) * den, q * den, 1);
    MulCancel(num * later / den, q, den);
  }

  /** One tenth of an order that receives 19, rising to 40 over two seconds; the preview receives 1. */
  const LATE_ORDER := Order(false, false, false, 0, Some(Leg(19, 40, false)), Some(Leg(5, 5, false)), 0, 2)
  const LATE_PREVIEW := Preview(0, 1, 1)

  function LateClock(t: int): Option<nat> {
    if t < 0 then None else if t == 0 then Some(0) else if t == 1 then Some(9_048) else Some(BPS)
  }

  function AsksThree(paid: int, received: int): bool {
    received >= 3
  }

  lemma LateTicks()
    ensures Priceable(LATE_ORDER, LATE_PREVIEW) && TruePreview(LATE_ORDER, LATE_PREVIEW, 1, 10)
    ensures ScaledReceived(LATE_ORDER, LATE_PREVIEW, 0) == 1
    ensures ScaledReceived(LATE_ORDER, LATE_PREVIEW, 9_048) == 2
    ensures ScaledReceived(LATE_ORDER, LATE_PREVIEW, BPS) == 3
    ensures OwnReceived(LATE_ORDER, LATE_PREVIEW, 1, 10, 9_048) == 3
  {
    var l := LATE_ORDER.legIn.value;
    assert InTick(l, 0) == 19 && InTick(l, 9_048) == 38 && InTick(l, BPS) == 40;
  }

  /** Its price passes a gate that asks three units at second 1; the answer is second 2. */
  lemma RisingCanBeLate(r: Option<int>)
    requires Predicts(LATE_ORDER, LATE_PREVIEW, LateClock, AsksThree, 0, 2, r)
    ensures TruePreview(LATE_ORDER, LATE_PREVIEW, 1, 10)
    ensures MovesOn(LateClock, 0, 0) && Monotone(AsksThree)
    ensures OwnPasses(LATE_ORDER, LATE_PREVIEW, 1, 10, LateClock, AsksThree, 1)
    ensures r == Some(2)
  {
    LateTicks();
    assert !PassesAt(LATE_ORDER, LATE_PREVIEW, LateClock, AsksThree, 0);
    assert !PassesAt(LATE_ORDER, LATE_PREVIEW, LateClock, AsksThree, 1);
    assert PassesAt(LATE_ORDER, LATE_PREVIEW, LateClock, AsksThree, 2);
  }

  function ScaleUp(v: nat, num: nat, den: nat): nat {
    if den == 0 then v else CeilDiv(v * num, den)
  }

  /** A quote scaled up with what is received is no lower than a concave venue's own quote. */
  lemma ScaledQuoteIsHigh(quote: nat -> nat, now: nat, later: nat)
    requires 0 < now <= later && quote(now) * later >= quote(later) * now
    ensures ScaleUp(quote(now), later, now) >= quote(later)
  {
    var s := CeilDiv(quote(now) * later, now);
    CeilIs(quote(now) * later, now, s);
    MulCancel(quote(later), s, now);
  }

  // ------------------------------------------------------------- exactly what is scaled

  /** The scaled amounts: what is paid rounded down, what is received rounded up, by less than one unit each. */
  lemma ScaledIs(o: Order, p: Preview, b: nat)
    requires Priceable(o, p) && p.bumpNow <= BPS && b <= BPS
    ensures OutMoves(o) ==>
      var x, now, then_ := ScaledPaid(o, p, b), OutTick(o.legOut.value, p.bumpNow), OutTick(o.legOut.value, b);
      x * now <= p.paid * then_ < (x + 1) * now
    ensures InMoves(o) ==>
      var x, now, then_ := ScaledReceived(o, p, b), InTick(o.legIn.value, p.bumpNow), InTick(o.legIn.value, b);
      (x - 1) * now < p.received * then_ <= x * now
    ensures !OutMoves(o) ==> ScaledPaid(o, p, b) == p.paid
    ensures !InMoves(o) ==> ScaledReceived(o, p, b) == p.received
  {
    if OutMoves(o) {
      var now, t := OutTick(o.legOut.value, p.bumpNow), OutTick(o.legOut.value, b);
      TickBounds(o.legOut.value, p.bumpNow);
      TickBounds(o.legOut.value, b);
      MulMono(0, p.paid, t);
      FloorBounds(p.paid * t, now);
    }
    if InMoves(o) {
      var now, t := InTick(o.legIn.value, p.bumpNow), InTick(o.legIn.value, b);
      RisingNow(o, p);
      InTickFrom(o.legIn.value, b);
      MulMono(0, p.received, t);
      CeilIs(p.received * t, now, ScaledReceived(o, p, b));
      CeilIs(p.received * t, now, ScaledReceived(o, p, b) - 1);
    }
  }

  /** An order whose price follows from the clock alone, and moves, with a preview to scale. */
  ghost predicate Mirrored(o: Order, p: Preview) {
    && !o.pricingModule && !o.priority && !o.blockClock && o.gasBumpBps == 0 && o.span > 0
    && p.paid > 0 && p.received > 0
    && exists i, t :: (
         && o.legIn == Some(i) && o.legOut == Some(t) && !i.proportional && !t.proportional
         && (0 < t.end < t.start || i.start < i.end)
         && (i.start < i.end ==> InTick(i, p.bumpNow) > 0))
  }

  lemma MirroredIs(o: Order, p: Preview)
    requires p.bumpNow <= BPS
    ensures Priceable(o, p) <==> Mirrored(o, p)
  {
    if o.legIn.Some? && o.legOut.Some? {
      var i, t := o.legIn.value, o.legOut.value;
      if 0 < t.end < t.start {
        TickBounds(t, p.bumpNow);
      }
      if i.start < i.end {
        InTickFrom(i, p.bumpNow);
      }
    }
  }

  /**
   * Exactly when there is no answer: the price does not follow from the clock alone, or
   * nothing passes within the horizon and the floor is not reached in it.
   */
  lemma NoAnswerIff(
    o: Order, p: Preview, bump: int -> Option<nat>, passes: (int, int) -> bool, now: int, horizon: nat, r: Option<int>)
    requires Predicts(o, p, bump, passes, now, horizon, r) && p.bumpNow <= BPS
    ensures r.None? <==>
      || !Mirrored(o, p)
      || (Priceable(o, p)
          && (forall t | now <= t <= now + horizon :: !PassesAt(o, p, bump, passes, t))
          && !(now < o.decayStart + o.span <= now + horizon))
  {
    MirroredIs(o, p);
  }
}
