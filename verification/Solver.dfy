/**
 * The solver's bid (packages/auction/src/solver.ts): a route's cost carried into the
 * band's token, and the least bump at which the maker's integer tick clears it.
 */
module Solver {
  import opened Common
  import opened Arith

  const BPS: nat := 10_000
  const WEI: nat := 1_000_000_000_000_000_000

  /** The maker's signed band on the leg that prices: a BUY's input rises, a SELL's output falls. */
  datatype Band = Band(start: nat, end: nat, rising: bool)

  datatype Side = Buy | Sell

  datatype Leg = Leg(band: Band, side: Side, amountIn: nat, requiredOut: nat)

  function Span(band: Band): int {
    if band.rising then band.end - band.start else band.start - band.end
  }

  /** Rounded-up division, with the source's own case for zero. */
  function CeilZero(a: nat, b: nat): nat
    requires b > 0
  {
    if a == 0 then 0 else (a - 1) / b + 1
  }

  function GasInBandToken(gasUnits: nat, gasPriceWei: nat, nativePriceInToken: nat): nat {
    CeilZero(gasUnits * gasPriceWei * nativePriceInToken, WEI)
  }

  function CostInBandToken(leg: Leg, amountOut: int): Option<int> {
    if leg.side.Sell? then Some(amountOut)
    else if amountOut <= 0 then None
    else if amountOut < leg.requiredOut then None
    else Some(CeilZero(leg.amountIn * leg.requiredOut, amountOut))
  }

  /** What the fill must net: gas adds to a BUY's cost and comes off a SELL's output. */
  function Net(band: Band, available: int, gas: int): int {
    if band.rising then available + gas else available - gas
  }

  /** The price a margin of `margin` bps on the net asks for, rounded as the source rounds it. */
  function Goal(band: Band, net: nat, margin: nat): nat {
    if band.rising then net * (BPS + margin) / BPS else net * BPS / (BPS + margin)
  }

  /** How far the band's start is from the goal, along the band. */
  function Short(band: Band, goal: nat): int {
    if band.rising then goal - band.start else band.start - goal
  }

  /** The bump that moves the tick all the way to the goal. */
  function BumpTo(band: Band, goal: nat): nat
    requires Span(band) > 0
  {
    var short := Short(band, goal);
    if short <= 0 then 0 else CeilZero(short * BPS, Span(band))
  }

  function MinimumBump(band: Band, available: int, minProfitBps: int, gas: int): Result<Option<nat>> {
    if minProfitBps < 0 then Thrown("minProfitBps must be non-negative")
    else if gas < 0 then Thrown("gasInBandToken must be non-negative")
    else
      var net := Net(band, available, gas);
      if net <= 0 then Ok(None)
      else
        var span := Span(band);
        if span < 0 then Thrown("band is signed the wrong way round")
        else if span == 0 then Ok(if net >= band.start then Some(0) else None)
        else
          var bump := BumpTo(band, Goal(band, net, minProfitBps));
          Ok(if bump > BPS then None else Some(bump))
  }

  // ----------------------------------------------------------------- what it promises

  /** The maker's price at bump `b`, in whole units. */
  function Tick(band: Band, b: nat): int
    requires Span(band) >= 0
  {
    var moved := Span(band) * b / BPS;
    if band.rising then band.start + moved else band.start - moved
  }

  /**
   * The tick at `b` pays the net amount and the margin on it: a BUY's brings in more than
   * that less one unit, a SELL's asks no more than what is left of it.
   */
  predicate Clears(band: Band, net: nat, margin: nat, b: nat)
    requires Span(band) >= 0
  {
    if band.rising then Tick(band, b) * 10_000 > net * (10_000 + margin) - 10_000
    else Tick(band, b) * (10_000 + margin) <= net * 10_000
  }

  /** That is what the rounded goal says. */
  lemma ClearsGoal(band: Band, net: nat, margin: nat, b: nat)
    requires Span(band) >= 0
    ensures Clears(band, net, margin, b) <==>
      if band.rising then Tick(band, b) >= Goal(band, net, margin) else Tick(band, b) <= Goal(band, net, margin)
  {
    var tick := Tick(band, b);
    if band.rising {
      FloorIs(net * (BPS + margin), BPS, tick + 1);
      FloorIs(net * (BPS + margin), BPS, tick);
      assert (tick + 1) * BPS == tick * BPS + BPS;
    } else {
      FloorIs(net * BPS, BPS + margin, tick);
    }
  }

  /** `r` is the least clearing bump of 0..10000, or none of them clears. */
  ghost predicate LeastClearing(band: Band, net: nat, margin: nat, r: Option<nat>)
    requires Span(band) >= 0
  {
    match r
    case None => forall b | 0 <= b <= BPS :: !Clears(band, net, margin, b)
    case Some(best) =>
      && best <= BPS && Clears(band, net, margin, best)
      && forall b | 0 <= b < best :: !Clears(band, net, margin, b)
  }

  lemma CeilZeroIs(a: nat, b: nat, q: int)
    requires b > 0
    ensures CeilZero(a, b) <= q <==> q * b >= a
  {
    if a == 0 {
      if q >= 0 {
        MulMono(0, q, b);
      } else {
        MulMono(q, -1, b);
      }
    } else {
      FloorIs(a - 1, b, q);
      FloorBounds(a - 1, b);
      if q <= (a - 1) / b {
        MulMono(q, (a - 1) / b, b);
      } else {
        MulMono((a - 1) / b + 1, q, b);
        assert ((a - 1) / b + 1) * b == ((a - 1) / b) * b + b;
      }
    }
  }

  /** A tick clears exactly from the rounded-up share of the span on. */
  lemma ClearsFrom(band: Band, net: nat, margin: nat, b: nat)
    requires Span(band) > 0
    ensures Clears(band, net, margin, b) <==> BumpTo(band, Goal(band, net, margin)) <= b
  {
    var goal, span := Goal(band, net, margin), Span(band);
    var short := Short(band, goal);
    ClearsGoal(band, net, margin, b);
    MulMono(0, b, span);
    assert span * b == b * span;
    FloorIs(span * b, BPS, short);
    FloorIs(span * b, BPS, 0);
    if short > 0 {
      CeilZeroIs(short * BPS, span, b);
    }
  }

  /**
   * The bid is optimal: with a real span and a positive net amount it is the least bump of
   * 0..10000 whose whole-unit tick pays the net amount and the margin, and null exactly when
   * not even the band's end does.
   */
  lemma BidIsLeastClearing(band: Band, available: int, margin: nat, gas: nat)
    requires Span(band) > 0 && Net(band, available, gas) > 0
    ensures var r, net := MinimumBump(band, available, margin, gas), Net(band, available, gas);
      && r.Ok? && LeastClearing(band, net, margin, r.value)
      && (r.value == None <==> !Clears(band, net, margin, BPS))
  {
    var net := Net(band, available, gas);
    forall b: nat
      ensures Clears(band, net, margin, b) <==> BumpTo(band, Goal(band, net, margin)) <= b
    {
      ClearsFrom(band, net, margin, b);
    }
  }

  /** What a bump further along the band moves the tick to. */
  lemma TickMoves(band: Band, b: nat, c: nat)
    requires Span(band) >= 0 && b <= c
    ensures if band.rising then Tick(band, b) <= Tick(band, c) else Tick(band, c) <= Tick(band, b)
  {
    MulMono(b, c, Span(band));
    assert Span(band) * b == b * Span(band) && Span(band) * c == c * Span(band);
    FloorMono(Span(band) * b, Span(band) * c, BPS);
  }

  /**
   * The bid cannot lose: at the bump bid and at every larger one the round may charge (a
   * second price is never below the winner's bid), the maker's tick leaves the solver its
   * net amount plus the margin, exactly on a SELL and up to one unit on a BUY.
   */
  lemma BidCannotLose(band: Band, available: int, margin: nat, gas: nat, paid: nat)
    requires Span(band) > 0
    requires var r := MinimumBump(band, available, margin, gas);
      r.Ok? && r.value.Some? && r.value.value <= paid <= BPS
    ensures band.rising ==>
      Tick(band, paid) >= available + gas && Tick(band, paid) * BPS > (available + gas) * (BPS + margin) - BPS
    ensures !band.rising ==>
      Tick(band, paid) <= available - gas && Tick(band, paid) * (BPS + margin) <= (available - gas) * BPS
  {
    var net := Net(band, available, gas);
    var bid := MinimumBump(band, available, margin, gas).value.value;
    BidIsLeastClearing(band, available, margin, gas);
    TickMoves(band, bid, paid);
    PaysNet(net, margin, Tick(band, bid), Tick(band, paid), band.rising);
  }

  /** A tick no worse than one that pays the margin pays it too, and the net amount by itself. */
  lemma PaysNet(net: nat, margin: nat, bid: int, tick: int, rising: bool)
    requires if rising then bid <= tick && bid * BPS > net * (BPS + margin) - BPS
      else tick <= bid && bid * (BPS + margin) <= net * BPS
    ensures if rising then tick >= net && tick * BPS > net * (BPS + margin) - BPS
      else tick <= net && tick * (BPS + margin) <= net * BPS
  {
    assert net * (BPS + margin) == net * BPS + net * margin;
    MulMono(0, net, margin);
    if rising {
      MulMono(bid, tick, BPS);
    } else {
      MulMono(tick, bid, BPS + margin);
      MulCancel(tick, net, BPS + margin);
    }
  }

  /**
   * A fixed leg (no span) skips the margin and compares the same way on both sides, so its
   * answer is the least clearing bump exactly when: on a SELL, the net amount does not reach
   * the price, or pays for the margin on it too; on a BUY, the cost is below the price and
   * the margin pushes it a whole unit above, or the cost is the price and the margin adds
   * less than a unit.
   */
  lemma FixedLegBidIff(band: Band, available: int, margin: nat, gas: nat)
    requires Span(band) == 0 && Net(band, available, gas) > 0
    ensures var r, net := MinimumBump(band, available, margin, gas), Net(band, available, gas);
      && r.Ok?
      && (!band.rising ==>
        (LeastClearing(band, net, margin, r.value) <==>
          net < band.start || band.start * (10_000 + margin) <= net * 10_000))
      && (band.rising ==>
        (LeastClearing(band, net, margin, r.value) <==>
          || (net < band.start && (band.start + 1) * 10_000 <= net * (10_000 + margin))
          || (net == band.start && net * margin < 10_000)))
  {
    var net := Net(band, available, gas);
    forall b: nat
      ensures Tick(band, b) == band.start
    {
      assert Span(band) * b == 0;
    }
    assert Clears(band, net, margin, 0) ==> forall b: nat :: Clears(band, net, margin, b);
    assert !Clears(band, net, margin, 0) ==> forall b: nat :: !Clears(band, net, margin, b);
    assert net * (10_000 + margin) == net * 10_000 + net * margin;
    MulMono(0, net, margin);
  }

  /** When there is no answer at all, and when there is none to give. */
  lemma BidAnswers(band: Band, available: int, minProfitBps: int, gas: int)
    ensures var r := MinimumBump(band, available, minProfitBps, gas);
      var net := if band.rising then available + gas else available - gas;
      && (r.Thrown? <==>
            || minProfitBps < 0 || gas < 0
            || (net > 0 && if band.rising then band.end < band.start else band.start < band.end))
      && (minProfitBps >= 0 && gas >= 0 && net <= 0 ==> r == Ok(None))
  {
  }

  /** A fixed BUY price of 100 with a route costing 50 clears at once and is not bid on; costing 200 it is. */
  lemma FixedBuyIsMirrored()
    ensures var band := Band(100, 100, true);
      && MinimumBump(band, 50, 0, 0) == Ok(None) && Clears(band, 50, 0, 0)
      && MinimumBump(band, 200, 0, 0) == Ok(Some(0)) && !Clears(band, 200, 0, 0)
  {
  }

  // ------------------------------------------------------------------- what it costs

  /** A venue with diminishing returns: `g` is the exact output curve, of which whole units are delivered. */
  ghost predicate Diminishing(g: nat -> real) {
    forall x: nat, y: nat :: x <= y ==> g(x) * (y as real) >= g(y) * (x as real)
  }

  lemma RealCancel(a: real, b: real, c: real)
    requires c > 0.0 && a * c >= b * c
    ensures a >= b
  {
  }

  /** The curve at the interpolated cost, from its value at the whole input. */
  lemma CurveReaches(gc: real, ga: real, c: nat, a: nat, out: nat, required: nat)
    requires a > 0 && gc * (a as real) >= ga * (c as real) && ga >= out as real && c * out >= a * required
    ensures gc >= required as real
  {
    assert (out as real) * (c as real) == (c * out) as real;
    assert (required as real) * (a as real) == (a * required) as real;
    RealCancel(gc, required as real, a as real);
  }

  /**
   * Spending the interpolated cost through the venue the quote came from yields at least
   * the required output, and never costs more than the quote's whole input; it is the least
   * amount worth the required output at the quoted rate.
   */
  lemma CostYieldsRequired(leg: Leg, g: nat -> real, amountOut: nat)
    requires leg.side.Buy? && Diminishing(g) && amountOut as real <= g(leg.amountIn)
    ensures var c := CostInBandToken(leg, amountOut);
      && (c.None? <==> amountOut == 0 || amountOut < leg.requiredOut)
      && (c.Some? ==>
           0 <= c.value <= leg.amountIn && g(c.value) >= leg.requiredOut as real && g(c.value).Floor >= leg.requiredOut)
      && (c.Some? ==> forall x: nat :: c.value <= x <==> x * amountOut >= leg.amountIn * leg.requiredOut)
  {
    var a, required := leg.amountIn, leg.requiredOut;
    if amountOut > 0 && amountOut >= required {
      var c := CeilZero(a * required, amountOut);
      CeilZeroIs(a * required, amountOut, c);
      CeilZeroIs(a * required, amountOut, a);
      CeilZeroIs(a * required, amountOut, -1);
      forall x: nat ensures c <= x <==> x * amountOut >= a * required {
        CeilZeroIs(a * required, amountOut, x);
      }
      MulMono(required, amountOut, a);
      if a > 0 {
        CurveReaches(g(c), g(a), c, a, amountOut, required);
      }
    }
  }

  /** The cost of a leg: a SELL's is what it pays out; a BUY's is none when the quote falls short, else the least. */
  lemma CostIs(leg: Leg, amountOut: int)
    ensures var c := CostInBandToken(leg, amountOut);
      && (leg.side.Sell? ==> c == Some(amountOut))
      && (leg.side.Buy? ==>
            && (c.None? <==> amountOut <= 0 || amountOut < leg.requiredOut)
            && (c.Some? ==>
                  && c.value >= 0 && c.value * amountOut >= leg.amountIn * leg.requiredOut
                  && (c.value > 0 ==> (c.value - 1) * amountOut < leg.amountIn * leg.requiredOut)))
  {
    if leg.side.Buy? && amountOut > 0 && amountOut >= leg.requiredOut {
      var a := leg.amountIn * leg.requiredOut;
      CeilZeroIs(a, amountOut, CeilZero(a, amountOut));
      CeilZeroIs(a, amountOut, CeilZero(a, amountOut) - 1);
      CeilZeroIs(a, amountOut, -1);
    }
  }

  /** The gas cost carried into the band's token is rounded up: it covers the fee by less than one unit too much. */
  lemma GasCovers(gasUnits: nat, gasPriceWei: nat, rate: nat)
    ensures var fee, g := gasUnits * gasPriceWei * rate, GasInBandToken(gasUnits, gasPriceWei, rate);
      fee <= g * WEI && (g > 0 ==> (g - 1) * WEI < fee)
  {
    MulMono(0, gasUnits, gasPriceWei);
    MulMono(0, gasUnits * gasPriceWei, rate);
    var fee, g := gasUnits * gasPriceWei * rate, GasInBandToken(gasUnits, gasPriceWei, rate);
    CeilZeroIs(fee, WEI, g);
    if g > 0 {
      CeilZeroIs(fee, WEI, g - 1);
    }
  }

  /**
   * From quote to fill on a BUY: a bid priced on the interpolated cost and the converted
   * gas, charged at any bump from the bid up, brings in enough input to buy the whole
   * required output through the quoted venue and pay the gas out of the rest.
   */
  lemma BuyBidPaysForItself(leg: Leg, g: nat -> real, amountOut: nat, margin: nat, gas: nat, paid: nat)
    requires leg.side.Buy? && leg.band.rising && Span(leg.band) > 0
    requires Diminishing(g) && amountOut as real <= g(leg.amountIn)
    requires var c := CostInBandToken(leg, amountOut);
      c.Some? && var r := MinimumBump(leg.band, c.value, margin, gas);
      r.Ok? && r.value.Some? && r.value.value <= paid <= BPS
    ensures var spent := CostInBandToken(leg, amountOut).value;
      0 <= spent <= Tick(leg.band, paid) - gas && g(spent).Floor >= leg.requiredOut
  {
    var c := CostInBandToken(leg, amountOut).value;
    CostYieldsRequired(leg, g, amountOut);
    BidCannotLose(leg.band, c, margin, gas, paid);
  }
}
