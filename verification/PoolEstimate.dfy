/**
 * The zero-RPC estimate of a swap on virtual reserves (packages/beta-filler/src/poolGraph.ts)
 * and what makes it sane: a constant product that never falls, monotonicity, and no gain
 * from swapping back.
 */
module PoolEstimate {
  import opened Common
  import opened Arith
  import opened PoolGraph

  const Q96: nat := 0x1_000000000000000000000000
  const FEE_DENOM: nat := 1_000_000
  const THIN_DIVISOR := 10

  datatype Estimate =
    | Unknown                       // the pool's state was never read
    | DivisionByZero
    | Est(out: int, thin: bool)

  /** The pool's in-range virtual reserves, token0 (the lower address) first. */
  function Reserve0(p: Pool): nat
    requires p.liquidity.Some? && p.sqrtPrice.Some? && p.sqrtPrice.value > 0
  {
    p.liquidity.value * Q96 / p.sqrtPrice.value
  }

  function Reserve1(p: Pool): nat
    requires p.liquidity.Some? && p.sqrtPrice.Some?
  {
    p.liquidity.value * p.sqrtPrice.value / Q96
  }

  predicate ZeroForOne(p: Pool, tokenIn: nat) {
    tokenIn == Min(p.tokenA, p.tokenB)
  }

  function ReserveIn(p: Pool, tokenIn: nat): nat
    requires p.liquidity.Some? && p.sqrtPrice.Some? && p.sqrtPrice.value > 0
  {
    if ZeroForOne(p, tokenIn) then Reserve0(p) else Reserve1(p)
  }

  function ReserveOut(p: Pool, tokenIn: nat): nat
    requires p.liquidity.Some? && p.sqrtPrice.Some? && p.sqrtPrice.value > 0
  {
    if ZeroForOne(p, tokenIn) then Reserve1(p) else Reserve0(p)
  }

  /** The input after the fee. */
  function AfterFee(p: Pool, amountIn: int): int {
    TruncDiv(amountIn * (FEE_DENOM - p.fee), FEE_DENOM)
  }

  function EstimateHop(p: Pool, tokenIn: nat, amountIn: int): Estimate {
    if p.liquidity.None? || p.sqrtPrice.None? then Unknown
    else if p.liquidity.value == 0 || p.sqrtPrice.value == 0 || amountIn <= 0 then Est(0, true)
    else
      var dx := AfterFee(p, amountIn);
      var rin, rout := ReserveIn(p, tokenIn), ReserveOut(p, tokenIn);
      if rin + dx == 0 then DivisionByZero
      else Est(TruncDiv(rout * dx, rin + dx), amountIn * THIN_DIVISOR > rin)
  }

  function FindPool(edges: seq<Pool>, x: nat, y: nat, fee: nat, venue: nat): Option<Pool> {
    if edges == [] then None
    else if Joins(edges[0], x, y) && edges[0].fee == fee && edges[0].venue == venue then Some(edges[0])
    else FindPool(edges[1..], x, y, fee, venue)
  }

  /** A path's estimate hop by hop, from hop `i` on with `amount` in. */
  function EstimateFrom(path: RoutePath, edges: seq<Pool>, i: nat, amount: int, thin: bool): Estimate
    requires |path.venues| == |path.fees| < |path.tokens| && i <= |path.fees|
    decreases |path.fees| - i
  {
    if i == |path.fees| then Est(amount, thin)
    else
      match FindPool(edges, path.tokens[i], path.tokens[i + 1], path.fees[i], path.venues[i])
      case None => Unknown
      case Some(p) =>
        match EstimateHop(p, path.tokens[i], amount)
        case Est(out, t) => EstimateFrom(path, edges, i + 1, out, thin || t)
        case other => other
  }

  function EstimatePath(path: RoutePath, edges: seq<Pool>, amountIn: int): Estimate
    requires |path.venues| == |path.fees| < |path.tokens|
  {
    EstimateFrom(path, edges, 0, amountIn, false)
  }

  // ----------------------------------------------------------------- what it promises

  /** State read, both virtual reserves positive, a fee below 100 %. */
  predicate Sound(p: Pool) {
    && p.liquidity.Some? && p.sqrtPrice.Some? && p.sqrtPrice.value > 0
    && Reserve0(p) > 0 && Reserve1(p) > 0 && p.fee < FEE_DENOM
  }

  /** The swap formula on naturals, rounded down. */
  function SwapOut(rin: nat, rout: nat, dx: nat): nat
    requires rin > 0
  {
    rout * dx / (rin + dx)
  }

  lemma EstimateIs(p: Pool, tokenIn: nat, amountIn: nat)
    requires Sound(p)
    ensures var dx := AfterFee(p, amountIn);
      && 0 <= dx <= amountIn
      && EstimateHop(p, tokenIn, amountIn) ==
           if amountIn == 0 then Est(0, true)
           else Est(SwapOut(ReserveIn(p, tokenIn), ReserveOut(p, tokenIn), dx),
               amountIn * THIN_DIVISOR > ReserveIn(p, tokenIn))
  {
    var dx := AfterFee(p, amountIn);
    MulMono(0, ReserveOut(p, tokenIn), dx);
  }

  /** The output is below the reserve and keeps the product of the reserves from falling. */
  lemma SwapKeepsProduct(rin: nat, rout: nat, dx: nat)
    requires rin > 0 && rout > 0
    ensures var out := SwapOut(rin, rout, dx);
      out < rout && (rin + dx) * (rout - out) >= rin * rout
  {
    var out := SwapOut(rin, rout, dx);
    FloorBounds(rout * dx, rin + dx);
    assert (rin + dx) * (rout - out) == rin * rout + rout * dx - out * (rin + dx);
    if out >= rout {
      MulMono(rout, out, rin + dx);
      assert rout * (rin + dx) == rout * rin + rout * dx;
      assert rout * rin >= 1 by {
        MulMono(1, rout, rin);
      }
    }
  }

  lemma SwapMono(rin: nat, rout: nat, a: nat, b: nat)
    requires rin > 0 && a <= b
    ensures SwapOut(rin, rout, a) <= SwapOut(rin, rout, b)
  {
    MulMono(a, b, rin * rout);
    assert (rout * a) * (rin + b) == a * (rin * rout) + rout * a * b;
    assert (rout * b) * (rin + a) == b * (rin * rout) + rout * a * b;
    FloorRatio(rout * a, rin + a, rout * b, rin + b);
  }

  /** Swapping the output back returns no more than what went in. */
  lemma SwapBack(rin: nat, rout: nat, dx: nat, back: nat)
    requires rin > 0 && rout > 0 && back <= SwapOut(rin, rout, dx)
    ensures SwapOut(rout, rin, back) <= dx
  {
    var out := SwapOut(rin, rout, dx);
    SwapMono(rout, rin, back, out);
    FloorBounds(rout * dx, rin + dx);
    BackAtMost(rin, rout, dx, out);
  }

  lemma BackAtMost(rin: nat, rout: nat, dx: nat, out: nat)
    requires rout > 0 && out * (rin + dx) <= rout * dx
    ensures rin * out / (rout + out) <= dx
  {
    assert out * (rin + dx) == rin * out + dx * out;
    MulMono(0, out, dx);
    assert dx * out == out * dx;
    NotAbove(rin * out, rout + out, dx) by {
      assert rin * out <= dx * rout;
      assert dx * (rout + out) == dx * rout + dx * out;
    }
  }

  lemma NotAbove(a: int, b: int, q: int)
    requires b > 0 && a <= q * b
    ensures a / b <= q
  {
    FloorIs(a, b, q + 1);
    assert (q + 1) * b == q * b + b;
  }

  /**
   * One hop on a sound pool: the reserves' product after the swap (the fee stays in the
   * pool) is no smaller than before, and the output is below the output reserve.
   */
  lemma HopKeepsProduct(p: Pool, tokenIn: nat, amountIn: nat)
    requires Sound(p)
    ensures var e := EstimateHop(p, tokenIn, amountIn);
      var rin, rout := ReserveIn(p, tokenIn), ReserveOut(p, tokenIn);
      e.Est? && 0 <= e.out < rout && (rin + amountIn) * (rout - e.out) >= rin * rout
  {
    EstimateIs(p, tokenIn, amountIn);
    var rin, rout, dx := ReserveIn(p, tokenIn), ReserveOut(p, tokenIn), AfterFee(p, amountIn);
    var out := EstimateHop(p, tokenIn, amountIn).out;
    SwapKeepsProduct(rin, rout, dx);
    if amountIn == 0 {
      assert (rin + 0) * (rout - 0) == rin * rout;
    } else {
      MulMono(rin + dx, rin + amountIn, rout - out);
    }
  }

  lemma HopMono(p: Pool, tokenIn: nat, a: nat, b: nat)
    requires Sound(p) && a <= b
    ensures var x, y := EstimateHop(p, tokenIn, a), EstimateHop(p, tokenIn, b);
      x.Est? && y.Est? && 0 <= x.out <= y.out
  {
    EstimateIs(p, tokenIn, a);
    EstimateIs(p, tokenIn, b);
    MulMono(a, b, FEE_DENOM - p.fee);
    FloorMono(a * (FEE_DENOM - p.fee), b * (FEE_DENOM - p.fee), FEE_DENOM);
    SwapMono(ReserveIn(p, tokenIn), ReserveOut(p, tokenIn), AfterFee(p, a), AfterFee(p, b));
  }

  /** A hop followed by its reverse on the same pool never estimates more than was put in. */
  lemma HopAndBack(p: Pool, tokenIn: nat, tokenOut: nat, amountIn: nat)
    requires Sound(p) && Joins(p, tokenIn, tokenOut) && tokenIn != tokenOut
    ensures var e := EstimateHop(p, tokenIn, amountIn);
      e.Est? && e.out >= 0 && var back := EstimateHop(p, tokenOut, e.out); back.Est? && back.out <= amountIn
  {
    HopKeepsProduct(p, tokenIn, amountIn);
    var out := EstimateHop(p, tokenIn, amountIn).out;
    EstimateIs(p, tokenIn, amountIn);
    EstimateIs(p, tokenOut, out);
    if amountIn != 0 {
      SwapBack(ReserveIn(p, tokenIn), ReserveOut(p, tokenIn), AfterFee(p, amountIn), AfterFee(p, out));
    }
  }

  /** Every pool of the graph is sound. */
  ghost predicate AllSound(edges: seq<Pool>) {
    forall p | p in edges :: Sound(p)
  }

  lemma {:induction false} FoundIsAnEdge(edges: seq<Pool>, x: nat, y: nat, fee: nat, venue: nat)
    ensures var f := FindPool(edges, x, y, fee, venue);
      f.Some? ==> f.value in edges && Joins(f.value, x, y) && f.value.fee == fee && f.value.venue == venue
  {
    if edges != [] && !(Joins(edges[0], x, y) && edges[0].fee == fee && edges[0].venue == venue) {
      FoundIsAnEdge(edges[1..], x, y, fee, venue);
    }
  }

  lemma {:induction false} EstimateFromMono(path: RoutePath, edges: seq<Pool>, i: nat, a: nat, b: nat, s: bool, t: bool)
    requires |path.venues| == |path.fees| < |path.tokens| && i <= |path.fees|
    requires AllSound(edges) && a <= b
    ensures var x, y := EstimateFrom(path, edges, i, a, s), EstimateFrom(path, edges, i, b, t);
      (x.Unknown? && y.Unknown?) || (x.Est? && y.Est? && 0 <= x.out <= y.out)
    decreases |path.fees| - i
  {
    if i < |path.fees| {
      var f := FindPool(edges, path.tokens[i], path.tokens[i + 1], path.fees[i], path.venues[i]);
      FoundIsAnEdge(edges, path.tokens[i], path.tokens[i + 1], path.fees[i], path.venues[i]);
      if f.Some? {
        HopMono(f.value, path.tokens[i], a, b);
        var x, y := EstimateHop(f.value, path.tokens[i], a), EstimateHop(f.value, path.tokens[i], b);
        EstimateFromMono(path, edges, i + 1, x.out, y.out, s || x.thin, t || y.thin);
      }
    }
  }

  /** A path's estimate never falls when more goes in, and is missing for every input or for none. */
  lemma PathMono(path: RoutePath, edges: seq<Pool>, a: nat, b: nat)
    requires |path.venues| == |path.fees| < |path.tokens| && AllSound(edges) && a <= b
    ensures var x, y := EstimatePath(path, edges, a), EstimatePath(path, edges, b);
      (x.Unknown? && y.Unknown?) || (x.Est? && y.Est? && 0 <= x.out <= y.out)
  {
    EstimateFromMono(path, edges, 0, a, b, false, false);
  }

  /**
   * The estimate divides by zero exactly when what the fee leaves of the input cancels the
   * virtual input reserve: nothing left of it in an empty pool, or, with a fee above the
   * whole, a loss as large as the reserve.
   */
  lemma DividesByZeroIff(p: Pool, tokenIn: nat, amountIn: int)
    ensures EstimateHop(p, tokenIn, amountIn).DivisionByZero? <==>
      && p.liquidity.Some? && p.sqrtPrice.Some? && p.liquidity.value > 0 && p.sqrtPrice.value > 0 && amountIn > 0
      && (if p.fee <= FEE_DENOM then
            ReserveIn(p, tokenIn) == 0 && amountIn * (FEE_DENOM - p.fee) < FEE_DENOM
          else
            ReserveIn(p, tokenIn) == amountIn * (p.fee - FEE_DENOM) / FEE_DENOM)
  {
    if amountIn > 0 && p.fee <= FEE_DENOM {
      var v := amountIn * (FEE_DENOM - p.fee);
      MulMono(0, amountIn, FEE_DENOM - p.fee);
      FloorIs(v, FEE_DENOM, 1);
      FloorIs(v, FEE_DENOM, 0);
    } else if amountIn > 0 {
      MulMono(1, amountIn, p.fee - FEE_DENOM);
      assert amountIn * (FEE_DENOM - p.fee) == -(amountIn * (p.fee - FEE_DENOM));
    }
  }

  // --------------------------------------------------------------- exactly what it says

  /** `x` is `amountIn` after a fee in millionths, rounded down. */
  predicate IsAfterFee(amountIn: nat, fee: nat, x: nat) {
    x * 1_000_000 <= amountIn * (1_000_000 - fee) < (x + 1) * 1_000_000
  }

  /** `out` is the most the pool can give for `dx` without its product falling. */
  predicate IsMostOut(rin: nat, rout: nat, dx: nat, out: nat) {
    (rin + dx) * (rout - out) >= rin * rout && (rin + dx) * (rout - (out + 1)) < rin * rout
  }

  /**
   * One hop on a sound pool: the most that keeps the virtual reserves' product from falling,
   * with the input after the fee; thin exactly when the input is over a tenth of the reserve.
   */
  lemma HopIs(p: Pool, tokenIn: nat, amountIn: nat) returns (dx: nat)
    requires Sound(p) && amountIn > 0
    ensures IsAfterFee(amountIn, p.fee, dx)
    ensures var e := EstimateHop(p, tokenIn, amountIn);
      var rin, rout := ReserveIn(p, tokenIn), ReserveOut(p, tokenIn);
      && e.Est? && e.out >= 0 && IsMostOut(rin, rout, dx, e.out)
      && (e.thin <==> 10 * amountIn > rin)
  {
    EstimateIs(p, tokenIn, amountIn);
    dx := AfterFee(p, amountIn);
    MulMono(0, amountIn, FEE_DENOM - p.fee);
    FloorBounds(amountIn * (FEE_DENOM - p.fee), FEE_DENOM);
    MostOut(ReserveIn(p, tokenIn), ReserveOut(p, tokenIn), dx);
  }

  lemma MostOut(rin: nat, rout: nat, dx: nat)
    requires rin > 0
    ensures IsMostOut(rin, rout, dx, SwapOut(rin, rout, dx))
  {
    var out := SwapOut(rin, rout, dx);
    FloorBounds(rout * dx, rin + dx);
    assert (rin + dx) * (rout - out) == rin * rout + rout * dx - out * (rin + dx);
    assert (rin + dx) * (rout - (out + 1)) == rin * rout + rout * dx - out * (rin + dx) - (rin + dx);
  }

  /** The virtual reserves: liquidity over and times the root price, the token with the lower address first. */
  lemma ReservesAre(p: Pool, tokenIn: nat, tokenOut: nat)
    requires Sound(p) && Joins(p, tokenIn, tokenOut) && tokenIn != tokenOut
    ensures var lo, hi := ReserveIn(p, Min(tokenIn, tokenOut)), ReserveIn(p, Max(tokenIn, tokenOut));
      var l, root := p.liquidity.value, p.sqrtPrice.value;
      && lo * root <= l * Q96 < (lo + 1) * root && hi * Q96 <= l * root < (hi + 1) * Q96
      && ReserveOut(p, tokenIn) == ReserveIn(p, tokenOut)
  {
    FloorBounds(p.liquidity.value * Q96, p.sqrtPrice.value);
    MulMono(0, p.liquidity.value, p.sqrtPrice.value);
    FloorBounds(p.liquidity.value * p.sqrtPrice.value, Q96);
  }

  /** What hop `i` gives for an amount. */
  function HopOf(path: RoutePath, edges: seq<Pool>, i: nat, amount: int): Estimate
    requires |path.venues| == |path.fees| < |path.tokens| && i < |path.fees|
  {
    match FindPool(edges, path.tokens[i], path.tokens[i + 1], path.fees[i], path.venues[i])
    case None => Unknown
    case Some(p) => EstimateHop(p, path.tokens[i], amount)
  }

  /** The amount that reaches hop `i`: what the hop before gives for the amount that reaches it. */
  function AmountAt(path: RoutePath, edges: seq<Pool>, amountIn: int, i: nat): Option<int>
    requires |path.venues| == |path.fees| < |path.tokens| && i <= |path.fees|
  {
    if i == 0 then Some(amountIn)
    else
      match AmountAt(path, edges, amountIn, i - 1)
      case None => None
      case Some(x) =>
        match HopOf(path, edges, i - 1, x)
        case Est(out, _) => Some(out)
        case _ => None
  }

  /** Some hop before `i` is thin for the amount that reaches it. */
  predicate ThinBefore(path: RoutePath, edges: seq<Pool>, amountIn: int, i: nat)
    requires |path.venues| == |path.fees| < |path.tokens| && i <= |path.fees|
  {
    i > 0 &&
    (|| ThinBefore(path, edges, amountIn, i - 1)
     || match AmountAt(path, edges, amountIn, i - 1)
        case None => false
        case Some(x) => HopOf(path, edges, i - 1, x).Est? && HopOf(path, edges, i - 1, x).thin)
  }

  lemma {:induction false} FromStart(path: RoutePath, edges: seq<Pool>, amountIn: int, i: nat)
    requires |path.venues| == |path.fees| < |path.tokens| && i <= |path.fees|
    ensures match AmountAt(path, edges, amountIn, i)
      case Some(x) =>
        EstimatePath(path, edges, amountIn) == EstimateFrom(path, edges, i, x, ThinBefore(path, edges, amountIn, i))
      case None => !EstimatePath(path, edges, amountIn).Est?
  {
    if i > 0 {
      FromStart(path, edges, amountIn, i - 1);
    }
  }

  /**
   * A path's estimate: each hop on what the hop before gives, missing when one is, and thin
   * exactly when one is.
   */
  lemma PathIs(path: RoutePath, edges: seq<Pool>, amountIn: int)
    requires |path.venues| == |path.fees| < |path.tokens|
    ensures var e, out := EstimatePath(path, edges, amountIn), AmountAt(path, edges, amountIn, |path.fees|);
      && (e.Est? <==> out.Some?)
      && (e.Est? ==> e.out == out.value && (e.thin <==> ThinBefore(path, edges, amountIn, |path.fees|)))
  {
    FromStart(path, edges, amountIn, |path.fees|);
  }
}
