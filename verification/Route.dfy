/**
 * The route gate, the pool plan it leads to and the plan's pre-send check
 * (packages/beta-filler/src/route.ts). The plan's calldata is kept decoded: encoding it and
 * decoding it again is assumed to give the same route.
 */
module Route {
  import opened Common
  import opened Arith

  const BPS := 10_000
  const PPM: nat := 1_000_000

  function MulDivUp(a: nat, b: nat, c: nat): Result<nat> {
    if c == 0 then Thrown("mulDivUp: division by zero") else Ok(CeilDiv(a * b, c))
  }

  /** The surplus that leaves `cost` after the split, when the filler keeps `keepPpm` of it. */
  function GrossUp(cost: nat, keepPpm: int): Result<nat> {
    if keepPpm <= 0 || keepPpm > PPM then Thrown("grossUp: keepPpm out of range")
    else if keepPpm == PPM then Ok(cost)
    else MulDivUp(cost, PPM, keepPpm)
  }

  datatype Offer = Offer(quotedOut: nat, owed: nat, slippageBps: nat, gasOut: nat, minProfitOut: nat, keepPpm: int)

  datatype Gate = Refused | Passed(haircutOut: int, requiredOut: int, costOut: nat, marginOut: int)

  function Haircut(o: Offer): int {
    TruncDiv(o.quotedOut * (BPS - o.slippageBps), BPS)
  }

  function RouteProfitable(o: Offer): Result<Gate> {
    if o.owed == 0 then Ok(Refused)
    else
      match GrossUp(o.gasOut + o.minProfitOut, o.keepPpm)
      case Thrown(why) => Thrown(why)
      case Ok(costOut) =>
        var required := o.owed + costOut;
        Ok(if Haircut(o) < required then Refused else Passed(Haircut(o), required, costOut, Haircut(o) - required))
  }

  // ----------------------------------------------------------------------- the plan

  datatype PoolRoute = PoolRoute(tokens: seq<nat>, fees: seq<nat>, venues: seq<nat>, amountIn: nat, amountOut: nat)

  datatype Offset = NoPatch | AmountInWord | AmountOutWord

  datatype Plan = Plan(
    poolRouter: bool, minOut: nat, maxPay: nat, amountInOffset: Offset, amountOutOffset: Offset,
    minBumpBps: nat, profitRecipient: nat, data: PoolRoute)

  datatype Fill = Fill(
    direct: bool, tokens: seq<nat>, fees: seq<nat>, venues: seq<nat>, received: nat, owed: nat,
    quotedOut: nat, costOut: nat, profitRecipient: nat, minBumpBps: nat, liveOut: bool)

  function BuildPoolPlan(f: Fill): Result<Plan> {
    if !f.direct then
      Ok(Plan(true, f.owed + f.costOut, f.owed, AmountInWord, NoPatch, f.minBumpBps, f.profitRecipient,
              PoolRoute(f.tokens, f.fees, f.venues, f.received, 0)))
    else if f.quotedOut == 0 then Thrown("buildPoolPlan: zero quote")
    else
      var keepIn := CeilDiv(f.costOut * f.received, f.quotedOut);
      if keepIn >= f.received then Thrown("buildPoolPlan: margin exceeds the input")
      else
        Ok(Plan(true, 0, 0, NoPatch, if f.liveOut then AmountOutWord else NoPatch, f.minBumpBps, f.profitRecipient,
                PoolRoute(f.tokens, f.fees, f.venues, f.received - keepIn, f.owed)))
  }

  /** The pre-send check of a plan against the order's end tokens and the fill. */
  predicate ValidPoolPlan(plan: Plan, tokenIn: nat, tokenOut: nat, f: Fill) {
    var d := plan.data;
    && plan.poolRouter
    && d.tokens != [] && d.tokens[0] == tokenIn && d.tokens[|d.tokens| - 1] == tokenOut
    && d.tokens == f.tokens && d.fees == f.fees && d.venues == f.venues
    && if !f.direct then
         && d.amountOut == 0 && d.amountIn == f.received
         && plan.amountInOffset == AmountInWord && plan.amountOutOffset == NoPatch
         && plan.maxPay == f.owed && plan.minOut >= f.owed
       else
         && d.amountOut == f.owed && 0 < d.amountIn < f.received
         && plan.amountInOffset == NoPatch && plan.amountOutOffset != AmountInWord
  }

  // ----------------------------------------------------------------- what it promises

  /** The split of a surplus: maker and protocol take their shares rounded down, the filler the rest. */
  function FillerShare(surplus: nat, makerPpm: nat, protocolPpm: nat): int {
    surplus - surplus * makerPpm / PPM - surplus * protocolPpm / PPM
  }

  /** The grossed-up surplus is the least whose kept fraction covers the cost. */
  lemma GrossUpIsLeast(cost: nat, keepPpm: nat, surplus: nat)
    requires 0 < keepPpm <= PPM
    ensures var g := GrossUp(cost, keepPpm);
      && g.Ok?
      && (g.value <= surplus <==> surplus * keepPpm >= cost * PPM)
      && (g.value <= surplus <==> surplus * keepPpm / PPM >= cost)
  {
    FloorIs(surplus * keepPpm, PPM, cost);
    if keepPpm == PPM {
      if surplus * PPM >= cost * PPM {
        MulCancel(cost, surplus, PPM);
      }
    } else {
      CeilIs(cost * PPM, keepPpm, surplus);
    }
  }

  /** `c` is the least surplus of which `keepPpm` millionths cover `need`. */
  predicate IsLeastSurplus(c: nat, need: nat, keepPpm: int) {
    c * keepPpm >= need * 1_000_000 && (c > 0 ==> (c - 1) * keepPpm < need * 1_000_000)
  }

  /** The quote after the haircut covers what is owed and the surplus `c`. */
  predicate Covers(o: Offer, c: nat) {
    o.quotedOut * (10_000 - o.slippageBps) >= (o.owed + c) * 10_000
  }

  lemma LeastSurplusIs(need: nat, keepPpm: int, c: nat)
    requires 0 < keepPpm <= PPM
    ensures IsLeastSurplus(c, need, keepPpm) <==> GrossUp(need, keepPpm) == Ok(c)
  {
    GrossUpIsLeast(need, keepPpm, c);
    if c > 0 {
      GrossUpIsLeast(need, keepPpm, c - 1);
    }
  }

  /** Taking the haircut before comparing, rounded down, or comparing as it is: the same. */
  lemma HaircutCovers(o: Offer, c: nat)
    requires o.owed > 0
    ensures Haircut(o) >= o.owed + c <==> Covers(o, c)
  {
    var v := o.quotedOut * (BPS - o.slippageBps);
    if o.slippageBps <= BPS {
      MulMono(0, o.quotedOut, BPS - o.slippageBps);
      FloorIs(v, BPS, o.owed + c);
    } else {
      MulMono(BPS - o.slippageBps, 0, o.quotedOut);
      assert v == (BPS - o.slippageBps) * o.quotedOut;
    }
  }

  /**
   * Exactly when the gate passes: something is owed and the quote after the haircut covers
   * it and the least surplus whose kept share pays gas and minimum profit. It throws on a
   * kept share outside (0, 1] and refuses otherwise.
   */
  lemma GateIff(o: Offer)
    ensures var g, need := RouteProfitable(o), o.gasOut + o.minProfitOut;
      var inRange := 0 < o.keepPpm <= 1_000_000;
      && (g.Thrown? <==> o.owed > 0 && !inRange)
      && (g.Ok? && g.value.Passed? <==>
            o.owed > 0 && inRange && exists c: nat :: IsLeastSurplus(c, need, o.keepPpm) && Covers(o, c))
      && (g.Ok? && g.value.Passed? ==>
            var p := g.value;
            && IsLeastSurplus(p.costOut, need, o.keepPpm) && p.requiredOut == o.owed + p.costOut
            && p.haircutOut * 10_000 <= o.quotedOut * (10_000 - o.slippageBps) < p.haircutOut * 10_000 + 10_000
            && p.marginOut == p.haircutOut - p.requiredOut && p.marginOut >= 0)
  {
    var need := o.gasOut + o.minProfitOut;
    if o.owed > 0 && 0 < o.keepPpm <= 1_000_000 {
      GrossUpIsLeast(need, o.keepPpm, 0);
      var c := GrossUp(need, o.keepPpm).value;
      LeastSurplusIs(need, o.keepPpm, c);
      HaircutCovers(o, c);
      forall d: nat | IsLeastSurplus(d, need, o.keepPpm) ensures d == c {
        LeastSurplusIs(need, o.keepPpm, d);
      }
      if RouteProfitable(o).value.Passed? {
        HaircutBounds(o);
      }
    }
  }

  lemma HaircutBounds(o: Offer)
    requires Haircut(o) > 0
    ensures var v := o.quotedOut * (BPS - o.slippageBps); Haircut(o) * BPS <= v < Haircut(o) * BPS + BPS
  {
    FloorBounds(o.quotedOut * (BPS - o.slippageBps), BPS);
  }

  /** Spending `x` of the input leaves the cost, valued at the quoted rate. */
  predicate KeepsCost(f: Fill, x: nat) {
    (f.received - x) * f.quotedOut >= f.costOut * f.received
  }

  /**
   * What a built plan carries: the fill's own route, price floor and recipient; the live
   * output is patched exactly when asked for; and a direct plan may spend the most that
   * keeps the cost back at the quoted rate.
   */
  lemma PlanCarries(f: Fill)
    requires BuildPoolPlan(f).Ok?
    ensures var p := BuildPoolPlan(f).value;
      && p.poolRouter && p.minBumpBps == f.minBumpBps && p.profitRecipient == f.profitRecipient
      && p.data.tokens == f.tokens && p.data.fees == f.fees && p.data.venues == f.venues
      && (!f.direct ==>
            && p.minOut == f.owed + f.costOut && p.maxPay == f.owed
            && p.data.amountIn == f.received && p.data.amountOut == 0
            && p.amountInOffset == AmountInWord && p.amountOutOffset == NoPatch)
      && (f.direct ==>
            && p.data.amountOut == f.owed && p.amountInOffset == NoPatch
            && (p.amountOutOffset == AmountOutWord <==> f.liveOut) && (p.amountOutOffset == NoPatch <==> !f.liveOut)
            && forall x: nat | x <= f.received :: x <= p.data.amountIn <==> KeepsCost(f, x))
  {
    if f.direct {
      forall x: nat | x <= f.received
        ensures x <= BuildPoolPlan(f).value.data.amountIn <==> KeepsCost(f, x)
      {
        CeilIs(f.costOut * f.received, f.quotedOut, f.received - x);
      }
    }
  }

  /** The filler's share of the split, as the gate knows it. */
  ghost predicate Splits(o: Offer, makerPpm: nat, protocolPpm: nat) {
    makerPpm + protocolPpm < PPM && o.keepPpm == PPM - makerPpm - protocolPpm
  }

  /**
   * A pull fill that passed the gate: any output the plan's floor lets through leaves the
   * filler its gas and minimum profit after the split, and the haircut quote clears that
   * floor, while the floor is no higher than it must be for it.
   */
  lemma PullFillPays(o: Offer, f: Fill, makerPpm: nat, protocolPpm: nat, out: nat)
    requires Splits(o, makerPpm, protocolPpm)
    requires var g := RouteProfitable(o); g.Ok? && g.value.Passed? && f.costOut == g.value.costOut
    requires !f.direct && f.owed == o.owed && out >= BuildPoolPlan(f).value.minOut
    ensures out >= f.owed
    ensures FillerShare(out - f.owed, makerPpm, protocolPpm) >= o.gasOut + o.minProfitOut
    ensures Haircut(o) >= BuildPoolPlan(f).value.minOut
    ensures BuildPoolPlan(f).value.maxPay == o.owed
  {
    GrossUpIsLeast(o.gasOut + o.minProfitOut, o.keepPpm, out - f.owed);
  }

  lemma ResidueKeeps(cost: nat, received: nat, quoted: nat, used: nat)
    requires quoted > 0 && used <= received - CeilDiv(cost * received, quoted)
    ensures (received - used) * quoted >= cost * received
    ensures cost > 0 && received > 0 ==> used < received
  {
    var keepIn := CeilDiv(cost * received, quoted);
    CeilIs(cost * received, quoted, keepIn);
    CeilIs(cost * received, quoted, 0);
    MulMono(keepIn, received - used, quoted);
    if cost > 0 {
      MulMono(1, cost, received);
    }
  }

  lemma KeptIsWorth(cost: nat, received: nat, quoted: nat, residue: nat, need: nat, keep: nat)
    requires residue * quoted >= cost * received && cost * keep >= need * PPM
    ensures residue * quoted * keep >= need * PPM * received
  {
    MulMono(cost * received, residue * quoted, keep);
    assert cost * received * keep == (cost * keep) * received;
    MulMono(need * PPM, cost * keep, received);
  }

  lemma CeilingBuys(cost: nat, received: nat, quoted: nat, owed: nat)
    requires quoted > 0 && owed + cost <= quoted && CeilDiv(cost * received, quoted) < received
    ensures (received - CeilDiv(cost * received, quoted) + 1) * quoted > owed * received
  {
    var keepIn := CeilDiv(cost * received, quoted);
    CeilIs(cost * received, quoted, keepIn - 1);
    MulMono(owed + cost, quoted, received);
    assert (owed + cost) * received == owed * received + cost * received;
    assert (received - keepIn + 1) * quoted == quoted * received - (keepIn - 1) * quoted;
  }

  /**
   * A direct fill that passed the gate: whatever input the route uses within the plan's
   * ceiling, the residue valued at the quoted rate covers the grossed-up cost, so its kept
   * fraction is worth the gas and minimum profit; and the ceiling, one input unit more, buys
   * the owed output at that rate.
   */
  lemma DirectFillPays(o: Offer, f: Fill, makerPpm: nat, protocolPpm: nat, used: nat)
    requires Splits(o, makerPpm, protocolPpm)
    requires var g := RouteProfitable(o); g.Ok? && g.value.Passed? && f.costOut == g.value.costOut
    requires f.direct && f.owed == o.owed && f.quotedOut == o.quotedOut
    requires BuildPoolPlan(f).Ok? && used <= BuildPoolPlan(f).value.data.amountIn
    ensures used < f.received || f.costOut == 0
    ensures (f.received - used) * f.quotedOut >= f.costOut * f.received
    ensures (f.received - used) * f.quotedOut * o.keepPpm >= (o.gasOut + o.minProfitOut) * PPM * f.received
    ensures (BuildPoolPlan(f).value.data.amountIn + 1) * f.quotedOut > f.owed * f.received
  {
    GrossUpIsLeast(o.gasOut + o.minProfitOut, o.keepPpm, f.costOut);
    ResidueKeeps(f.costOut, f.received, f.quotedOut, used);
    KeptIsWorth(f.costOut, f.received, f.quotedOut, f.received - used, o.gasOut + o.minProfitOut, o.keepPpm);
    CeilingBuys(f.costOut, f.received, f.quotedOut, f.owed);
  }

  /** A plan cannot be built exactly when it is direct and less than one input unit's worth would remain to buy with. */
  lemma BuildFailsIff(f: Fill)
    ensures BuildPoolPlan(f).Thrown? <==>
      f.direct && (f.quotedOut == 0 || (f.quotedOut - f.costOut) * f.received < f.quotedOut)
  {
    if f.direct && f.quotedOut > 0 {
      CeilIs(f.costOut * f.received, f.quotedOut, f.received - 1);
      assert (f.received - 1) * f.quotedOut == f.quotedOut * f.received - f.quotedOut;
      assert (f.quotedOut - f.costOut) * f.received == f.quotedOut * f.received - f.costOut * f.received;
    }
  }

  /**
   * Which fills get a plan that passes its own pre-send check: along a path between the
   * order's tokens, every pull fill, and a direct one that keeps a margin and has at least
   * one input unit's worth left to buy with.
   */
  lemma SendableIff(f: Fill, tokenIn: nat, tokenOut: nat)
    ensures (var b := BuildPoolPlan(f); b.Ok? && ValidPoolPlan(b.value, tokenIn, tokenOut, f)) <==>
      && f.tokens != [] && f.tokens[0] == tokenIn && f.tokens[|f.tokens| - 1] == tokenOut
      && (f.direct ==> f.costOut > 0 && f.quotedOut > 0 && (f.quotedOut - f.costOut) * f.received >= f.quotedOut)
  {
    BuildFailsIff(f);
    if f.direct && f.quotedOut > 0 {
      MarginKeptIff(f.costOut, f.received, f.quotedOut);
    }
  }

  /** Something is kept back exactly when there is a cost and an input to keep it from. */
  lemma MarginKeptIff(cost: nat, received: nat, quoted: nat)
    requires quoted > 0
    ensures CeilDiv(cost * received, quoted) > 0 <==> cost > 0 && received > 0
  {
    CeilIs(cost * received, quoted, 0);
    if cost > 0 && received > 0 {
      MulMono(1, cost, received);
    }
  }

  /** A direct fill with no gas and no profit to keep: a plan is built, and its own check refuses it. */
  lemma NoMarginIsRefused()
    ensures var f := Fill(true, [1, 2], [500], [0], 100, 100, 100, 0, 7, 0, false);
      var b := BuildPoolPlan(f);
      b.Ok? && !ValidPoolPlan(b.value, 1, 2, f)
  {
    SendableIff(Fill(true, [1, 2], [500], [0], 100, 100, 100, 0, 7, 0, false), 1, 2);
  }

  // ---------------------------------------------------------------------- the ranking

  datatype Source = PoolPath | Sushi | Nordstern

  datatype Candidate = Candidate(source: Source, out: int, routeGasOut: int)

  /** A candidate with its place in the input. */
  datatype Tagged = Tagged(c: Candidate, i: nat)

  function NetOut(c: Candidate): int {
    c.out - c.routeGasOut
  }

  /** More net output first, the earlier candidate on a tie. */
  predicate Ahead(x: Tagged, y: Tagged) {
    NetOut(x.c) > NetOut(y.c) || (NetOut(x.c) == NetOut(y.c) && x.i < y.i)
  }

  function Tags(cands: seq<Candidate>): seq<Tagged> {
    seq(|cands|, i requires 0 <= i < |cands| => Tagged(cands[i], i))
  }

  function InsertRanked(x: Tagged, ranked: seq<Tagged>): seq<Tagged> {
    if ranked == [] || Ahead(x, ranked[0]) then [x] + ranked
    else [ranked[0]] + InsertRanked(x, ranked[1..])
  }

  function SortRanked(list: seq<Tagged>): seq<Tagged> {
    if list == [] then [] else InsertRanked(list[0], SortRanked(list[1..]))
  }

  /** The candidates best first. */
  function RankRoutes(cands: seq<Candidate>): seq<Tagged> {
    SortRanked(Tags(cands))
  }

  ghost predicate Ranked(list: seq<Tagged>) {
    forall j, k | 0 <= j < k < |list| :: Ahead(list[j], list[k])
  }

  ghost predicate DistinctTags(list: seq<Tagged>) {
    forall j, k | 0 <= j < k < |list| :: list[j].i != list[k].i
  }

  lemma {:induction false} InsertAdds(x: Tagged, ranked: seq<Tagged>)
    ensures multiset(InsertRanked(x, ranked)) == multiset(ranked) + multiset{x}
  {
    if ranked != [] && !Ahead(x, ranked[0]) {
      InsertAdds(x, ranked[1..]);
      assert ranked == [ranked[0]] + ranked[1..];
    }
  }

  lemma {:induction false} InsertRanks(x: Tagged, ranked: seq<Tagged>)
    requires Ranked(ranked) && forall k | 0 <= k < |ranked| :: ranked[k].i != x.i
    ensures Ranked(InsertRanked(x, ranked))
  {
    if ranked != [] && !Ahead(x, ranked[0]) {
      var head, rest := ranked[0], ranked[1..];
      InsertRanks(x, rest);
      InsertAdds(x, rest);
      var tail := InsertRanked(x, rest);
      forall k | 0 <= k < |tail| ensures Ahead(head, tail[k]) {
        assert tail[k] in multiset(tail);
        assert tail[k] == x || tail[k] in rest;
      }
    }
  }

  /** A tag absent from a list is absent from every rearrangement of it. */
  lemma StaysFresh(list: seq<Tagged>, rest: seq<Tagged>, i: nat)
    requires multiset(rest) == multiset(list) && forall k | 0 <= k < |list| :: list[k].i != i
    ensures forall k | 0 <= k < |rest| :: rest[k].i != i
  {
    forall k | 0 <= k < |rest| ensures rest[k].i != i {
      assert rest[k] in multiset(rest);
      assert rest[k] in list;
    }
  }

  lemma {:induction false} SortRanks(list: seq<Tagged>)
    requires DistinctTags(list)
    ensures Ranked(SortRanked(list)) && multiset(SortRanked(list)) == multiset(list)
  {
    if list != [] {
      var tail := list[1..];
      SortRanks(tail);
      StaysFresh(tail, SortRanked(tail), list[0].i);
      InsertRanks(list[0], SortRanked(tail));
      InsertAdds(list[0], SortRanked(tail));
      assert list == [list[0]] + tail;
    }
  }

  lemma TailOf(a: seq<Tagged>)
    requires a != []
    ensures a[0] in multiset(a) && multiset(a[1..]) == multiset(a) - multiset{a[0]}
  {
    assert a == [a[0]] + a[1..];
  }

  lemma {:induction false} RankingIsUnique(a: seq<Tagged>, b: seq<Tagged>)
    requires Ranked(a) && Ranked(b) && multiset(a) == multiset(b)
    ensures a == b
  {
    if a != [] {
      TailOf(a);
      assert a[0] in b;
      TailOf(b);
      assert b[0] in a;
      RankingIsUnique(a[1..], b[1..]);
    } else if b != [] {
      TailOf(b);
    }
  }

  /**
   * The ranking lists every candidate once, best net output first and earlier candidates
   * first among equals; no other arrangement does, so how the sort works does not matter.
   */
  lemma RankingIsForced(cands: seq<Candidate>, list: seq<Tagged>)
    requires multiset(list) == multiset(Tags(cands))
    ensures multiset(RankRoutes(cands)) == multiset(Tags(cands))
    ensures Ranked(list) <==> list == RankRoutes(cands)
  {
    SortRanks(Tags(cands));
    if Ranked(list) {
      RankingIsUnique(list, RankRoutes(cands));
    }
  }
}
