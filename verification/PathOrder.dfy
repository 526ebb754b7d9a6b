/**
 * The order in which the picked paths are returned (packages/beta-filler/src/poolGraph.ts):
 * when it is the ranking's, and how the best single hop and the forced paths break it.
 */
module PathOrder {
  import opened Common
  import opened PoolGraph
  import opened PoolEstimate
  import opened PathSelect

  /** Where `x` first stands in a list, the length when it does not. */
  function Place(s: seq<RoutePath>, x: RoutePath): (i: nat)
    ensures i <= |s| && (i < |s| <==> x in s) && (i < |s| ==> s[i] == x)
  {
    if s == [] || s[0] == x then 0 else 1 + Place(s[1..], x)
  }

  /** `p` stands before `q`. */
  predicate Before(s: seq<RoutePath>, p: RoutePath, q: RoutePath) {
    Place(s, p) < Place(s, q)
  }

  /** The ranked paths among `r` come in the order of the ranking. */
  ghost predicate InOrder(r: seq<RoutePath>, best: seq<RoutePath>) {
    forall p, q | p in r && q in r && p in best && q in best && Before(r, p, q) :: Before(best, p, q)
  }

  /** A forced path that is ranked, but not in the top part. */
  predicate Late(best: seq<RoutePath>, top: seq<RoutePath>, forced: seq<RoutePath>, p: RoutePath) {
    p in forced && p in best && p !in top
  }

  /** The late forced paths are given in the order of the ranking, none ranked before the best single hop. */
  ghost predicate ForcedInOrder(best: seq<RoutePath>, top: seq<RoutePath>, forced: seq<RoutePath>) {
    && (forall p, q | Late(best, top, forced, p) && Late(best, top, forced, q) && Before(forced, p, q) ::
          Before(best, p, q))
    && (forall s, q | s in FirstSingle(best) && Late(best, top, forced, q) :: Before(best, s, q))
  }

  /** The best single hop is picked in its turn: it leads the ranking, there is none, or nothing is picked beside it. */
  predicate SingleInTurn(best: seq<RoutePath>, k: nat) {
    best == [] || |best[0].fees| == 1 || FirstSingle(best) == [] || k == 1
  }

  // ------------------------------------------------------------------------- places

  lemma {:induction false} PlaceAppend(s: seq<RoutePath>, x: RoutePath, p: RoutePath)
    ensures p in s ==> Place(s + [x], p) == Place(s, p)
    ensures p !in s && p == x ==> Place(s + [x], p) == |s|
  {
    if s == [] {
    } else {
      assert (s + [x])[1..] == s[1..] + [x];
      PlaceAppend(s[1..], x, p);
    }
  }

  lemma {:induction false} PlacePrefix(r: seq<RoutePath>, s: seq<RoutePath>, p: RoutePath)
    requires s <= r && p in s
    ensures Place(r, p) == Place(s, p)
  {
    if s[0] != p {
      PlacePrefix(r[1..], s[1..], p);
    }
  }

  /** What is taken late stands after what was there, in the order of the list it comes from. */
  lemma {:induction false} TakenInOrder(picked: seq<RoutePath>, list: seq<RoutePath>, p: RoutePath, q: RoutePath)
    requires Distinct(picked) && p !in picked && q !in picked && p in list && q in list
    ensures var r := TakeAll(picked, list);
      Place(r, p) >= |picked| && (Before(r, p, q) <==> Before(list, p, q))
    decreases |list|
  {
    var x := list[0];
    var next := Take(picked, x);
    var r := TakeAll(next, list[1..]);
    TakeAllIs(next, list[1..]);
    if x == p || x == q {
      HeadTaken(picked, list, p);
      HeadTaken(picked, list, q);
    } else {
      TakenInOrder(next, list[1..], p, q);
    }
  }

  /** What is not the first taken stands after it. */
  lemma HeadTaken(picked: seq<RoutePath>, list: seq<RoutePath>, p: RoutePath)
    requires Distinct(picked) && list != [] && list[0] !in picked && p !in picked && p in list
    ensures var r := TakeAll(picked, list);
      if p == list[0] then Place(r, p) == |picked| else Place(r, p) > |picked|
  {
    var x := list[0];
    var next := picked + [x];
    var r := TakeAll(next, list[1..]);
    TakeAllIs(next, list[1..]);
    if p == x {
      PlaceAppend(picked, x, x);
      PlacePrefix(r, next, x);
    } else {
      PastPrefix(r, next, p);
    }
  }

  lemma PastPrefix(r: seq<RoutePath>, s: seq<RoutePath>, p: RoutePath)
    requires s <= r && p in r && p !in s
    ensures Place(r, p) >= |s|
  {
    var i := Place(r, p);
    assert r[i] == p;
  }

  // ------------------------------------------------------------------- the top part

  /** `r` is the part of the ranking up to `n`, in its order. */
  ghost predicate IsTop(r: seq<RoutePath>, best: seq<RoutePath>, n: nat) {
    && n <= |best| && InOrder(r, best)
    && (forall p | p in r :: Place(best, p) < n)
    && (forall j | 0 <= j < n :: best[j] in r)
  }

  lemma TopGrows(r: seq<RoutePath>, best: seq<RoutePath>, n: nat)
    requires IsTop(r, best, n) && n < |best|
    ensures IsTop(Take(r, best[n]), best, n + 1)
  {
    var x := best[n];
    assert Place(best, x) <= n by {
      PlaceAt(best, n);
    }
    if x !in r {
      assert Place(best, x) == n by {
        assert best[Place(best, x)] == x;
      }
      forall p, q | p in r + [x] && q in r + [x] && Before(r + [x], p, q) ensures Before(best, p, q) {
        PlaceAppend(r, x, p);
        PlaceAppend(r, x, q);
      }
    }
  }

  lemma {:induction false} PlaceAt(s: seq<RoutePath>, i: nat)
    requires i < |s|
    ensures Place(s, s[i]) <= i
  {
    if i > 0 {
      PlaceAt(s[1..], i - 1);
    }
  }

  lemma TakeNext(r: seq<RoutePath>, best: seq<RoutePath>, n: nat, k: nat)
    requires n < |best| && |r| < k
    ensures TakeUpTo(r, best[n..], k) == TakeUpTo(Take(r, best[n]), best[n + 1..], k)
  {
    assert best[n..][1..] == best[n + 1..];
  }

  lemma {:induction false} TopOfRanking(r: seq<RoutePath>, best: seq<RoutePath>, n: nat, k: nat) returns (m: nat)
    requires IsTop(r, best, n)
    ensures IsTop(TakeUpTo(r, best[n..], k), best, m)
    decreases |best| - n
  {
    m := n;
    if n < |best| && |r| < k {
      TopGrows(r, best, n);
      TakeNext(r, best, n, k);
      m := TopOfRanking(Take(r, best[n]), best, n + 1, k);
    }
  }

  /** The top part when no single hop is taken out of turn. */
  lemma TopInTurn(best: seq<RoutePath>, k: nat) returns (m: nat)
    requires k >= 1 && best != [] && (|best[0].fees| == 1 || FirstSingle(best) == [])
    ensures IsTop(TakeUpTo(FirstSingle(best), best, k), best, m)
  {
    if FirstSingle(best) == [] {
      assert best[0..] == best;
      m := TopOfRanking([], best, 0, k);
    } else {
      var f := [best[0]];
      assert IsTop(f, best, 1);
      if k > 1 {
        m := TopOfRanking(f, best, 1, k);
        assert Take(f, best[0]) == f;
      } else {
        m := 1;
      }
    }
  }

  /** The top part is in ranking order exactly when the best single hop is picked in its turn. */
  lemma TopInOrderIff(best: seq<RoutePath>, k: nat)
    requires k >= 1
    ensures InOrder(TakeUpTo(FirstSingle(best), best, k), best) <==> SingleInTurn(best, k)
  {
    var top := TakeUpTo(FirstSingle(best), best, k);
    if best != [] {
      FirstSingleIs(best);
      if |best[0].fees| == 1 || FirstSingle(best) == [] {
        var m := TopInTurn(best, k);
      } else if k > 1 {
        OutOfTurn(best, k);
      }
    }
  }

  lemma OutOfTurn(best: seq<RoutePath>, k: nat)
    requires k > 1 && best != [] && |best[0].fees| != 1 && FirstSingle(best) != []
    ensures !InOrder(TakeUpTo(FirstSingle(best), best, k), best)
  {
    var s := FirstSingle(best);
    FirstSingleIs(best);
    var two := s + [best[0]];
    assert Take(s, best[0]) == two;
    TakeUpToGrows(two, best[1..], k);
    var top := TakeUpTo(s, best, k);
    assert top[0] == s[0] && top[1] == best[0] && s[0] != best[0];
    assert s[0] in top && best[0] in top && best[0] in best;
    assert Place(top, s[0]) == 0 && Place(best, best[0]) == 0;
    assert Before(top, s[0], best[0]);
  }

  // ------------------------------------------------------------------- the selection

  /** The picks, from the ranked paths. */
  function Picks(best: seq<RoutePath>, unknown: seq<RoutePath>, k: nat, forced: seq<RoutePath>): seq<RoutePath> {
    TakeAll(TakeAll(TakeUpTo(FirstSingle(best), best, k), unknown), forced)
  }

  lemma TopDistinct(best: seq<RoutePath>, k: nat)
    requires k >= 1
    ensures var top := TakeUpTo(FirstSingle(best), best, k);
      Distinct(top) && FirstSingle(best) <= top && forall p | p in top :: p in best
  {
    FirstSingleIs(best);
    var n := TakeUpToIs(FirstSingle(best), best, k);
    assert forall p | p in best[..n] :: p in best;
  }

  /** Where two ranked picks stand. */
  lemma PickPlaces(
    best: seq<RoutePath>, unknown: seq<RoutePath>, k: nat, forced: seq<RoutePath>, p: RoutePath, q: RoutePath)
    requires k >= 1 && p in best && q in best && forall x | x in unknown :: x !in best
    ensures var top, r := TakeUpTo(FirstSingle(best), best, k), Picks(best, unknown, k, forced);
      && (p in r <==> p in top || Late(best, top, forced, p))
      && (p in top && q in top ==> (Before(r, p, q) <==> Before(top, p, q)))
      && (p in top && Late(best, top, forced, q) ==> Before(r, p, q))
      && (Late(best, top, forced, p) && Late(best, top, forced, q) ==> (Before(r, p, q) <==> Before(forced, p, q)))
  {
    var top := TakeUpTo(FirstSingle(best), best, k);
    var mid := TakeAll(top, unknown);
    var r := TakeAll(mid, forced);
    TopDistinct(best, k);
    TakeAllIs(top, unknown);
    TakeAllIs(mid, forced);
    if p in top {
      PlacePrefix(mid, top, p);
      PlacePrefix(r, mid, p);
    }
    if q in top {
      PlacePrefix(mid, top, q);
      PlacePrefix(r, mid, q);
    }
    if Late(best, top, forced, q) {
      TakenInOrder(mid, forced, q, q);
      if Late(best, top, forced, p) {
        TakenInOrder(mid, forced, p, q);
      }
    }
  }

  /** Late paths rank after the whole top part exactly when they rank after the best single hop. */
  lemma LateAfterTop(best: seq<RoutePath>, k: nat, q: RoutePath)
    requires k >= 1 && SingleInTurn(best, k) && q in best
    requires var top := TakeUpTo(FirstSingle(best), best, k);
      q !in top && forall s | s in FirstSingle(best) :: Before(best, s, q)
    ensures forall p | p in TakeUpTo(FirstSingle(best), best, k) :: Before(best, p, q)
  {
    FirstSingleIs(best);
    if |best[0].fees| == 1 || FirstSingle(best) == [] {
      var m := TopInTurn(best, k);
      assert best[Place(best, q)] == q;
    }
  }

  lemma OrderedFrom(best: seq<RoutePath>, unknown: seq<RoutePath>, k: nat, forced: seq<RoutePath>)
    requires k >= 1 && forall x | x in unknown :: x !in best
    requires SingleInTurn(best, k) && ForcedInOrder(best, TakeUpTo(FirstSingle(best), best, k), forced)
    ensures InOrder(Picks(best, unknown, k, forced), best)
  {
    var top, r := TakeUpTo(FirstSingle(best), best, k), Picks(best, unknown, k, forced);
    TopInOrderIff(best, k);
    forall p, q | p in r && q in r && p in best && q in best && Before(r, p, q) ensures Before(best, p, q) {
      PickPlaces(best, unknown, k, forced, p, q);
      PickPlaces(best, unknown, k, forced, q, p);
      if p in top && q !in top {
        LateAfterTop(best, k, q);
      }
    }
  }

  lemma OrderedOnlyFrom(best: seq<RoutePath>, unknown: seq<RoutePath>, k: nat, forced: seq<RoutePath>)
    requires k >= 1 && forall x | x in unknown :: x !in best
    requires InOrder(Picks(best, unknown, k, forced), best)
    ensures SingleInTurn(best, k) && ForcedInOrder(best, TakeUpTo(FirstSingle(best), best, k), forced)
  {
    var top, r := TakeUpTo(FirstSingle(best), best, k), Picks(best, unknown, k, forced);
    TopInOrderIff(best, k);
    TopDistinct(best, k);
    forall p, q | p in best && q in best && p in top && q in top && Before(top, p, q) ensures Before(best, p, q) {
      PickPlaces(best, unknown, k, forced, p, q);
      PickPlaces(best, unknown, k, forced, q, p);
    }
    forall p, q | Late(best, top, forced, p) && Late(best, top, forced, q) && Before(forced, p, q)
      ensures Before(best, p, q) {
      PickPlaces(best, unknown, k, forced, p, q);
      PickPlaces(best, unknown, k, forced, q, p);
    }
    forall s, q | s in FirstSingle(best) && Late(best, top, forced, q) ensures Before(best, s, q) {
      PickPlaces(best, unknown, k, forced, s, q);
      PickPlaces(best, unknown, k, forced, q, s);
    }
  }

  /** The ranked paths, best first. */
  function RankedPaths(paths: seq<RoutePath>, edges: seq<Pool>, amountIn: int, penalty: nat): seq<RoutePath>
    requires AllHopped(paths)
  {
    RankingInRange(paths, edges, amountIn, penalty);
    Best(paths, Ranking(paths, edges, amountIn, penalty))
  }

  lemma {:induction false} UnknownIs(paths: seq<RoutePath>, edges: seq<Pool>, amountIn: int, n: nat)
    requires AllHopped(paths) && n <= |paths|
    ensures forall p | p in UnknownSingles(paths, edges, amountIn, n) ::
      Hopped(p) && EstimatePath(p, edges, amountIn).Unknown?
  {
    if n > 0 {
      UnknownIs(paths, edges, amountIn, n - 1);
    }
  }

  lemma RankedHasEstimate(paths: seq<RoutePath>, edges: seq<Pool>, amountIn: int, penalty: nat, p: RoutePath)
    requires AllHopped(paths) && p in RankedPaths(paths, edges, amountIn, penalty)
    ensures Hopped(p) && EstimatePath(p, edges, amountIn).Est?
  {
    var ranked := Ranking(paths, edges, amountIn, penalty);
    RankingIs(paths, edges, amountIn, penalty);
    RankingInRange(paths, edges, amountIn, penalty);
    var j :| 0 <= j < |ranked| && paths[ranked[j].i] == p;
    assert ranked[j] in ranked;
  }

  lemma UnknownNotRanked(paths: seq<RoutePath>, edges: seq<Pool>, amountIn: int, penalty: nat, p: RoutePath)
    requires AllHopped(paths) && p in UnknownSingles(paths, edges, amountIn, |paths|)
    ensures p !in RankedPaths(paths, edges, amountIn, penalty)
  {
    UnknownIs(paths, edges, amountIn, |paths|);
    if p in RankedPaths(paths, edges, amountIn, penalty) {
      RankedHasEstimate(paths, edges, amountIn, penalty, p);
    }
  }

  /**
   * The picks keep the estimate order if and only if the best single hop is picked in its
   * turn - it leads the ranking, no single hop is ranked, or one path is picked - and the
   * forced paths ranked below the top part are given in ranking order, none of them above
   * the best single hop.
   */
  lemma EstimateOrderIff(
    paths: seq<RoutePath>, edges: seq<Pool>, amountIn: int, k: nat, penalty: nat, forced: seq<RoutePath>)
    requires AllHopped(paths)
    ensures var best := RankedPaths(paths, edges, amountIn, penalty);
      InOrder(Selected(paths, edges, amountIn, k, penalty, forced), best) <==>
        SingleInTurn(best, Max(k, 1)) && ForcedInOrder(best, TakeUpTo(FirstSingle(best), best, Max(k, 1)), forced)
  {
    var best, unknown := RankedPaths(paths, edges, amountIn, penalty), UnknownSingles(paths, edges, amountIn, |paths|);
    forall x | x in unknown ensures x !in best {
      UnknownNotRanked(paths, edges, amountIn, penalty, x);
    }
    if SingleInTurn(best, Max(k, 1)) && ForcedInOrder(best, TakeUpTo(FirstSingle(best), best, Max(k, 1)), forced) {
      OrderedFrom(best, unknown, Max(k, 1), forced);
    }
    if InOrder(Picks(best, unknown, Max(k, 1), forced), best) {
      OrderedOnlyFrom(best, unknown, Max(k, 1), forced);
    }
  }

  // ------------------------------------------------------------- where it is not kept

  const SINGLE := RoutePath([1, 3], [0], [0])
  const DOUBLE := RoutePath([1, 2, 3], [0, 0], [0, 0])

  /** A shallow direct pool, two deep ones by way of token 2. */
  const EDGES := [
    Pool(1, 3, 0, 0, Some(1_000), Some(Q96)),
    Pool(1, 2, 0, 0, Some(100_000), Some(Q96)),
    Pool(2, 3, 0, 0, Some(100_000), Some(Q96))
  ]

  lemma FlatPool(p: Pool, tokenIn: nat, amountIn: nat, l: nat)
    requires p.fee == 0 && p.liquidity == Some(l) && p.sqrtPrice == Some(Q96) && l > 0 && 0 < amountIn
    ensures EstimateHop(p, tokenIn, amountIn) == Est(l * amountIn / (l + amountIn), amountIn * THIN_DIVISOR > l)
  {
    assert Reserve0(p) == l && Reserve1(p) == l;
    assert AfterFee(p, amountIn) == amountIn;
  }

  lemma {:induction false} FoundAt(edges: seq<Pool>, i: nat, x: nat, y: nat)
    requires i < |edges| && Joins(edges[i], x, y) && edges[i].fee == 0 && edges[i].venue == 0
    requires forall j | 0 <= j < i :: !Joins(edges[j], x, y)
    ensures FindPool(edges, x, y, 0, 0) == Some(edges[i])
  {
    if i > 0 {
      FoundAt(edges[1..], i - 1, x, y);
    }
  }

  lemma SingleEstimate()
    ensures EstimatePath(SINGLE, EDGES, 100) == Est(90, false)
  {
    FlatPool(EDGES[0], 1, 100, 1_000);
    FoundAt(EDGES, 0, 1, 3);
    assert EstimateFrom(SINGLE, EDGES, 1, 90, false) == Est(90, false);
  }

  lemma DoubleEstimate()
    ensures EstimatePath(DOUBLE, EDGES, 100) == Est(98, false)
  {
    FlatPool(EDGES[1], 1, 100, 100_000);
    FoundAt(EDGES, 1, 1, 2);
    SecondHop();
  }

  lemma SecondHop()
    ensures EstimateFrom(DOUBLE, EDGES, 1, 99, false) == Est(98, false)
  {
    FlatPool(EDGES[2], 2, 99, 100_000);
    FoundAt(EDGES, 2, 2, 3);
    assert EstimateFrom(DOUBLE, EDGES, 2, 98, false) == Est(98, false);
  }

  /** Two paths with sound estimates, the second one better. */
  lemma TwoRanked(p: RoutePath, q: RoutePath, edges: seq<Pool>, amountIn: int, x: int, y: int)
    requires Hopped(p) && Hopped(q) && 0 < x < y
    requires EstimatePath(p, edges, amountIn) == Est(x, false) && EstimatePath(q, edges, amountIn) == Est(y, false)
    ensures AllHopped([p, q]) && RankedPaths([p, q], edges, amountIn, 0) == [q, p]
  {
    var paths := [p, q];
    var s, t := Score(p, 0, x, 0), Score(q, 1, y, 0);
    ScoredTwo(p, q, edges, amountIn, x, y);
    assert Route.Ahead(t, s);
    SortTwo(s, t);
    assert Ranking(paths, edges, amountIn, 0) == [t, s];
  }

  lemma ScoredTwo(p: RoutePath, q: RoutePath, edges: seq<Pool>, amountIn: int, x: int, y: int)
    requires Hopped(p) && Hopped(q) && 0 < x && 0 < y
    requires EstimatePath(p, edges, amountIn) == Est(x, false) && EstimatePath(q, edges, amountIn) == Est(y, false)
    ensures AllHopped([p, q])
    ensures Scored([p, q], edges, amountIn, 0, false, 2) == [Score(p, 0, x, 0), Score(q, 1, y, 0)]
    ensures UnknownSingles([p, q], edges, amountIn, 2) == []
  {
    var paths := [p, q];
    assert Scored(paths, edges, amountIn, 0, false, 0) == [];
    assert Scored(paths, edges, amountIn, 0, false, 1) == [Score(p, 0, x, 0)];
    assert UnknownSingles(paths, edges, amountIn, 0) == [];
    assert UnknownSingles(paths, edges, amountIn, 1) == [];
  }

  lemma SortTwo(x: Route.Tagged, y: Route.Tagged)
    requires Route.Ahead(y, x)
    ensures Route.SortRanked([x, y]) == [y, x]
  {
    assert [x, y][1..] == [y];
    assert Route.SortRanked([y]) == [y];
    assert Route.InsertRanked(x, [y]) == [y] + Route.InsertRanked(x, []);
  }

  /**
   * Two hops are estimated best, yet the single hop comes first: as one of two picks, and
   * as the one pick with two hops forced.
   */
  lemma EstimateOrderIsNotKept()
    ensures AllHopped([SINGLE, DOUBLE]) && RankedPaths([SINGLE, DOUBLE], EDGES, 100, 0) == [DOUBLE, SINGLE]
    ensures Selected([SINGLE, DOUBLE], EDGES, 100, 2, 0, []) == [SINGLE, DOUBLE]
    ensures Selected([SINGLE, DOUBLE], EDGES, 100, 1, 0, [DOUBLE]) == [SINGLE, DOUBLE]
    ensures !InOrder([SINGLE, DOUBLE], [DOUBLE, SINGLE])
  {
    SingleEstimate();
    DoubleEstimate();
    TwoRanked(SINGLE, DOUBLE, EDGES, 100, 90, 98);
    ScoredTwo(SINGLE, DOUBLE, EDGES, 100, 90, 98);
    var best := [DOUBLE, SINGLE];
    assert best[1..] == [SINGLE];
    assert FirstSingle(best) == [SINGLE];
    assert Take([SINGLE], DOUBLE) == [SINGLE, DOUBLE];
    assert TakeUpTo([SINGLE], best, 2) == TakeUpTo([SINGLE, DOUBLE], [SINGLE], 2) == [SINGLE, DOUBLE];
    assert TakeUpTo([SINGLE], best, 1) == [SINGLE];
    assert TakeAll([SINGLE], [DOUBLE]) == TakeAll([SINGLE, DOUBLE], []);
    assert Before([SINGLE, DOUBLE], SINGLE, DOUBLE) && !Before(best, SINGLE, DOUBLE);
  }
}
