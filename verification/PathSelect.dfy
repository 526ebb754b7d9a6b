/**
 * The paths worth a real quote (packages/beta-filler/src/poolGraph.ts): the best by
 * estimate less a penalty per extra hop, the best single hop, single hops of unknown state
 * and the forced paths, each once. Two paths have one key exactly when they are the same
 * (PathText.KeyIsInjective), so keys are left out.
 */
module PathSelect {
  import opened Common
  import opened PoolGraph
  import opened PoolEstimate
  import Route

  predicate Hopped(p: RoutePath) {
    |p.venues| == |p.fees| && 0 < |p.fees| < |p.tokens|
  }

  /** The estimate of a path, ready for ranking: its net output is the estimate less the penalty of its extra hops. */
  function Score(p: RoutePath, i: nat, out: int, penalty: nat): Route.Tagged
    requires Hopped(p)
  {
    Route.Tagged(Route.Candidate(Route.PoolPath, out, (|p.fees| - 1) * penalty), i)
  }

  predicate Usable(p: RoutePath, edges: seq<Pool>, amountIn: int, thin: bool)
    requires Hopped(p)
  {
    var e := EstimatePath(p, edges, amountIn);
    e.Est? && e.out > 0 && e.thin == thin
  }

  ghost predicate AllHopped(paths: seq<RoutePath>) {
    forall k | 0 <= k < |paths| :: Hopped(paths[k])
  }

  /** The usable paths among the first `n`, thin or not thin, in order. */
  function Scored(
    paths: seq<RoutePath>, edges: seq<Pool>, amountIn: int, penalty: nat, thin: bool, n: nat): (s: seq<Route.Tagged>)
    requires AllHopped(paths) && n <= |paths|
    ensures forall k | 0 <= k < |s| :: s[k].i < n
  {
    if n == 0 then []
    else
      var p, before := paths[n - 1], Scored(paths, edges, amountIn, penalty, thin, n - 1);
      if Usable(p, edges, amountIn, thin) then before + [Score(p, n - 1, EstimatePath(p, edges, amountIn).out, penalty)]
      else before
  }

  /** The ranking: thin paths only when no other has an estimate. */
  function Ranking(paths: seq<RoutePath>, edges: seq<Pool>, amountIn: int, penalty: nat): seq<Route.Tagged>
    requires AllHopped(paths)
  {
    var sound := Scored(paths, edges, amountIn, penalty, false, |paths|);
    Route.SortRanked(if sound != [] then sound else Scored(paths, edges, amountIn, penalty, true, |paths|))
  }

  /** `t` is the ranking's entry for one of the first `n` paths. */
  ghost predicate IsEntry(
    paths: seq<RoutePath>, edges: seq<Pool>, amountIn: int, penalty: nat, thin: bool, n: nat, t: Route.Tagged)
    requires AllHopped(paths) && n <= |paths|
  {
    && t.i < n && Usable(paths[t.i], edges, amountIn, thin)
    && t == Score(paths[t.i], t.i, EstimatePath(paths[t.i], edges, amountIn).out, penalty)
  }

  lemma {:induction false} ScoredIs(
    paths: seq<RoutePath>, edges: seq<Pool>, amountIn: int, penalty: nat, thin: bool, n: nat)
    requires AllHopped(paths) && n <= |paths|
    ensures var s := Scored(paths, edges, amountIn, penalty, thin, n);
      && Route.DistinctTags(s)
      && forall t :: t in s <==> IsEntry(paths, edges, amountIn, penalty, thin, n, t)
  {
    if n > 0 {
      ScoredIs(paths, edges, amountIn, penalty, thin, n - 1);
    }
  }

  /** No path but a thin one has a usable estimate. */
  ghost predicate AllThin(paths: seq<RoutePath>, edges: seq<Pool>, amountIn: int)
    requires AllHopped(paths)
  {
    forall k | 0 <= k < |paths| :: !Usable(paths[k], edges, amountIn, false)
  }

  lemma UsableIsScored(paths: seq<RoutePath>, edges: seq<Pool>, amountIn: int, penalty: nat, thin: bool, k: nat)
    requires AllHopped(paths) && k < |paths| && Usable(paths[k], edges, amountIn, thin)
    ensures Scored(paths, edges, amountIn, penalty, thin, |paths|) != []
  {
    ScoredIs(paths, edges, amountIn, penalty, thin, |paths|);
    var t := Score(paths[k], k, EstimatePath(paths[k], edges, amountIn).out, penalty);
    assert IsEntry(paths, edges, amountIn, penalty, thin, |paths|, t);
  }

  /** The ranking holds every usable path of its kind once, the larger net output first, the earlier path on a tie. */
  lemma RankingIs(paths: seq<RoutePath>, edges: seq<Pool>, amountIn: int, penalty: nat)
    requires AllHopped(paths)
    ensures var r := Ranking(paths, edges, amountIn, penalty);
      && Route.Ranked(r)
      && forall t :: t in r <==> IsEntry(paths, edges, amountIn, penalty, AllThin(paths, edges, amountIn), |paths|, t)
  {
    var sound := Scored(paths, edges, amountIn, penalty, false, |paths|);
    ScoredIs(paths, edges, amountIn, penalty, false, |paths|);
    ScoredIs(paths, edges, amountIn, penalty, true, |paths|);
    if sound == [] {
      forall k | 0 <= k < |paths| ensures !Usable(paths[k], edges, amountIn, false) {
        if Usable(paths[k], edges, amountIn, false) {
          UsableIsScored(paths, edges, amountIn, penalty, false, k);
        }
      }
    } else {
      assert sound[0] in sound;
      assert IsEntry(paths, edges, amountIn, penalty, false, |paths|, sound[0]);
    }
    var list := if sound != [] then sound else Scored(paths, edges, amountIn, penalty, true, |paths|);
    Route.SortRanks(list);
    SameMembers(Route.SortRanked(list), list);
  }

  lemma SameMembers(a: seq<Route.Tagged>, b: seq<Route.Tagged>)
    requires multiset(a) == multiset(b)
    ensures forall t :: t in a <==> t in b
  {
    forall t ensures t in a <==> t in b {
      assert t in multiset(a) <==> t in multiset(b);
    }
  }

  /** The ranked paths, best first. */
  function Best(paths: seq<RoutePath>, ranked: seq<Route.Tagged>): seq<RoutePath>
    requires forall k | 0 <= k < |ranked| :: ranked[k].i < |paths|
  {
    seq(|ranked|, k requires 0 <= k < |ranked| => paths[ranked[k].i])
  }

  /** The first single hop of a list, as a list of none or one. */
  function FirstSingle(best: seq<RoutePath>): seq<RoutePath> {
    if best == [] then [] else if |best[0].fees| == 1 then [best[0]] else FirstSingle(best[1..])
  }

  /** The single hops whose pool's state was never read. */
  function UnknownSingles(paths: seq<RoutePath>, edges: seq<Pool>, amountIn: int, n: nat): seq<RoutePath>
    requires AllHopped(paths) && n <= |paths|
  {
    if n == 0 then []
    else
      var before := UnknownSingles(paths, edges, amountIn, n - 1);
      if |paths[n - 1].fees| == 1 && EstimatePath(paths[n - 1], edges, amountIn).Unknown?
        then before + [paths[n - 1]]
        else before
  }

  // ---------------------------------------------------------------------- the picking

  /** Take a path unless it is there. */
  function Take(picked: seq<RoutePath>, p: RoutePath): seq<RoutePath> {
    if p in picked then picked else picked + [p]
  }

  function TakeAll(picked: seq<RoutePath>, list: seq<RoutePath>): seq<RoutePath>
    decreases |list|
  {
    if list == [] then picked else TakeAll(Take(picked, list[0]), list[1..])
  }

  /** From the top of the list until there are `k`. */
  function TakeUpTo(picked: seq<RoutePath>, list: seq<RoutePath>, k: nat): seq<RoutePath>
    decreases |list|
  {
    if list == [] || |picked| >= k then picked else TakeUpTo(Take(picked, list[0]), list[1..], k)
  }

  ghost predicate Distinct(s: seq<RoutePath>) {
    forall j, k | 0 <= j < k < |s| :: s[j] != s[k]
  }

  lemma {:induction false} TakeAllIs(picked: seq<RoutePath>, list: seq<RoutePath>)
    requires Distinct(picked)
    ensures var r := TakeAll(picked, list);
      Distinct(r) && picked <= r && forall p :: p in r <==> p in picked || p in list
    decreases |list|
  {
    if list != [] {
      TakeAllIs(Take(picked, list[0]), list[1..]);
      assert list == [list[0]] + list[1..];
    }
  }

  lemma {:induction false} TakeUpToIs(picked: seq<RoutePath>, list: seq<RoutePath>, k: nat) returns (n: nat)
    requires Distinct(picked) && |picked| <= k
    ensures n <= |list|
    ensures var r := TakeUpTo(picked, list, k);
      && Distinct(r) && picked <= r && |r| <= k && (n < |list| ==> |r| == k)
      && forall p :: p in r <==> p in picked || p in list[..n]
    decreases |list|
  {
    n := 0;
    if list != [] && |picked| < k {
      var m := TakeUpToIs(Take(picked, list[0]), list[1..], k);
      n := m + 1;
      forall p ensures p in list[..n] <==> p == list[0] || p in list[1..][..m] {
        PrefixMember(list, m, p);
      }
    }
  }

  lemma PrefixMember(list: seq<RoutePath>, m: nat, p: RoutePath)
    requires m < |list|
    ensures p in list[..m + 1] <==> p == list[0] || p in list[1..][..m]
  {
    assert list[..m + 1] == [list[0]] + list[1..][..m];
  }

  lemma {:induction false} FirstSingleIs(best: seq<RoutePath>)
    ensures var f := FirstSingle(best);
      && |f| <= 1 && (f != [] ==> f[0] in best && |f[0].fees| == 1)
      && (f == [] ==> forall p | p in best :: |p.fees| != 1)
  {
    if best != [] {
      FirstSingleIs(best[1..]);
      assert best == [best[0]] + best[1..];
    }
  }

  /** The picks: by rank after the best single hop, then the unknown single hops, then the forced paths. */
  function Selected(
    paths: seq<RoutePath>, edges: seq<Pool>, amountIn: int, k: nat, penalty: nat, forced: seq<RoutePath>)
    : seq<RoutePath>
    requires AllHopped(paths)
  {
    RankingInRange(paths, edges, amountIn, penalty);
    var best := Best(paths, Ranking(paths, edges, amountIn, penalty));
    var top, unknown := TakeUpTo(FirstSingle(best), best, Max(k, 1)), UnknownSingles(paths, edges, amountIn, |paths|);
    TakeAll(TakeAll(top, unknown), forced)
  }

  lemma RankingInRange(paths: seq<RoutePath>, edges: seq<Pool>, amountIn: int, penalty: nat)
    requires AllHopped(paths)
    ensures var r := Ranking(paths, edges, amountIn, penalty); forall k | 0 <= k < |r| :: r[k].i < |paths|
  {
    RankingIs(paths, edges, amountIn, penalty);
    var r := Ranking(paths, edges, amountIn, penalty);
    forall k | 0 <= k < |r| ensures r[k].i < |paths| {
      assert r[k] in r;
    }
  }

  /** Some path's estimate divides by zero. */
  ghost predicate Divides(paths: seq<RoutePath>, edges: seq<Pool>, amountIn: int)
    requires AllHopped(paths)
  {
    exists j :: 0 <= j < |paths| && EstimatePath(paths[j], edges, amountIn).DivisionByZero?
  }

  /** The picks as the source makes them: into a map in insertion order, skipping what it holds. */
  method SelectPaths(
    paths: seq<RoutePath>, edges: seq<Pool>, amountIn: int, k: nat, penalty: nat, forced: seq<RoutePath>)
    returns (r: Result<seq<RoutePath>>)
    requires AllHopped(paths)
    ensures if Divides(paths, edges, amountIn) then r.Thrown?
      else r == Ok(Selected(paths, edges, amountIn, k, penalty, forced))
  {
    for i := 0 to |paths|
      invariant forall j | 0 <= j < i :: !EstimatePath(paths[j], edges, amountIn).DivisionByZero?
    {
      if EstimatePath(paths[i], edges, amountIn).DivisionByZero? {
        return Thrown("Division by zero");
      }
    }
    RankingInRange(paths, edges, amountIn, penalty);
    var best := Best(paths, Ranking(paths, edges, amountIn, penalty));
    var picked := PickTop(best, Max(k, 1));
    var unknown := [];
    for i := 0 to |paths|
      invariant unknown == UnknownSingles(paths, edges, amountIn, i)
    {
      if |paths[i].fees| == 1 && EstimatePath(paths[i], edges, amountIn).Unknown? {
        unknown := unknown + [paths[i]];
      }
    }
    picked := PickAll(picked, unknown);
    picked := PickAll(picked, forced);
    r := Ok(picked);
  }

  method PickTop(best: seq<RoutePath>, k: nat) returns (picked: seq<RoutePath>)
    ensures picked == TakeUpTo(FirstSingle(best), best, k)
  {
    picked := FirstSingle(best);
    var i := 0;
    while i < |best| && |picked| < k
      invariant i <= |best| && TakeUpTo(picked, best[i..], k) == TakeUpTo(FirstSingle(best), best, k)
    {
      if best[i] !in picked {
        picked := picked + [best[i]];
      }
      i := i + 1;
    }
  }

  method PickAll(picked0: seq<RoutePath>, list: seq<RoutePath>) returns (picked: seq<RoutePath>)
    ensures picked == TakeAll(picked0, list)
  {
    picked := picked0;
    for i := 0 to |list|
      invariant TakeAll(picked, list[i..]) == TakeAll(picked0, list)
    {
      if list[i] !in picked {
        picked := picked + [list[i]];
      }
    }
  }

  /**
   * What is worth quoting: no path twice; first the best-ranked single hop, if any is
   * ranked; of the ranking a top part, all of it unless that makes `k` picks (at least one);
   * every single hop of unknown state; every forced path; and nothing else.
   */
  lemma SelectionIs(
    paths: seq<RoutePath>, edges: seq<Pool>, amountIn: int, k: nat, penalty: nat, forced: seq<RoutePath>)
    returns (best: seq<RoutePath>, top: seq<RoutePath>, n: nat)
    requires AllHopped(paths)
    ensures |best| == |Ranking(paths, edges, amountIn, penalty)| && n <= |best|
    ensures forall j | 0 <= j < |best| :: (
      && Ranking(paths, edges, amountIn, penalty)[j].i < |paths|
      && best[j] == paths[Ranking(paths, edges, amountIn, penalty)[j].i])
    ensures var unknown := UnknownSingles(paths, edges, amountIn, |paths|);
      var r := Selected(paths, edges, amountIn, k, penalty, forced);
      && Distinct(r) && top <= r
      && |top| <= Max(k, 1) && (n < |best| ==> |top| == Max(k, 1))
      && FirstSingle(best) <= top
      && (forall p :: p in top <==> p in FirstSingle(best) || p in best[..n])
      && forall p :: p in r <==> p in top || p in unknown || p in forced
  {
    RankingInRange(paths, edges, amountIn, penalty);
    best := Best(paths, Ranking(paths, edges, amountIn, penalty));
    FirstSingleIs(best);
    top := TakeUpTo(FirstSingle(best), best, Max(k, 1));
    n := TakeUpToIs(FirstSingle(best), best, Max(k, 1));
    var unknown := UnknownSingles(paths, edges, amountIn, |paths|);
    TakeAllIs(top, unknown);
    TakeAllIs(TakeAll(top, unknown), forced);
  }

  /** The best-ranked path is not always picked first: only when it is a single hop or no single hop is ranked. */
  lemma BestIsFirstIff(best: seq<RoutePath>, k: nat)
    requires best != [] && k >= 1
    ensures var top := TakeUpTo(FirstSingle(best), best, k);
      top != [] && (top[0] == best[0] <==> |best[0].fees| == 1 || FirstSingle(best) == [])
  {
    FirstSingleIs(best);
    if FirstSingle(best) != [] {
      var n := TakeUpToIs(FirstSingle(best), best, k);
    } else {
      assert Take([], best[0]) == [best[0]];
      assert TakeUpTo([], best, k) == TakeUpTo([best[0]], best[1..], k);
      TakeUpToGrows([best[0]], best[1..], k);
    }
  }

  lemma {:induction false} TakeUpToGrows(picked: seq<RoutePath>, list: seq<RoutePath>, k: nat)
    ensures picked <= TakeUpTo(picked, list, k)
    decreases |list|
  {
    if list != [] && |picked| < k {
      TakeUpToGrows(Take(picked, list[0]), list[1..], k);
    }
  }

  // --------------------------------------------------------------- what the ranking says

  /** The path's estimated output, a positive one. */
  ghost predicate Promises(p: RoutePath, edges: seq<Pool>, amountIn: int, out: int, thin: bool)
    requires Hopped(p)
  {
    EstimatePath(p, edges, amountIn) == Est(out, thin) && out > 0
  }

  /** Path `i` is ranked: it promises something, without a thin hop unless every path that does has one. */
  ghost predicate IsRanked(paths: seq<RoutePath>, edges: seq<Pool>, amountIn: int, i: nat)
    requires AllHopped(paths)
  {
    && i < |paths|
    && exists out, thin :: Promises(paths[i], edges, amountIn, out, thin)
         && (thin ==> forall k, o | 0 <= k < |paths| :: !Promises(paths[k], edges, amountIn, o, false))
  }

  /** What a path is ranked by: its estimate less the penalty of each hop after the first. */
  function NetOf(p: RoutePath, edges: seq<Pool>, amountIn: int, penalty: nat): int
    requires Hopped(p) && EstimatePath(p, edges, amountIn).Est?
  {
    EstimatePath(p, edges, amountIn).out - (|p.fees| - 1) * penalty
  }

  lemma EntryIs(paths: seq<RoutePath>, edges: seq<Pool>, amountIn: int, penalty: nat, k: nat)
    requires AllHopped(paths) && k < |Ranking(paths, edges, amountIn, penalty)|
    ensures var t := Ranking(paths, edges, amountIn, penalty)[k];
      && t.i < |paths| && EstimatePath(paths[t.i], edges, amountIn).Est?
      && Route.NetOut(t.c) == NetOf(paths[t.i], edges, amountIn, penalty)
  {
    RankingIs(paths, edges, amountIn, penalty);
    assert Ranking(paths, edges, amountIn, penalty)[k] in Ranking(paths, edges, amountIn, penalty);
  }

  /** Which paths are ranked, each before those of a smaller net estimate, and of the same one given later. */
  lemma RankingByNet(paths: seq<RoutePath>, edges: seq<Pool>, amountIn: int, penalty: nat)
    requires AllHopped(paths)
    ensures var r := Ranking(paths, edges, amountIn, penalty);
      && (forall i: nat :: (exists k :: 0 <= k < |r| && r[k].i == i) <==> IsRanked(paths, edges, amountIn, i))
      && (forall k | 0 <= k < |r| :: r[k].i < |paths| && EstimatePath(paths[r[k].i], edges, amountIn).Est?)
      && (forall j, k | 0 <= j < k < |r| ::
            var x := NetOf(paths[r[j].i], edges, amountIn, penalty);
            var y := NetOf(paths[r[k].i], edges, amountIn, penalty);
            x > y || (x == y && r[j].i < r[k].i))
  {
    var r, thin := Ranking(paths, edges, amountIn, penalty), AllThin(paths, edges, amountIn);
    RankingIs(paths, edges, amountIn, penalty);
    forall k: nat | k < |r|
      ensures r[k].i < |paths| && EstimatePath(paths[r[k].i], edges, amountIn).Est?
      ensures Route.NetOut(r[k].c) == NetOf(paths[r[k].i], edges, amountIn, penalty)
    {
      EntryIs(paths, edges, amountIn, penalty, k);
    }
    forall i: nat ensures (exists k :: 0 <= k < |r| && r[k].i == i) <==> IsRanked(paths, edges, amountIn, i) {
      RankedIff(paths, edges, amountIn, penalty, i);
    }
    forall j, k | 0 <= j < k < |r| ensures Route.Ahead(r[j], r[k]) {
    }
  }

  lemma AllThinIs(paths: seq<RoutePath>, edges: seq<Pool>, amountIn: int)
    requires AllHopped(paths)
    ensures AllThin(paths, edges, amountIn) <==>
      forall k, o | 0 <= k < |paths| :: !Promises(paths[k], edges, amountIn, o, false)
  {
    if k :| 0 <= k < |paths| && Usable(paths[k], edges, amountIn, false) {
      assert Promises(paths[k], edges, amountIn, EstimatePath(paths[k], edges, amountIn).out, false);
    }
  }

  lemma RankedIff(paths: seq<RoutePath>, edges: seq<Pool>, amountIn: int, penalty: nat, i: nat)
    requires AllHopped(paths)
    ensures var r := Ranking(paths, edges, amountIn, penalty);
      (exists k :: 0 <= k < |r| && r[k].i == i) <==> IsRanked(paths, edges, amountIn, i)
  {
    var r, thin := Ranking(paths, edges, amountIn, penalty), AllThin(paths, edges, amountIn);
    RankingIs(paths, edges, amountIn, penalty);
    AllThinIs(paths, edges, amountIn);
    if k :| 0 <= k < |r| && r[k].i == i {
      assert r[k] in r;
      assert Promises(paths[i], edges, amountIn, EstimatePath(paths[i], edges, amountIn).out, thin);
    } else if IsRanked(paths, edges, amountIn, i) {
      var out, t :| Promises(paths[i], edges, amountIn, out, t)
        && (t ==> forall k, o | 0 <= k < |paths| :: !Promises(paths[k], edges, amountIn, o, false));
      assert t == thin;
      assert Score(paths[i], i, out, penalty) in r;
    }
  }
}
