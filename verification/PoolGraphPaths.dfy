/**
 * What the enumeration promises: exactly the simple hub-only paths with every pool choice,
 * each once, shorter first; with a smaller cap, a prefix of that list.
 */
module PoolGraphPaths {
  import opened Common
  import opened PoolGraph

  ghost predicate NoDuplicates<T>(s: seq<T>) {
    forall i, j | 0 <= i < j < |s| :: s[i] != s[j]
  }

  /** Some pool joins `x` and `y`. */
  ghost predicate Adjacent(edges: seq<Pool>, x: nat, y: nat) {
    exists p :: p in edges && Joins(p, x, y)
  }

  /** A simple token sequence from tokenIn to tokenOut of at most the hop bound, hubs between. */
  ghost predicate SimpleSequence(q: Query, s: seq<nat>) {
    && |s| >= 2 && (|s| > 2 ==> |s| - 1 <= q.maxHops && |s| - 1 <= 4)
    && s[0] == q.tokenIn && s[|s| - 1] == q.tokenOut
    && NoDuplicates(s)
    && (forall i | 0 < i < |s| - 1 :: s[i] in q.hubs)
    && (forall i | 0 <= i < |s| - 1 :: Adjacent(q.edges, s[i], s[i + 1]))
  }

  predicate Serves(e: Pool, x: nat, y: nat, fee: nat, venue: nat) {
    Joins(e, x, y) && e.fee == fee && e.venue == venue
  }

  /** Some pool of that fee and venue joins `x` and `y`. */
  ghost predicate HasPool(edges: seq<Pool>, x: nat, y: nat, fee: nat, venue: nat) {
    exists e :: e in edges && Serves(e, x, y, fee, venue)
  }

  /** A route: a simple token sequence and, per hop, the fee and venue of some pool joining it. */
  ghost predicate IsRoute(q: Query, p: RoutePath) {
    && SimpleSequence(q, p.tokens)
    && |p.fees| == |p.venues| == |p.tokens| - 1
    && (forall i | 0 <= i < |p.fees| :: HasPool(q.edges, p.tokens[i], p.tokens[i + 1], p.fees[i], p.venues[i]))
  }

  /** No two pools share their token pair, fee and venue. */
  ghost predicate DistinctPools(edges: seq<Pool>) {
    forall i, j | 0 <= i < j < |edges| && edges[i].fee == edges[j].fee && edges[i].venue == edges[j].venue ::
      !Joins(edges[j], edges[i].tokenA, edges[i].tokenB)
  }

  // ------------------------------------------------------------------- the adjacency

  lemma {:induction false} NeighborsAre(edges: seq<Pool>, x: nat)
    ensures forall y :: y in Neighbors(edges, x) <==> Adjacent(edges, x, y)
    ensures NoDuplicates(Neighbors(edges, x))
  {
    if edges != [] {
      var before, p := edges[..|edges| - 1], edges[|edges| - 1];
      NeighborsAre(before, x);
      assert forall e :: e in edges <==> e in before || e == p;
      forall y ensures y in Neighbors(edges, x) <==> Adjacent(edges, x, y) {
        assert Adjacent(edges, x, y) <==> Adjacent(before, x, y) || Joins(p, x, y);
      }
    }
  }

  lemma {:induction false} PoolsBetweenAre(edges: seq<Pool>, x: nat, y: nat)
    requires x != y
    ensures forall p :: p in PoolsBetween(edges, x, y) <==> p in edges && Joins(p, x, y)
  {
    if edges != [] {
      var before, p := edges[..|edges| - 1], edges[|edges| - 1];
      PoolsBetweenAre(before, x, y);
      assert forall e :: e in edges <==> e in before || e == p;
    }
  }

  /** A pool's fee and venue identify it among the pools of one pair. */
  ghost predicate DistinctChoices(pools: seq<Pool>) {
    forall i, j | 0 <= i < j < |pools| :: (pools[i].fee, pools[i].venue) != (pools[j].fee, pools[j].venue)
  }

  lemma {:induction false} PoolsBetweenDistinct(edges: seq<Pool>, x: nat, y: nat)
    requires x != y && DistinctPools(edges)
    ensures DistinctChoices(PoolsBetween(edges, x, y))
  {
    if edges != [] {
      var before, p := edges[..|edges| - 1], edges[|edges| - 1];
      PoolsBetweenDistinct(before, x, y);
      PoolsBetweenAre(before, x, y);
      var r := PoolsBetween(before, x, y);
      forall i | 0 <= i < |r| && Joins(p, x, y) ensures (r[i].fee, r[i].venue) != (p.fee, p.venue) {
        assert r[i] in r;
        var k :| 0 <= k < |before| && before[k] == r[i];
        assert edges[k] == r[i];
      }
    }
  }

  // ------------------------------------------------------------------ token sequences

  /** A walk so far: simple, through hubs, not yet at the goal. */
  ghost predicate OnTheWay(q: Query, path: seq<nat>) {
    && 1 <= |path| <= q.Hops()
    && path[0] == q.tokenIn && q.tokenOut !in path
    && NoDuplicates(path)
    && (forall i | 0 < i < |path| :: path[i] in q.hubs)
    && (forall i | 0 <= i < |path| - 1 :: Adjacent(q.edges, path[i], path[i + 1]))
  }

  ghost predicate AllAdjacent(q: Query, path: seq<nat>, nexts: seq<nat>)
    requires path != []
  {
    forall i | 0 <= i < |nexts| :: Adjacent(q.edges, path[|path| - 1], nexts[i])
  }

  ghost predicate Continues(path: seq<nat>, s: seq<nat>) {
    |path| < |s| && s[..|path|] == path
  }

  /** Everything a walk finds is a simple sequence continuing it through one of `nexts`. */
  lemma {:induction false} WalkSound(q: Query, path: seq<nat>, nexts: seq<nat>, s: seq<nat>)
    requires OnTheWay(q, path) && AllAdjacent(q, path, nexts)
    requires s in Walk(q, path, nexts)
    ensures SimpleSequence(q, s) && Continues(path, s) && s[|path|] in nexts
    decreases q.Hops() - |path|, |nexts|
  {
    if s in WalkOne(q, path, nexts[0]) {
      WalkOneSound(q, path, nexts[0], s);
    } else {
      WalkSound(q, path, nexts[1..], s);
    }
  }

  lemma {:induction false} WalkOneSound(q: Query, path: seq<nat>, next: nat, s: seq<nat>)
    requires OnTheWay(q, path) && Adjacent(q.edges, path[|path| - 1], next)
    requires s in WalkOne(q, path, next)
    ensures SimpleSequence(q, s) && Continues(path, s) && s[|path|] == next
    decreases q.Hops() - |path|, 0
  {
    if next != q.tokenOut {
      NeighborsAre(q.edges, next);
      WalkSound(q, path + [next], Neighbors(q.edges, next), s);
      assert s[..|path|] == s[..|path| + 1][..|path|] == path;
    }
  }

  /** Every simple sequence continuing the walk through one of `nexts` is found. */
  lemma {:induction false} WalkComplete(q: Query, path: seq<nat>, nexts: seq<nat>, s: seq<nat>)
    requires OnTheWay(q, path) && SimpleSequence(q, s) && Continues(path, s) && s[|path|] in nexts
    ensures s in Walk(q, path, nexts)
    decreases q.Hops() - |path|, |nexts|
  {
    if s[|path|] == nexts[0] {
      WalkOneComplete(q, path, s);
    } else {
      WalkComplete(q, path, nexts[1..], s);
    }
  }

  lemma {:induction false} WalkOneComplete(q: Query, path: seq<nat>, s: seq<nat>)
    requires OnTheWay(q, path) && SimpleSequence(q, s) && Continues(path, s)
    ensures s in WalkOne(q, path, s[|path|])
    decreases q.Hops() - |path|, 0
  {
    var n := |path|;
    var next := s[n];
    assert forall i | 0 <= i < n :: path[i] == s[i];
    assert next !in path;
    if n == |s| - 1 {
      assert s == path + [next];
    } else {
      assert s[..n + 1] == path + [next];
      assert Adjacent(q.edges, s[n - 1], s[n]) && Adjacent(q.edges, s[n], s[n + 1]);
      NeighborsAre(q.edges, next);
      WalkComplete(q, path + [next], Neighbors(q.edges, next), s);
    }
  }

  lemma NoDuplicatesConcat<T>(a: seq<T>, b: seq<T>)
    requires NoDuplicates(a) && NoDuplicates(b) && forall x | x in a :: x !in b
    ensures NoDuplicates(a + b)
  {
    forall i, j | 0 <= i < j < |a + b| ensures (a + b)[i] != (a + b)[j] {
      if i < |a| <= j {
        assert a[i] in a && b[j - |a|] in b;
      }
    }
  }

  /** No sequence is found twice. */
  lemma {:induction false} WalkOnce(q: Query, path: seq<nat>, nexts: seq<nat>)
    requires OnTheWay(q, path) && NoDuplicates(nexts) && AllAdjacent(q, path, nexts)
    ensures NoDuplicates(Walk(q, path, nexts))
    decreases q.Hops() - |path|, |nexts|
  {
    if nexts != [] {
      var next := nexts[0];
      WalkOneOnce(q, path, next);
      WalkOnce(q, path, nexts[1..]);
      forall s | s in WalkOne(q, path, next) ensures s !in Walk(q, path, nexts[1..]) {
        WalkOneSound(q, path, next, s);
        if s in Walk(q, path, nexts[1..]) {
          WalkSound(q, path, nexts[1..], s);
        }
      }
      NoDuplicatesConcat(WalkOne(q, path, next), Walk(q, path, nexts[1..]));
    }
  }

  lemma {:induction false} WalkOneOnce(q: Query, path: seq<nat>, next: nat)
    requires OnTheWay(q, path) && Adjacent(q.edges, path[|path| - 1], next)
    ensures NoDuplicates(WalkOne(q, path, next))
    decreases q.Hops() - |path|, 0
  {
    if next !in path && next != q.tokenOut && |path| < q.Hops() && next in q.hubs {
      NeighborsAre(q.edges, next);
      WalkOnce(q, path + [next], Neighbors(q.edges, next));
    }
  }

  // ------------------------------------------------------------------ shorter first

  ghost predicate ShorterFirst(ss: seq<seq<nat>>) {
    forall i, j | 0 <= i < j < |ss| :: |ss[i]| <= |ss[j]|
  }

  lemma {:induction false} InsertByLengthIs(s: seq<nat>, ss: seq<seq<nat>>)
    requires ShorterFirst(ss) && NoDuplicates(ss) && s !in ss
    ensures var r := InsertByLength(s, ss);
      ShorterFirst(r) && NoDuplicates(r) && forall x :: x in r <==> x == s || x in ss
  {
    if ss != [] && |s| > |ss[0]| {
      InsertByLengthIs(s, ss[1..]);
      var t := InsertByLength(s, ss[1..]);
      assert forall x :: x in ss <==> x == ss[0] || x in ss[1..];
      forall j | 0 <= j < |t| ensures |ss[0]| <= |t[j]| && t[j] != ss[0] {
        assert t[j] in t;
      }
    }
  }

  lemma {:induction false} SortByLengthIs(ss: seq<seq<nat>>)
    requires NoDuplicates(ss)
    ensures var r := SortByLength(ss);
      ShorterFirst(r) && NoDuplicates(r) && forall x :: x in r <==> x in ss
  {
    if ss != [] {
      SortByLengthIs(ss[1..]);
      InsertByLengthIs(ss[0], SortByLength(ss[1..]));
      assert forall x :: x in ss <==> x == ss[0] || x in ss[1..];
    }
  }

  /** The token sequences are exactly the simple ones, each once, shorter first. */
  lemma SequencesExact(q: Query)
    requires q.tokenIn != q.tokenOut
    ensures forall s :: s in TokenSequences(q) <==> SimpleSequence(q, s)
    ensures NoDuplicates(TokenSequences(q)) && ShorterFirst(TokenSequences(q))
  {
    var start, nexts := [q.tokenIn], Neighbors(q.edges, q.tokenIn);
    NeighborsAre(q.edges, q.tokenIn);
    WalkOnce(q, start, nexts);
    SortByLengthIs(Walk(q, start, nexts));
    forall s ensures s in Walk(q, start, nexts) <==> SimpleSequence(q, s) {
      if s in Walk(q, start, nexts) {
        WalkSound(q, start, nexts, s);
      }
      if SimpleSequence(q, s) {
        assert s[..1] == start && Adjacent(q.edges, s[0], s[1]);
        WalkComplete(q, start, nexts, s);
      }
    }
  }

  // --------------------------------------------------------------- one pool per hop

  ghost predicate Chooses(choice: seq<Pool>, hops: seq<seq<Pool>>) {
    |choice| == |hops| && forall i | 0 <= i < |hops| :: choice[i] in hops[i]
  }

  lemma {:induction false} HopPoolsAre(q: Query, tokens: seq<nat>)
    requires tokens != []
    ensures var hops := HopPools(q, tokens);
      |hops| == |tokens| - 1 && forall i | 0 <= i < |hops| :: hops[i] == PoolsBetween(q.edges, tokens[i], tokens[i + 1])
  {
    if |tokens| >= 2 {
      HopPoolsAre(q, tokens[1..]);
    }
  }

  lemma {:induction false} PicksSound(
    tokens: seq<nat>, picked: seq<Pool>, hops: seq<seq<Pool>>, p: RoutePath) returns (choice: seq<Pool>)
    requires p in Picks(tokens, picked, hops)
    ensures Chooses(choice, hops) && p == PathOf(tokens, picked + choice)
    decreases |hops|, 0
  {
    if hops == [] {
      choice := [];
      assert picked + [] == picked;
    } else {
      choice := PicksFromSound(tokens, picked, hops[0], hops[1..], p);
    }
  }

  lemma {:induction false} PicksFromSound(
    tokens: seq<nat>, picked: seq<Pool>, pools: seq<Pool>, hops: seq<seq<Pool>>, p: RoutePath)
    returns (choice: seq<Pool>)
    requires p in PicksFrom(tokens, picked, pools, hops)
    ensures |choice| == |hops| + 1 && choice[0] in pools && Chooses(choice[1..], hops)
    ensures p == PathOf(tokens, picked + choice)
    decreases |hops|, 1, |pools|
  {
    if p in Picks(tokens, picked + [pools[0]], hops) {
      var rest := PicksSound(tokens, picked + [pools[0]], hops, p);
      choice := [pools[0]] + rest;
      assert picked + [pools[0]] + rest == picked + choice;
      assert choice[1..] == rest;
    } else {
      choice := PicksFromSound(tokens, picked, pools[1..], hops, p);
    }
  }

  lemma {:induction false} PicksComplete(tokens: seq<nat>, picked: seq<Pool>, hops: seq<seq<Pool>>, choice: seq<Pool>)
    requires Chooses(choice, hops)
    ensures PathOf(tokens, picked + choice) in Picks(tokens, picked, hops)
    decreases |hops|, 0
  {
    if hops == [] {
      assert picked + choice == picked;
    } else {
      PicksFromComplete(tokens, picked, hops[0], hops[1..], choice);
    }
  }

  lemma {:induction false} PicksFromComplete(
    tokens: seq<nat>, picked: seq<Pool>, pools: seq<Pool>, hops: seq<seq<Pool>>, choice: seq<Pool>)
    requires |choice| == |hops| + 1 && choice[0] in pools && Chooses(choice[1..], hops)
    ensures PathOf(tokens, picked + choice) in PicksFrom(tokens, picked, pools, hops)
    decreases |hops|, 1, |pools|
  {
    if choice[0] == pools[0] {
      PicksComplete(tokens, picked + [pools[0]], hops, choice[1..]);
      assert picked + [pools[0]] + choice[1..] == picked + choice;
    } else {
      PicksFromComplete(tokens, picked, pools[1..], hops, choice);
    }
  }

  ghost predicate AllDistinct(hops: seq<seq<Pool>>) {
    forall i | 0 <= i < |hops| :: DistinctChoices(hops[i])
  }

  lemma {:induction false} PicksOnce(tokens: seq<nat>, picked: seq<Pool>, hops: seq<seq<Pool>>)
    requires AllDistinct(hops)
    ensures NoDuplicates(Picks(tokens, picked, hops))
    decreases |hops|, 0
  {
    if hops != [] {
      assert DistinctChoices(hops[0]);
      PicksFromOnce(tokens, picked, hops[0], hops[1..]);
    }
  }

  lemma {:induction false} PicksFromOnce(tokens: seq<nat>, picked: seq<Pool>, pools: seq<Pool>, hops: seq<seq<Pool>>)
    requires AllDistinct(hops) && DistinctChoices(pools)
    ensures NoDuplicates(PicksFrom(tokens, picked, pools, hops))
    decreases |hops|, 1, |pools|
  {
    if pools != [] {
      var a, b := Picks(tokens, picked + [pools[0]], hops), PicksFrom(tokens, picked, pools[1..], hops);
      PicksOnce(tokens, picked + [pools[0]], hops);
      PicksFromOnce(tokens, picked, pools[1..], hops);
      forall p | p in a ensures p !in b {
        if p in b {
          PicksApart(tokens, picked, pools, hops, p);
        }
      }
      NoDuplicatesConcat(a, b);
    }
  }

  /** A path shows which pool its next hop took. */
  lemma PicksApart(tokens: seq<nat>, picked: seq<Pool>, pools: seq<Pool>, hops: seq<seq<Pool>>, p: RoutePath)
    requires pools != [] && DistinctChoices(pools)
    requires p in Picks(tokens, picked + [pools[0]], hops)
    ensures p !in PicksFrom(tokens, picked, pools[1..], hops)
  {
    if p in PicksFrom(tokens, picked, pools[1..], hops) {
      var x := PicksSound(tokens, picked + [pools[0]], hops, p);
      var y := PicksFromSound(tokens, picked, pools[1..], hops, p);
      HopShown(tokens, picked + [pools[0]] + x, |picked|);
      HopShown(tokens, picked + y, |picked|);
      assert false;
    }
  }

  lemma HopShown(tokens: seq<nat>, choice: seq<Pool>, i: nat)
    requires i < |choice|
    ensures var p := PathOf(tokens, choice);
      |p.fees| == |p.venues| == |choice| && p.fees[i] == choice[i].fee && p.venues[i] == choice[i].venue
  {
  }

  // -------------------------------------------------------------------- all together

  lemma {:induction false} PathsOfAre(q: Query, seqs: seq<seq<nat>>, p: RoutePath)
    ensures p in PathsOf(q, seqs) <==> exists s :: s in seqs && p in Picks(s, [], HopPools(q, s))
  {
    if seqs != [] {
      PathsOfAre(q, seqs[1..], p);
      var first := p in Picks(seqs[0], [], HopPools(q, seqs[0]));
      assert p in PathsOf(q, seqs) <==> first || p in PathsOf(q, seqs[1..]);
      if first {
        assert seqs[0] in seqs;
      }
      if s :| s in seqs[1..] && p in Picks(s, [], HopPools(q, s)) {
        assert s in seqs;
      }
      if s :| s in seqs && p in Picks(s, [], HopPools(q, s)) {
        assert s == seqs[0] || s in seqs[1..];
      }
    }
  }

  lemma PathTokens(q: Query, s: seq<nat>, p: RoutePath)
    requires s != [] && p in Picks(s, [], HopPools(q, s))
    ensures p.tokens == s && |p.fees| == |s| - 1
  {
    var choice := PicksSound(s, [], HopPools(q, s), p);
    HopPoolsAre(q, s);
  }

  /** `pools` are the pools that join `x` and `y`. */
  ghost predicate PoolsOf(edges: seq<Pool>, x: nat, y: nat, pools: seq<Pool>) {
    forall e :: e in pools <==> e in edges && Joins(e, x, y)
  }

  /** `hops` lists, per hop of `tokens`, the pools that join it. */
  ghost predicate HopsOf(q: Query, tokens: seq<nat>, hops: seq<seq<Pool>>) {
    && |hops| + 1 == |tokens|
    && forall i | 0 <= i < |hops| :: PoolsOf(q.edges, tokens[i], tokens[i + 1], hops[i])
  }

  lemma HopsOfSequence(q: Query, s: seq<nat>)
    requires SimpleSequence(q, s)
    ensures HopsOf(q, s, HopPools(q, s))
  {
    var hops := HopPools(q, s);
    HopPoolsAre(q, s);
    forall i | 0 <= i < |hops| ensures PoolsOf(q.edges, s[i], s[i + 1], hops[i]) {
      PoolsBetweenAre(q.edges, s[i], s[i + 1]);
    }
  }

  lemma PicksGiveRoutes(q: Query, s: seq<nat>, hops: seq<seq<Pool>>, p: RoutePath)
    requires SimpleSequence(q, s) && HopsOf(q, s, hops) && p in Picks(s, [], hops)
    ensures IsRoute(q, p) && p.tokens == s
  {
    var choice := PicksSound(s, [], hops, p);
    assert [] + choice == choice;
    forall i | 0 <= i < |p.fees| ensures HasPool(q.edges, s[i], s[i + 1], p.fees[i], p.venues[i]) {
      assert choice[i] in hops[i] && PoolsOf(q.edges, s[i], s[i + 1], hops[i]);
      assert Serves(choice[i], s[i], s[i + 1], p.fees[i], p.venues[i]);
    }
  }

  lemma RoutesArePicked(q: Query, hops: seq<seq<Pool>>, p: RoutePath)
    requires IsRoute(q, p) && HopsOf(q, p.tokens, hops)
    ensures p in Picks(p.tokens, [], hops)
  {
    var choice := ChooseAll(q, p, hops, |hops|);
    PicksComplete(p.tokens, [], hops, choice);
    assert [] + choice == choice;
    assert PathOf(p.tokens, choice) == p;
  }

  /** The paths over one simple sequence are the routes over it. */
  lemma PicksAreRoutes(q: Query, s: seq<nat>, p: RoutePath)
    requires SimpleSequence(q, s)
    ensures p in Picks(s, [], HopPools(q, s)) <==> IsRoute(q, p) && p.tokens == s
  {
    HopsOfSequence(q, s);
    if p in Picks(s, [], HopPools(q, s)) {
      PicksGiveRoutes(q, s, HopPools(q, s), p);
    } else if IsRoute(q, p) && p.tokens == s {
      RoutesArePicked(q, HopPools(q, s), p);
    }
  }

  /** One pool per hop of a route, for the first `n` hops. */
  lemma {:induction false} ChooseAll(q: Query, p: RoutePath, hops: seq<seq<Pool>>, n: nat) returns (choice: seq<Pool>)
    requires IsRoute(q, p) && HopsOf(q, p.tokens, hops) && n <= |hops|
    ensures |choice| == n
    ensures forall i | 0 <= i < n ::
      choice[i] in hops[i] && choice[i].fee == p.fees[i] && choice[i].venue == p.venues[i]
  {
    if n == 0 {
      choice := [];
    } else {
      var before := ChooseAll(q, p, hops, n - 1);
      assert HasPool(q.edges, p.tokens[n - 1], p.tokens[n - 1 + 1], p.fees[n - 1], p.venues[n - 1]);
      var e :| e in q.edges && Serves(e, p.tokens[n - 1], p.tokens[n], p.fees[n - 1], p.venues[n - 1]);
      assert PoolsOf(q.edges, p.tokens[n - 1], p.tokens[n - 1 + 1], hops[n - 1]);
      choice := before + [e];
    }
  }

  /** Sound and complete: the uncapped enumeration is exactly the routes. */
  lemma EnumerationExact(q: Query)
    ensures forall p :: p in AllPaths(q) <==> IsRoute(q, p)
  {
    if q.tokenIn != q.tokenOut {
      SequencesExact(q);
      forall p ensures p in AllPaths(q) <==> IsRoute(q, p) {
        PathsOfAre(q, TokenSequences(q), p);
        forall s | SimpleSequence(q, s) ensures p in Picks(s, [], HopPools(q, s)) <==> IsRoute(q, p) && p.tokens == s {
          PicksAreRoutes(q, s, p);
        }
        if IsRoute(q, p) {
          assert p.tokens in TokenSequences(q);
        }
      }
    }
  }

  ghost predicate FewerHopsFirst(ps: seq<RoutePath>) {
    forall i, j | 0 <= i < j < |ps| :: |ps[i].fees| <= |ps[j].fees|
  }

  lemma {:induction false} PathsOfOnce(q: Query, seqs: seq<seq<nat>>)
    requires DistinctPools(q.edges) && NoDuplicates(seqs) && ShorterFirst(seqs)
    requires forall s | s in seqs :: SimpleSequence(q, s)
    ensures NoDuplicates(PathsOf(q, seqs)) && FewerHopsFirst(PathsOf(q, seqs))
  {
    if seqs != [] {
      var s := seqs[0];
      var a, b := Picks(s, [], HopPools(q, s)), PathsOf(q, seqs[1..]);
      assert s in seqs && forall x | x in seqs[1..] :: x in seqs;
      PathsOfOnce(q, seqs[1..]);
      SequenceOnce(q, s);
      forall p, r | p in a && r in b ensures p != r && |p.fees| <= |r.fees| {
        PathTokens(q, s, p);
        LaterPath(q, seqs, r);
      }
      NoDuplicatesConcat(a, b);
      FewerHopsConcat(q, s, a, b);
    }
  }

  lemma LaterPath(q: Query, seqs: seq<seq<nat>>, r: RoutePath)
    requires seqs != [] && NoDuplicates(seqs) && ShorterFirst(seqs) && seqs[0] != []
    requires r in PathsOf(q, seqs[1..])
    ensures r.tokens != seqs[0] && |r.fees| >= |seqs[0]| - 1
  {
    PathsOfAre(q, seqs[1..], r);
    var t :| t in seqs[1..] && r in Picks(t, [], HopPools(q, t));
    var k :| 0 <= k < |seqs[1..]| && seqs[1..][k] == t;
    assert seqs[k + 1] == t;
    PathTokens(q, t, r);
  }

  lemma FewerHopsConcat(q: Query, s: seq<nat>, a: seq<RoutePath>, b: seq<RoutePath>)
    requires s != [] && a == Picks(s, [], HopPools(q, s)) && FewerHopsFirst(b)
    requires forall p, r | p in a && r in b :: |p.fees| <= |r.fees|
    ensures FewerHopsFirst(a + b)
  {
    forall i, j | 0 <= i < j < |a + b| ensures |(a + b)[i].fees| <= |(a + b)[j].fees| {
      if j < |a| {
        PathTokens(q, s, a[i]);
        PathTokens(q, s, a[j]);
      } else if i < |a| {
        assert a[i] in a && b[j - |a|] in b;
      }
    }
  }

  lemma SequenceOnce(q: Query, s: seq<nat>)
    requires DistinctPools(q.edges) && SimpleSequence(q, s)
    ensures NoDuplicates(Picks(s, [], HopPools(q, s)))
  {
    HopPoolsAre(q, s);
    forall i | 0 <= i < |HopPools(q, s)| ensures DistinctChoices(HopPools(q, s)[i]) {
      PoolsBetweenDistinct(q.edges, s[i], s[i + 1]);
    }
    PicksOnce(s, [], HopPools(q, s));
  }

  /** Each route once, shorter first. */
  lemma EnumerationOnce(q: Query)
    requires DistinctPools(q.edges)
    ensures NoDuplicates(AllPaths(q)) && FewerHopsFirst(AllPaths(q))
  {
    if q.tokenIn != q.tokenOut {
      SequencesExact(q);
      PathsOfOnce(q, TokenSequences(q));
    }
  }

  /**
   * What a capped search returns: routes only, each once, shorter first; all of them when
   * the cap is not reached, and never a longer route while a shorter one is missing.
   */
  lemma CappedEnumeration(q: Query, cap: nat, out: seq<RoutePath>)
    requires DistinctPools(q.edges) && out == Capped(AllPaths(q), cap)
    ensures forall p | p in out :: IsRoute(q, p)
    ensures NoDuplicates(out) && FewerHopsFirst(out)
    ensures |out| < cap ==> forall p | IsRoute(q, p) :: p in out
    ensures forall p, r | IsRoute(q, p) && p !in out && r in out :: |r.fees| <= |p.fees|
  {
    EnumerationExact(q);
    EnumerationOnce(q);
    var all := AllPaths(q);
    forall p, r | IsRoute(q, p) && p !in out && r in out ensures |r.fees| <= |p.fees| {
      assert p in all;
      var i :| 0 <= i < |all| && all[i] == p;
      var j :| 0 <= j < |out| && out[j] == r;
      assert i >= |out| && all[j] == r;
    }
  }
}
