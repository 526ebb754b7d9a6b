/**
 * Path enumeration over the pool graph (packages/beta-filler/src/poolGraph.ts): every
 * simple hub-only path of bounded length over a multigraph of pools, every pool choice per
 * hop, shorter paths first, hard-capped. Tokens are compared by value, as their lower-case
 * addresses are.
 */
module PoolGraph {
  import opened Common

  const MAX_POOL_HOPS := 4

  datatype Pool = Pool(tokenA: nat, tokenB: nat, fee: nat, venue: nat, liquidity: Option<nat>, sqrtPrice: Option<nat>)

  /** A path in canonical form: the pool's fee and venue per hop. */
  datatype RoutePath = RoutePath(tokens: seq<nat>, fees: seq<nat>, venues: seq<nat>)

  datatype Query = Query(edges: seq<Pool>, tokenIn: nat, tokenOut: nat, maxHops: nat, hubs: set<nat>)
  {
    /** The hop bound actually used. */
    function Hops(): nat {
      Max(1, Min(maxHops, MAX_POOL_HOPS))
    }
  }

  // ------------------------------------------------------------------- the adjacency

  function AddNew(l: seq<nat>, y: nat): seq<nat> {
    if y in l then l else l + [y]
  }

  /** The tokens sharing a pool with `x`, in order of first appearance. */
  function Neighbors(edges: seq<Pool>, x: nat): seq<nat> {
    if edges == [] then []
    else
      var p, before := edges[|edges| - 1], Neighbors(edges[..|edges| - 1], x);
      var viaA := if p.tokenA == x then AddNew(before, p.tokenB) else before;
      if p.tokenB == x then AddNew(viaA, p.tokenA) else viaA
  }

  /** The pools between `x` and `y`, in order. */
  function PoolsBetween(edges: seq<Pool>, x: nat, y: nat): seq<Pool> {
    if edges == [] then []
    else
      var p, before := edges[|edges| - 1], PoolsBetween(edges[..|edges| - 1], x, y);
      var viaA := if p.tokenA == x && p.tokenB == y then before + [p] else before;
      if p.tokenB == x && p.tokenA == y then viaA + [p] else viaA
  }

  predicate Joins(p: Pool, x: nat, y: nat) {
    (p.tokenA == x && p.tokenB == y) || (p.tokenA == y && p.tokenB == x)
  }

  // ------------------------------------------------------------------ token sequences

  /** Every completion of `path` through the tokens of `nexts`, depth first. */
  function Walk(q: Query, path: seq<nat>, nexts: seq<nat>): seq<seq<nat>>
    requires path != []
    decreases q.Hops() - |path|, |nexts|
  {
    if nexts == [] then []
    else WalkOne(q, path, nexts[0]) + Walk(q, path, nexts[1..])
  }

  function WalkOne(q: Query, path: seq<nat>, next: nat): seq<seq<nat>>
    requires path != []
    decreases q.Hops() - |path|, 0
  {
    if next in path then []
    else if next == q.tokenOut then [path + [next]]
    else if |path| < q.Hops() && next in q.hubs then Walk(q, path + [next], Neighbors(q.edges, next))
    else []
  }

  /** Stable insertion by length: before the longer ones, after the equal ones read later. */
  function InsertByLength(s: seq<nat>, ss: seq<seq<nat>>): seq<seq<nat>> {
    if ss == [] || |s| <= |ss[0]| then [s] + ss else [ss[0]] + InsertByLength(s, ss[1..])
  }

  function SortByLength(ss: seq<seq<nat>>): seq<seq<nat>> {
    if ss == [] then [] else InsertByLength(ss[0], SortByLength(ss[1..]))
  }

  function TokenSequences(q: Query): seq<seq<nat>> {
    SortByLength(Walk(q, [q.tokenIn], Neighbors(q.edges, q.tokenIn)))
  }

  // --------------------------------------------------------------- one pool per hop

  function HopPools(q: Query, tokens: seq<nat>): seq<seq<Pool>> {
    if |tokens| < 2 then []
    else [PoolsBetween(q.edges, tokens[0], tokens[1])] + HopPools(q, tokens[1..])
  }

  function PathOf(tokens: seq<nat>, picked: seq<Pool>): RoutePath {
    RoutePath(tokens,
      seq(|picked|, i requires 0 <= i < |picked| => picked[i].fee),
      seq(|picked|, i requires 0 <= i < |picked| => picked[i].venue))
  }

  /** Every path that continues the pools `picked` with one pool of each remaining hop. */
  function Picks(tokens: seq<nat>, picked: seq<Pool>, hops: seq<seq<Pool>>): seq<RoutePath>
    decreases |hops|, 0
  {
    if hops == [] then [PathOf(tokens, picked)]
    else PicksFrom(tokens, picked, hops[0], hops[1..])
  }

  function PicksFrom(tokens: seq<nat>, picked: seq<Pool>, pools: seq<Pool>, hops: seq<seq<Pool>>): seq<RoutePath>
    decreases |hops|, 1, |pools|
  {
    if pools == [] then []
    else Picks(tokens, picked + [pools[0]], hops) + PicksFrom(tokens, picked, pools[1..], hops)
  }

  function PathsOf(q: Query, tokenSeqs: seq<seq<nat>>): seq<RoutePath> {
    if tokenSeqs == [] then []
    else Picks(tokenSeqs[0], [], HopPools(q, tokenSeqs[0])) + PathsOf(q, tokenSeqs[1..])
  }

  /** All paths, uncapped. */
  function AllPaths(q: Query): seq<RoutePath> {
    if q.tokenIn == q.tokenOut then [] else PathsOf(q, TokenSequences(q))
  }

  function Capped<T>(s: seq<T>, cap: nat): seq<T> {
    s[..Min(cap, |s|)]
  }

  // --------------------------------------------------------------------- the search

  /** One token's row of the adjacency: its neighbours in order, and the pools to each. */
  datatype Row = Row(order: seq<nat>, pools: map<nat, seq<Pool>>)

  type Adjacency = map<nat, Row>

  function OrderIn(adj: Adjacency, x: nat): seq<nat> {
    if x in adj then adj[x].order else []
  }

  function PoolsIn(adj: Adjacency, x: nat, y: nat): seq<Pool> {
    if x in adj && y in adj[x].pools then adj[x].pools[y] else []
  }

  ghost predicate IsAdjacency(adj: Adjacency, edges: seq<Pool>) {
    && (forall x :: OrderIn(adj, x) == Neighbors(edges, x))
    && (forall x, y :: PoolsIn(adj, x, y) == PoolsBetween(edges, x, y))
  }

  method AddEdge(adj: Adjacency, x: nat, y: nat, p: Pool) returns (out: Adjacency)
    ensures forall z :: OrderIn(out, z) == if z == x then AddNew(OrderIn(adj, x), y) else OrderIn(adj, z)
    ensures forall z, w :: (
      PoolsIn(out, z, w) == if z == x && w == y then PoolsIn(adj, x, y) + [p] else PoolsIn(adj, z, w))
  {
    var row := if x in adj then adj[x] else Row([], map[]);
    var list := if y in row.pools then row.pools[y] else [];
    out := adj[x := Row(AddNew(row.order, y), row.pools[y := list + [p]])];
  }

  /** One more pool. */
  lemma {:induction false} AdjacencySnoc(edges: seq<Pool>, p: Pool, x: nat, y: nat)
    ensures Neighbors(edges + [p], x) ==
      var viaA := if p.tokenA == x then AddNew(Neighbors(edges, x), p.tokenB) else Neighbors(edges, x);
      if p.tokenB == x then AddNew(viaA, p.tokenA) else viaA
    ensures PoolsBetween(edges + [p], x, y) ==
      var viaA := if p.tokenA == x && p.tokenB == y then PoolsBetween(edges, x, y) + [p] else PoolsBetween(edges, x, y);
      if p.tokenB == x && p.tokenA == y then viaA + [p] else viaA
  {
    assert (edges + [p])[..|edges|] == edges;
  }

  method BuildAdjacency(edges: seq<Pool>) returns (adj: Adjacency)
    ensures IsAdjacency(adj, edges)
  {
    adj := map[];
    var i := 0;
    while i < |edges|
      invariant 0 <= i <= |edges|
      invariant IsAdjacency(adj, edges[..i])
    {
      adj := AddPool(adj, edges[..i], edges[i]);
      assert edges[..i] + [edges[i]] == edges[..i + 1];
      i := i + 1;
    }
    assert edges[..i] == edges;
  }

  /** Both directions of one pool. */
  method AddPool(adj: Adjacency, ghost edges: seq<Pool>, p: Pool) returns (out: Adjacency)
    requires IsAdjacency(adj, edges)
    ensures IsAdjacency(out, edges + [p])
  {
    var half := AddEdge(adj, p.tokenA, p.tokenB, p);
    out := AddEdge(half, p.tokenB, p.tokenA, p);
    forall x ensures OrderIn(out, x) == Neighbors(edges + [p], x) {
      AdjacencySnoc(edges, p, x, x);
    }
    forall x, y ensures PoolsIn(out, x, y) == PoolsBetween(edges + [p], x, y) {
      AdjacencySnoc(edges, p, x, y);
    }
  }

  lemma WalkStep(q: Query, path: seq<nat>, nexts: seq<nat>, i: nat, done: seq<seq<nat>>)
    requires path != [] && i < |nexts|
    ensures done + Walk(q, path, nexts[i..]) == done + WalkOne(q, path, nexts[i]) + Walk(q, path, nexts[i + 1..])
  {
    assert nexts[i..][1..] == nexts[i + 1..];
  }

  method WalkGraph(q: Query, adj: Adjacency, path: seq<nat>, seqs: seq<seq<nat>>) returns (out: seq<seq<nat>>)
    requires IsAdjacency(adj, q.edges) && path != []
    ensures out == seqs + Walk(q, path, Neighbors(q.edges, path[|path| - 1]))
    decreases q.Hops() - |path|, 1
  {
    var last := path[|path| - 1];
    var nexts := if last in adj then adj[last].order else [];
    assert nexts == OrderIn(adj, last) == Neighbors(q.edges, last);
    out := seqs;
    var i := 0;
    assert nexts[0..] == nexts;
    while i < |nexts|
      invariant 0 <= i <= |nexts|
      invariant out + Walk(q, path, nexts[i..]) == seqs + Walk(q, path, nexts)
    {
      WalkStep(q, path, nexts, i, out);
      out := WalkNext(q, adj, path, nexts[i], out);
      i := i + 1;
    }
  }

  method WalkNext(q: Query, adj: Adjacency, path: seq<nat>, next: nat, seqs: seq<seq<nat>>) returns (out: seq<seq<nat>>)
    requires IsAdjacency(adj, q.edges) && path != []
    ensures out == seqs + WalkOne(q, path, next)
    decreases q.Hops() - |path|, 0
  {
    out := seqs;
    if next in path {
      return;
    }
    if next == q.tokenOut {
      out := out + [path + [next]];
    } else if |path| < q.Hops() && next in q.hubs {
      out := WalkGraph(q, adj, path + [next], out);
    }
  }

  /** Extend `out` by the picks from hop `i` on; `false` once the cap stopped the search. */
  method PickPools(tokens: seq<nat>, hops: seq<seq<Pool>>, i: nat, picked: seq<Pool>, cap: nat, found: seq<RoutePath>)
    returns (out: seq<RoutePath>, more: bool)
    requires i <= |hops| && |found| <= cap
    ensures out == Capped(found + Picks(tokens, picked, hops[i..]), cap)
    ensures !more ==> |out| == cap
    ensures more ==> |found + Picks(tokens, picked, hops[i..])| <= cap
    decreases |hops| - i
  {
    out, more := found, true;
    if |found| >= cap {
      more := false;
      return;
    }
    if i == |hops| {
      out := out + [PathOf(tokens, picked)];
      return;
    }
    assert hops[i..][1..] == hops[i + 1..];
    var pools, k := hops[i], 0;
    assert pools[0..] == pools;
    while k < |pools| && more
      invariant 0 <= k <= |pools|
      invariant |out| <= cap
      invariant !more ==> |out| == cap
      invariant Capped(out + PicksFrom(tokens, picked, pools[k..], hops[i + 1..]), cap) ==
        Capped(found + Picks(tokens, picked, hops[i..]), cap)
      invariant more ==>
        out + PicksFrom(tokens, picked, pools[k..], hops[i + 1..]) == found + Picks(tokens, picked, hops[i..])
    {
      ghost var before, here := out, Picks(tokens, picked + [pools[k]], hops[i + 1..]);
      ghost var later := PicksFrom(tokens, picked, pools[k + 1..], hops[i + 1..]);
      assert pools[k..][1..] == pools[k + 1..];
      assert before + PicksFrom(tokens, picked, pools[k..], hops[i + 1..]) == before + here + later;
      out, more := PickPools(tokens, hops, i + 1, picked + [pools[k]], cap, out);
      CappedConcat(before + here, later, out, more, cap);
      k := k + 1;
    }
  }

  /** Every simple path tokenIn to tokenOut, shorter first; at most `cap`. */
  method EnumeratePaths(q: Query, cap: nat) returns (out: seq<RoutePath>)
    ensures out == Capped(AllPaths(q), cap)
  {
    out := [];
    if q.tokenIn == q.tokenOut {
      return;
    }
    var adj := BuildAdjacency(q.edges);
    var seqs := WalkGraph(q, adj, [q.tokenIn], []);
    assert seqs == Walk(q, [q.tokenIn], Neighbors(q.edges, q.tokenIn));
    seqs := SortByLength(seqs);
    out := CollectPaths(q, adj, seqs, cap);
  }

  method CollectPaths(q: Query, adj: Adjacency, seqs: seq<seq<nat>>, cap: nat) returns (out: seq<RoutePath>)
    requires IsAdjacency(adj, q.edges)
    ensures out == Capped(PathsOf(q, seqs), cap)
  {
    out := [];
    var i, more := 0, true;
    assert seqs[0..] == seqs;
    while i < |seqs| && more
      invariant 0 <= i <= |seqs|
      invariant |out| <= cap
      invariant !more ==> |out| == cap
      invariant Capped(out + PathsOf(q, seqs[i..]), cap) == Capped(PathsOf(q, seqs), cap)
      invariant more ==> out + PathsOf(q, seqs[i..]) == PathsOf(q, seqs)
    {
      ghost var before, here, later := out, Picks(seqs[i], [], HopPools(q, seqs[i])), PathsOf(q, seqs[i + 1..]);
      assert seqs[i..][1..] == seqs[i + 1..];
      assert before + PathsOf(q, seqs[i..]) == before + here + later;
      var hops := PoolsOfHops(q, adj, seqs[i]);
      assert hops[0..] == hops;
      out, more := PickPools(seqs[i], hops, 0, [], cap, out);
      CappedConcat(before + here, later, out, more, cap);
      i := i + 1;
    }
  }

  /** Extending a capped list, until the cap is reached. */
  lemma CappedConcat<T>(a: seq<T>, b: seq<T>, out: seq<T>, more: bool, cap: nat)
    requires out == Capped(a, cap)
    requires !more ==> |out| == cap
    requires more ==> |a| <= cap
    ensures Capped(out + b, cap) == Capped(a + b, cap)
    ensures more ==> out + b == a + b
  {
  }

  method PoolsOfHops(q: Query, adj: Adjacency, tokens: seq<nat>) returns (hops: seq<seq<Pool>>)
    requires IsAdjacency(adj, q.edges)
    ensures hops == HopPools(q, tokens)
    decreases |tokens|
  {
    if |tokens| < 2 {
      return [];
    }
    var x, y := tokens[0], tokens[1];
    var here := if x in adj && y in adj[x].pools then adj[x].pools[y] else [];
    var rest := PoolsOfHops(q, adj, tokens[1..]);
    hops := [here] + rest;
  }
}
