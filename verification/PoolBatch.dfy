/**
 * Quoter calls in batches (packages/beta-filler/src/poolQuote.ts): Multicall3 in chunks, failed
 * calls run again alone. The quoter contracts are a function from calls to answers; the
 * network decides, request by request, which of those answers come back.
 */
module PoolBatch {
  import opened Common

  const QUOTES_PER_CALL := 4

  datatype Kind = ExactIn | ExactOut

  datatype Call =
    | WholePath(quoter: nat, kind: Kind, tokens: seq<nat>, fees: seq<nat>, amount: nat)
    | OneHop(quoter: nat, kind: Kind, tokenIn: nat, tokenOut: nat, fee: nat, amount: nat)

  datatype Answer = Reverts | Quotes(amount: nat, gas: nat)

  /** What a Multicall3 request brings back: nothing, no data, or answers of which some were starved of gas. */
  datatype ChunkReply = RpcFailed | NoData | Replies(starved: set<nat>)

  /** The quoters, and the fate of the n-th request to the node. */
  datatype Net = Net(q: Call -> Answer, drops: (Call, nat) -> bool, chunk: (seq<Call>, nat) -> ChunkReply)

  datatype CallResult = Got(amount: nat, gas: nat) | Failed(transient: bool)

  // ------------------------------------------------------------- what a call comes to

  /** The answer of the call made alone over a network that works. */
  function Direct(e: Net, c: Call): CallResult {
    match e.q(c)
    case Reverts => Failed(false)
    case Quotes(a, g) => Got(a, g)
  }

  /** What became of the requests that carried one call of a batch. */
  datatype Fault = NoFault | Lost | Starved

  /** What a call comes to: its quoter's own answer, or the fault of its request. */
  function Faulted(e: Net, c: Call, f: Fault): CallResult {
    match f
    case NoFault => Direct(e, c)
    case Lost => Failed(true)
    case Starved => Failed(false)
  }

  /** What request `t`, a chunk, brings for its call `k`. */
  function Came(e: Net, chunk: seq<Call>, t: nat, k: nat): CallResult
    requires k < |chunk|
  {
    match e.chunk(chunk, t)
    case RpcFailed => Failed(true)
    case NoData => Failed(false)
    case Replies(starved) => if k in starved then Failed(false) else Direct(e, chunk[k])
  }

  /** How many of the chunk's first `k` calls did not come back. */
  function FailedBefore(e: Net, chunk: seq<Call>, t: nat, k: nat): (n: nat)
    requires k <= |chunk|
    ensures n <= k
  {
    if k == 0 then 0
    else FailedBefore(e, chunk, t, k - 1) + if Came(e, chunk, t, k - 1).Failed? then 1 else 0
  }

  /** The plain requests that follow request `t` to run its failed calls again. */
  function Reruns(e: Net, chunk: seq<Call>, t: nat): nat {
    if |chunk| <= 1 || e.chunk(chunk, t).RpcFailed? then 0 else FailedBefore(e, chunk, t, |chunk|)
  }

  /** The fault of a call sent alone, as request `t`. */
  function PlainFault(e: Net, c: Call, t: nat): Fault {
    if e.drops(c, t) then Lost else NoFault
  }

  /**
   * The fault of call `k` of the chunk sent as request `t`: the chunk got no answer, or it
   * was run again and that request got none, or it was alone in the chunk and not run again.
   */
  function ChunkFault(e: Net, chunk: seq<Call>, t: nat, k: nat): Fault
    requires k < |chunk|
  {
    if e.chunk(chunk, t).RpcFailed? then Lost
    else if |chunk| == 1 then if Came(e, chunk, t, k) == Direct(e, chunk[k]) then NoFault else Starved
    else if Came(e, chunk, t, k).Got? then NoFault
    else PlainFault(e, chunk[k], t + 1 + FailedBefore(e, chunk, t, k))
  }

  /** What the chunk's calls come to, re-runs included. */
  function ChunkAnswers(e: Net, chunk: seq<Call>, t: nat): seq<CallResult> {
    seq(|chunk|, k requires 0 <= k < |chunk| => Faulted(e, chunk[k], ChunkFault(e, chunk, t, k)))
  }

  /** The `n`-th chunk of a batch. */
  function ChunkAt(calls: seq<Call>, n: nat): seq<Call>
    requires n * QUOTES_PER_CALL <= |calls|
  {
    calls[n * QUOTES_PER_CALL..Min((n + 1) * QUOTES_PER_CALL, |calls|)]
  }

  /** The number of the `n`-th chunk's request, when the first request is `now`. */
  function ChunkStart(e: Net, calls: seq<Call>, now: nat, n: nat): nat
    requires n * QUOTES_PER_CALL <= |calls| + QUOTES_PER_CALL - 1
  {
    if n == 0 then now
    else
      var t := ChunkStart(e, calls, now, n - 1);
      t + 1 + Reruns(e, ChunkAt(calls, n - 1), t)
  }

  /** The fault of call `k` of a batch whose first request is `now`. */
  function FaultAt(e: Net, multicall: bool, calls: seq<Call>, now: nat, k: nat): Fault
    requires k < |calls|
  {
    if |calls| == 1 || !multicall then PlainFault(e, calls[k], now + k)
    else
      var n := k / QUOTES_PER_CALL;
      ChunkFault(e, ChunkAt(calls, n), ChunkStart(e, calls, now, n), k - n * QUOTES_PER_CALL)
  }

  /** What call `k` of the batch comes to. */
  function BatchAnswer(e: Net, multicall: bool, calls: seq<Call>, now: nat, k: nat): CallResult
    requires k < |calls|
  {
    Faulted(e, calls[k], FaultAt(e, multicall, calls, now, k))
  }

  function BatchAnswers(e: Net, multicall: bool, calls: seq<Call>, now: nat): seq<CallResult> {
    seq(|calls|, k requires 0 <= k < |calls| => BatchAnswer(e, multicall, calls, now, k))
  }

  /** How many chunks it takes. */
  function Chunks(calls: seq<Call>): nat {
    (|calls| + QUOTES_PER_CALL - 1) / QUOTES_PER_CALL
  }

  /** The first request number after the batch. */
  function BatchEnd(e: Net, multicall: bool, calls: seq<Call>, now: nat): nat {
    if |calls| <= 1 || !multicall then now + |calls| else ChunkStart(e, calls, now, Chunks(calls))
  }

  /** The request holding the call alone in its chunk comes back without it. */
  predicate LoneFailure(e: Net, c: Call, t: nat) {
    match e.chunk([c], t)
    case RpcFailed => false
    case NoData => true
    case Replies(starved) => 0 in starved
  }

  /**
   * A call whose quoter has an answer is left failed exactly when it is the remainder of a
   * batch of 4n + 1 calls and its own chunk, the batch's last request, comes back without it.
   */
  lemma StarvedIff(e: Net, multicall: bool, calls: seq<Call>, now: nat, k: nat)
    requires k < |calls|
    ensures FaultAt(e, multicall, calls, now, k) == Starved <==>
      && multicall && |calls| > 1 && |calls| % QUOTES_PER_CALL == 1 && k == |calls| - 1
      && e.q(calls[k]).Quotes? && LoneFailure(e, calls[k], BatchEnd(e, multicall, calls, now) - 1)
  {
    if multicall && |calls| > 1 {
      var n := k / QUOTES_PER_CALL;
      var chunk := ChunkAt(calls, n);
      if |chunk| == 1 {
        LoneIsLast(calls, n);
        assert chunk == [calls[k]];
        assert Chunks(calls) == n + 1;
        assert ChunkStart(e, calls, now, n + 1) == ChunkStart(e, calls, now, n) + 1;
      }
    }
  }

  /**
   * A call is lost exactly when a request that carried it got no answer: its chunk's, or,
   * when it did not come back in a chunk of several, the plain one it was run again in; sent
   * plainly from the start, that one.
   */
  lemma LostIff(e: Net, multicall: bool, calls: seq<Call>, now: nat, k: nat)
    requires k < |calls|
    ensures FaultAt(e, multicall, calls, now, k) == Lost <==>
      if |calls| == 1 || !multicall then e.drops(calls[k], now + k)
      else
        var n := k / 4;
        var t, chunk := ChunkStart(e, calls, now, n), calls[4 * n..Min(4 * n + 4, |calls|)];
        || e.chunk(chunk, t).RpcFailed?
        || (|chunk| > 1 && NotBack(e, chunk, t, k - 4 * n)
            && e.drops(calls[k], t + 1 + |NotBackBefore(e, chunk, t, k - 4 * n)|))
  {
    if |calls| > 1 && multicall {
      var n := k / 4;
      var t, chunk := ChunkStart(e, calls, now, n), ChunkAt(calls, n);
      assert chunk[k - 4 * n] == calls[k];
      FailedAre(e, chunk, t, k - 4 * n);
    }
  }

  /** The reply to request `t` holds no answer for call `k`: none at all, starved, or the quoter reverts. */
  predicate NotBack(e: Net, chunk: seq<Call>, t: nat, k: nat) {
    && k < |chunk|
    && (e.chunk(chunk, t).Replies? ==> k in e.chunk(chunk, t).starved || e.q(chunk[k]).Reverts?)
  }

  /** Which of the first `k` calls did not come back. */
  function NotBackBefore(e: Net, chunk: seq<Call>, t: nat, k: nat): set<nat> {
    set j: nat | j < k && NotBack(e, chunk, t, j)
  }

  lemma OneMoreBack(e: Net, chunk: seq<Call>, t: nat, k: nat)
    ensures NotBackBefore(e, chunk, t, k + 1) ==
      if NotBack(e, chunk, t, k) then NotBackBefore(e, chunk, t, k) + {k} else NotBackBefore(e, chunk, t, k)
    ensures k !in NotBackBefore(e, chunk, t, k)
  {
  }

  lemma {:induction false} FailedAre(e: Net, chunk: seq<Call>, t: nat, k: nat)
    requires k <= |chunk|
    ensures FailedBefore(e, chunk, t, k) == |NotBackBefore(e, chunk, t, k)|
  {
    if k > 0 {
      FailedAre(e, chunk, t, k - 1);
      OneMoreBack(e, chunk, t, k - 1);
      CameOr(e, chunk, t, k - 1);
    } else {
      assert NotBackBefore(e, chunk, t, 0) == {};
    }
  }

  lemma CameOr(e: Net, chunk: seq<Call>, t: nat, k: nat)
    requires k < |chunk|
    ensures Came(e, chunk, t, k).Failed? <==> NotBack(e, chunk, t, k)
  {
  }

  lemma LoneIsLast(calls: seq<Call>, n: nat)
    requires n * QUOTES_PER_CALL < |calls| && |ChunkAt(calls, n)| == 1
    ensures |calls| == n * QUOTES_PER_CALL + 1 && |calls| % QUOTES_PER_CALL == 1
  {
  }

  /** Plain requests, one call each. */
  method Single(e: Net, calls: seq<Call>, now: nat) returns (out: seq<CallResult>, later: nat)
    ensures |out| == |calls| && later == now + |calls|
    ensures forall k | 0 <= k < |calls| :: out[k] == Faulted(e, calls[k], PlainFault(e, calls[k], now + k))
  {
    out, later := [], now;
    for i := 0 to |calls|
      invariant |out| == i && later == now + i
      invariant forall k | 0 <= k < i :: out[k] == Faulted(e, calls[k], PlainFault(e, calls[k], now + k))
    {
      out := out + [if e.drops(calls[i], later) then Failed(true) else Direct(e, calls[i])];
      later := later + 1;
    }
  }

  ghost predicate CameAll(e: Net, chunk: seq<Call>, t: nat, res: seq<CallResult>) {
    |res| == |chunk| && forall k | 0 <= k < |chunk| :: res[k] == Came(e, chunk, t, k)
  }

  /** `failed` lists, in order, the calls that did not come back. */
  ghost predicate FailedList(e: Net, chunk: seq<Call>, t: nat, res: seq<CallResult>, failed: seq<nat>)
    requires |res| == |chunk|
  {
    && |failed| == FailedBefore(e, chunk, t, |chunk|)
    && (forall j | 0 <= j < |failed| ::
          failed[j] < |chunk| && res[failed[j]].Failed? && FailedBefore(e, chunk, t, failed[j]) == j)
    && forall k | 0 <= k < |chunk| && res[k].Failed? :: k in failed
  }

  /** One Multicall3 request: the answers it brings, before any re-run. */
  method Aggregate(e: Net, chunk: seq<Call>, now: nat) returns (rpc: bool, res: seq<CallResult>)
    requires chunk != []
    ensures rpc <==> !e.chunk(chunk, now).RpcFailed?
    ensures CameAll(e, chunk, now, res)
  {
    rpc := true;
    match e.chunk(chunk, now) {
      case RpcFailed =>
        rpc, res := false, seq(|chunk|, k => Failed(true));
      case NoData =>
        res := seq(|chunk|, k => Failed(false));
      case Replies(starved) =>
        res := seq(|chunk|, k requires 0 <= k < |chunk| => if k in starved then Failed(false) else Direct(e, chunk[k]));
    }
  }

  /** Which calls of the chunk did not come back, in order. */
  method FailedOnes(ghost e: Net, ghost chunk: seq<Call>, ghost t: nat, res: seq<CallResult>) returns (failed: seq<nat>)
    requires CameAll(e, chunk, t, res)
    ensures FailedList(e, chunk, t, res, failed)
  {
    failed := [];
    for k := 0 to |res|
      invariant |failed| == FailedBefore(e, chunk, t, k)
      invariant forall j | 0 <= j < |failed| :: (
        failed[j] < k && res[failed[j]].Failed? && FailedBefore(e, chunk, t, failed[j]) == j)
      invariant forall i | 0 <= i < k && res[i].Failed? :: i in failed
    {
      if res[k].Failed? {
        failed := failed + [k];
      }
    }
  }

  /** The chunk's answer for call `k`, or the second one when there is none. */
  function Retried(e: Net, chunk: seq<Call>, t: nat, k: nat): CallResult
    requires k < |chunk|
  {
    var first := Came(e, chunk, t, k);
    if first.Got? then first else Faulted(e, chunk[k], PlainFault(e, chunk[k], t + 1 + FailedBefore(e, chunk, t, k)))
  }

  lemma RerunIs(e: Net, chunk: seq<Call>, t: nat, k: nat)
    requires k < |chunk| && |chunk| > 1 && !e.chunk(chunk, t).RpcFailed?
    ensures ChunkAnswers(e, chunk, t)[k] == Retried(e, chunk, t, k)
  {
  }

  /** Put the second answers in the places of the first ones. */
  method Patch(res0: seq<CallResult>, failed: seq<nat>, again: seq<CallResult>, ghost want: seq<CallResult>)
    returns (res: seq<CallResult>)
    requires |want| == |res0| && |again| == |failed|
    requires forall j | 0 <= j < |failed| :: failed[j] < |res0| && again[j] == want[failed[j]]
    requires forall k | 0 <= k < |res0| :: res0[k] == want[k] || k in failed
    ensures res == want
  {
    res := res0;
    for j := 0 to |failed|
      invariant |res| == |want| && forall k | 0 <= k < |res| :: res[k] == want[k] || k in failed[j..]
    {
      res := res[failed[j] := again[j]];
    }
  }

  /** `again` holds the second answers of the failed calls, sent one by one after request `t`. */
  ghost predicate SecondAnswers(e: Net, chunk: seq<Call>, t: nat, failed: seq<nat>, again: seq<CallResult>) {
    && |again| == |failed|
    && forall j | 0 <= j < |failed| ::
      failed[j] < |chunk| && again[j] == Faulted(e, chunk[failed[j]], PlainFault(e, chunk[failed[j]], t + 1 + j))
  }

  method AskAgain(e: Net, chunk: seq<Call>, failed: seq<nat>, ghost t: nat, now: nat)
    returns (again: seq<CallResult>, later: nat)
    requires now == t + 1 && forall j | 0 <= j < |failed| :: failed[j] < |chunk|
    ensures SecondAnswers(e, chunk, t, failed, again) && later == now + |failed|
  {
    var calls := seq(|failed|, j requires 0 <= j < |failed| => chunk[failed[j]]);
    again, later := Single(e, calls, now);
  }

  lemma AgainIs(
    e: Net, chunk: seq<Call>, t: nat, res0: seq<CallResult>, failed: seq<nat>, again: seq<CallResult>, j: nat)
    requires |chunk| > 1 && !e.chunk(chunk, t).RpcFailed? && CameAll(e, chunk, t, res0)
    requires FailedList(e, chunk, t, res0, failed) && SecondAnswers(e, chunk, t, failed, again) && j < |failed|
    ensures again[j] == ChunkAnswers(e, chunk, t)[failed[j]]
  {
    RerunIs(e, chunk, t, failed[j]);
  }

  lemma KeptOrFailed(e: Net, chunk: seq<Call>, t: nat, res0: seq<CallResult>, failed: seq<nat>, k: nat)
    requires |chunk| > 1 && !e.chunk(chunk, t).RpcFailed? && CameAll(e, chunk, t, res0)
    requires FailedList(e, chunk, t, res0, failed) && k < |chunk|
    ensures res0[k] == ChunkAnswers(e, chunk, t)[k] || k in failed
  {
    RerunIs(e, chunk, t, k);
  }

  /** The failed calls of the chunk sent as request `t`, run again alone, in place. */
  method RunAgain(e: Net, chunk: seq<Call>, res0: seq<CallResult>, ghost t: nat, now: nat)
    returns (res: seq<CallResult>, later: nat)
    requires |chunk| > 1 && now == t + 1 && !e.chunk(chunk, t).RpcFailed? && CameAll(e, chunk, t, res0)
    ensures res == ChunkAnswers(e, chunk, t) && later == now + Reruns(e, chunk, t)
  {
    var failed := FailedOnes(e, chunk, t, res0);
    var again;
    again, later := AskAgain(e, chunk, failed, t, now);
    forall k: nat | k < |chunk| ensures res0[k] == ChunkAnswers(e, chunk, t)[k] || k in failed {
      KeptOrFailed(e, chunk, t, res0, failed, k);
    }
    forall j: nat | j < |failed| ensures again[j] == ChunkAnswers(e, chunk, t)[failed[j]] {
      AgainIs(e, chunk, t, res0, failed, again, j);
    }
    res := Patch(res0, failed, again, ChunkAnswers(e, chunk, t));
  }

  method RunChunk(e: Net, chunk: seq<Call>, now: nat) returns (out: seq<CallResult>, later: nat)
    requires chunk != []
    ensures out == ChunkAnswers(e, chunk, now) && later == now + 1 + Reruns(e, chunk, now)
  {
    var rpc, res := Aggregate(e, chunk, now);
    later := now + 1;
    if !rpc {
      out := seq(|chunk|, k => Failed(true));
    } else if |chunk| > 1 {
      out, later := RunAgain(e, chunk, res, now, later);
    } else {
      out := res;
    }
  }

  /** The calls of a batch, each answered as its quoter does unless its own request failed it. */
  method RunCalls(e: Net, multicall: bool, calls: seq<Call>, now: nat) returns (out: seq<CallResult>, later: nat)
    ensures out == BatchAnswers(e, multicall, calls, now)
    ensures later == BatchEnd(e, multicall, calls, now)
  {
    if |calls| == 0 {
      return [], now;
    }
    if |calls| == 1 || !multicall {
      out, later := Single(e, calls, now);
      return;
    }
    out, later := RunChunks(e, multicall, calls, now);
  }

  method RunChunks(e: Net, ghost multicall: bool, calls: seq<Call>, now: nat) returns (out: seq<CallResult>, later: nat)
    requires multicall && |calls| > 1
    ensures out == BatchAnswers(e, multicall, calls, now)
    ensures later == ChunkStart(e, calls, now, Chunks(calls))
  {
    out, later := [], now;
    var i := 0;
    ghost var n: nat := 0;
    while i < |calls|
      invariant |out| == i == Min(n * QUOTES_PER_CALL, |calls|) && n <= Chunks(calls)
      invariant later == ChunkStart(e, calls, now, n)
      invariant out == BatchAnswers(e, multicall, calls, now)[..i]
    {
      var end := Min(i + QUOTES_PER_CALL, |calls|);
      var res;
      res, later := RunNth(e, multicall, calls, calls[i..end], later, now, n);
      Extend(BatchAnswers(e, multicall, calls, now), i, end);
      out := out + res;
      i := end;
      n := n + 1;
    }
  }

  lemma Extend<T>(s: seq<T>, i: nat, end: nat)
    requires i <= end <= |s|
    ensures s[..i] + s[i..end] == s[..end]
  {
  }

  method RunNth(
    e: Net, ghost multicall: bool, ghost calls: seq<Call>, chunk: seq<Call>, t: nat, ghost now: nat, ghost n: nat)
    returns (res: seq<CallResult>, later: nat)
    requires multicall && |calls| > 1 && n < Chunks(calls) && chunk == ChunkAt(calls, n)
    requires t == ChunkStart(e, calls, now, n)
    ensures res == BatchAnswers(e, multicall, calls, now)[n * QUOTES_PER_CALL..Min((n + 1) * QUOTES_PER_CALL, |calls|)]
    ensures later == ChunkStart(e, calls, now, n + 1)
  {
    res, later := RunChunk(e, chunk, t);
    ChunkIs(e, multicall, calls, now, n);
  }

  lemma SliceIs<T>(part: seq<T>, whole: seq<T>, lo: nat, hi: nat)
    requires lo <= hi <= |whole| && |part| == hi - lo
    requires forall j: nat | j < |part| :: part[j] == whole[lo + j]
    ensures part == whole[lo..hi]
  {
  }

  lemma ChunkIs(e: Net, multicall: bool, calls: seq<Call>, now: nat, n: nat)
    requires multicall && |calls| > 1 && n < Chunks(calls)
    ensures ChunkAnswers(e, ChunkAt(calls, n), ChunkStart(e, calls, now, n))
      == BatchAnswers(e, multicall, calls, now)[n * QUOTES_PER_CALL..Min((n + 1) * QUOTES_PER_CALL, |calls|)]
  {
    var lo, hi := n * QUOTES_PER_CALL, Min((n + 1) * QUOTES_PER_CALL, |calls|);
    var part := ChunkAnswers(e, ChunkAt(calls, n), ChunkStart(e, calls, now, n));
    var whole := BatchAnswers(e, multicall, calls, now);
    forall j: nat | j < |part| ensures part[j] == whole[lo + j] {
      ChunkHolds(e, multicall, calls, now, n, lo + j);
    }
    SliceIs(part, whole, lo, hi);
  }

  lemma ChunkHolds(e: Net, multicall: bool, calls: seq<Call>, now: nat, n: nat, k: nat)
    requires multicall && |calls| > 1 && n * QUOTES_PER_CALL <= k < Min((n + 1) * QUOTES_PER_CALL, |calls|)
    ensures ChunkAnswers(e, ChunkAt(calls, n), ChunkStart(e, calls, now, n))[k - n * QUOTES_PER_CALL]
      == BatchAnswers(e, multicall, calls, now)[k]
  {
    assert k / QUOTES_PER_CALL == n;
    assert ChunkAt(calls, n)[k - n * QUOTES_PER_CALL] == calls[k];
  }
}
