/**
 * Quoting pool paths in rounds of batched calls (packages/beta-filler/src/poolQuote.ts): every
 * path's next call in one batch, against quoting each path alone.
 */
module PoolQuote {
  import opened Common
  import opened PoolGraph
  import opened PoolBatch

  datatype Why = MissingVenue(venue: nat) | CallFailed | ZeroQuote

  datatype PathQuote = Good(amount: nat, gas: nat) | Bad(transient: bool, why: Why)

  // -------------------------------------------------------------------- quoting paths

  /** A path as the enumeration and the parser make them: at least one hop. */
  predicate WellFormed(p: RoutePath) {
    |p.fees| > 0 && |p.tokens| == |p.fees| + 1 && |p.venues| == |p.fees|
  }

  predicate SingleVenue(p: RoutePath) {
    forall k | 0 <= k < |p.venues| :: p.venues[k] == p.venues[0]
  }

  function FirstMissing(venues: seq<nat>, quoters: map<nat, nat>): (v: Option<nat>)
    ensures v.None? <==> forall k | 0 <= k < |venues| :: venues[k] in quoters
  {
    if venues == [] then None
    else if venues[0] !in quoters then Some(venues[0])
    else
      assert forall k | 0 < k < |venues| :: venues[k] == venues[1..][k - 1];
      FirstMissing(venues[1..], quoters)
  }

  /** Calls it takes to quote the path: one on a single venue, else one per hop. */
  function Steps(p: RoutePath): nat {
    if SingleVenue(p) then 1 else |p.fees|
  }

  /** The path's call at step `i` with `cur` to quote: hops forward for exact input, backward for exact output. */
  function CallAt(p: RoutePath, quoters: map<nat, nat>, kind: Kind, i: nat, cur: nat): Call
    requires WellFormed(p) && FirstMissing(p.venues, quoters).None? && i < Steps(p)
  {
    if SingleVenue(p) then WholePath(quoters[p.venues[0]], kind, p.tokens, p.fees, cur)
    else
      var h := if kind.ExactIn? then i else |p.fees| - 1 - i;
      OneHop(quoters[p.venues[h]], kind, p.tokens[h], p.tokens[h + 1], p.fees[h], cur)
  }

  /** The path quoted alone, call after call, each result the next call's amount and the gas summed. */
  function Fold(e: Net, p: RoutePath, quoters: map<nat, nat>, kind: Kind, i: nat, cur: nat, gas: nat): PathQuote
    requires WellFormed(p) && FirstMissing(p.venues, quoters).None? && i <= Steps(p)
    decreases Steps(p) - i
  {
    if i == Steps(p) then Good(cur, gas)
    else
      match e.q(CallAt(p, quoters, kind, i, cur))
      case Reverts => Bad(false, CallFailed)
      case Quotes(a, g) => if a == 0 then Bad(false, ZeroQuote) else Fold(e, p, quoters, kind, i + 1, a, gas + g)
  }

  function QuoteAlone(e: Net, p: RoutePath, quoters: map<nat, nat>, kind: Kind, amount: nat): PathQuote
    requires WellFormed(p)
  {
    var missing := FirstMissing(p.venues, quoters);
    if missing.Some? then Bad(false, MissingVenue(missing.value)) else Fold(e, p, quoters, kind, 0, amount, 0)
  }

  /** The amount the path's call at step `i` quotes, when every call before it has an answer. */
  function Reaches(e: Net, p: RoutePath, quoters: map<nat, nat>, kind: Kind, amount: nat, i: nat): Option<nat>
    requires WellFormed(p) && FirstMissing(p.venues, quoters).None? && i <= Steps(p)
  {
    if i == 0 then Some(amount)
    else
      match Reaches(e, p, quoters, kind, amount, i - 1)
      case None => None
      case Some(cur) =>
        match e.q(CallAt(p, quoters, kind, i - 1, cur))
        case Reverts => None
        case Quotes(a, _) => if a == 0 then None else Some(a)
  }

  /** `c` is the call the path makes at step `i`. */
  ghost predicate Makes(e: Net, p: RoutePath, quoters: map<nat, nat>, kind: Kind, amount: nat, i: nat, c: Call) {
    && WellFormed(p) && FirstMissing(p.venues, quoters).None? && i < Steps(p)
    && var cur := Reaches(e, p, quoters, kind, amount, i);
      cur.Some? && c == CallAt(p, quoters, kind, i, cur.value)
  }

  // ------------------------------------------------------------------- the whole run

  /** What a run is asked for. */
  datatype Job = Job(e: Net, quoters: map<nat, nat>, multicall: bool, paths: seq<RoutePath>, amount: nat, kind: Kind)

  ghost predicate PathsOk(job: Job) {
    forall i | 0 <= i < |job.paths| :: WellFormed(job.paths[i])
  }

  predicate Routable(job: Job, i: nat) {
    i < |job.paths| && FirstMissing(job.paths[i].venues, job.quoters).None?
  }

  /** One round as it was sent: whose call each is, and the number of the first request. */
  datatype Batch = Batch(owners: seq<nat>, calls: seq<Call>, now: nat)

  ghost predicate Increasing(s: seq<nat>) {
    forall j, k | 0 <= j < k < |s| :: s[j] < s[k]
  }

  /** Where `x` is listed, or the length. */
  function Place(s: seq<nat>, x: nat): (k: nat)
    ensures k <= |s| && (k < |s| ==> s[k] == x)
    ensures k < |s| <==> x in s
  {
    if s == [] || s[0] == x then 0 else 1 + Place(s[1..], x)
  }

  /** The fault of path `i`'s own call in a round. */
  function FaultOf(job: Job, b: Batch, i: nat): Fault {
    var k := Place(b.owners, i);
    if k < |b.owners| && k < |b.calls| then FaultAt(job.e, job.multicall, b.calls, b.now, k) else NoFault
  }

  ghost predicate Unharmed(job: Job, trace: seq<Batch>, i: nat) {
    forall j | 0 <= j < |trace| :: FaultOf(job, trace[j], i).NoFault?
  }

  /** A request that carried path `i`'s own call got no answer. */
  ghost predicate WasLost(job: Job, trace: seq<Batch>, i: nat) {
    exists j :: 0 <= j < |trace| && FaultOf(job, trace[j], i).Lost?
  }

  /** Path `i`'s own call was the lone remainder of a round, failed there and was not tried again. */
  ghost predicate WasStarved(job: Job, trace: seq<Batch>, i: nat) {
    exists j :: 0 <= j < |trace| && FaultOf(job, trace[j], i).Starved?
  }

  /** After the rounds of `past`, path `i` has a call to make: every call so far was answered, and not with zero. */
  ghost predicate Asks(job: Job, past: seq<Batch>, i: nat)
    requires PathsOk(job)
  {
    && Routable(job, i) && |past| < Steps(job.paths[i])
    && Reaches(job.e, job.paths[i], job.quoters, job.kind, job.amount, |past|).Some?
    && Unharmed(job, past, i)
  }

  ghost predicate Owns(job: Job, j: nat, i: nat, c: Call) {
    i < |job.paths| && Makes(job.e, job.paths[i], job.quoters, job.kind, job.amount, j, c)
  }

  /** The round after `past`: the next call of exactly the paths that ask, in order. */
  ghost predicate RoundIs(job: Job, past: seq<Batch>, b: Batch)
    requires PathsOk(job)
  {
    && |b.owners| == |b.calls| > 0 && Increasing(b.owners)
    && (forall i :: i in b.owners <==> Asks(job, past, i))
    && (forall k | 0 <= k < |b.calls| :: Owns(job, |past|, b.owners[k], b.calls[k]))
  }

  /** The first request number after the rounds of `trace`. */
  function RunEnd(job: Job, trace: seq<Batch>): nat {
    if trace == [] then 0
    else
      var b := trace[|trace| - 1];
      BatchEnd(job.e, job.multicall, b.calls, b.now)
  }

  /** The rounds of a run, each sent where the one before ended. */
  ghost predicate IsRun(job: Job, trace: seq<Batch>)
    requires PathsOk(job)
  {
    trace == [] ||
    var past, b := trace[..|trace| - 1], trace[|trace| - 1];
    IsRun(job, past) && RoundIs(job, past, b) && b.now == RunEnd(job, past)
  }

  /** A run to the end: no path asks for more. */
  ghost predicate FullRun(job: Job, trace: seq<Batch>)
    requires PathsOk(job)
  {
    IsRun(job, trace) && forall i :: !Asks(job, trace, i)
  }

  /** A path's result: its own quote alone, unless a request that carried its call failed it. */
  ghost function Outcome(job: Job, trace: seq<Batch>, i: nat): PathQuote
    requires PathsOk(job) && i < |job.paths|
  {
    if WasLost(job, trace, i) then Bad(true, CallFailed)
    else if WasStarved(job, trace, i) then Bad(false, CallFailed)
    else QuoteAlone(job.e, job.paths[i], job.quoters, job.kind, job.amount)
  }

  // ------------------------------------------------------------------- how it is run

  /** A path still being quoted. */
  datatype Live = Live(i: nat, cur: nat, gas: nat, step: nat)

  ghost predicate LiveOk(job: Job, past: seq<Batch>, s: Live)
    requires PathsOk(job)
  {
    && Asks(job, past, s.i) && s.step == |past|
    && Reaches(job.e, job.paths[s.i], job.quoters, job.kind, job.amount, s.step) == Some(s.cur)
    && Fold(job.e, job.paths[s.i], job.quoters, job.kind, s.step, s.cur, s.gas)
         == QuoteAlone(job.e, job.paths[s.i], job.quoters, job.kind, job.amount)
  }

  function Owners(active: seq<Live>): (r: seq<nat>)
    ensures |r| == |active| && forall k | 0 <= k < |active| :: r[k] == active[k].i
  {
    seq(|active|, k requires 0 <= k < |active| => active[k].i)
  }

  /** The paths still being quoted after some rounds. */
  ghost predicate ActiveOk(job: Job, past: seq<Batch>, active: seq<Live>)
    requires PathsOk(job)
  {
    Increasing(Owners(active)) && forall k | 0 <= k < |active| :: LiveOk(job, past, active[k])
  }

  /** A result found is the outcome, and the path asks no more. */
  ghost predicate FoundOk(job: Job, trace: seq<Batch>, i: nat, found: Option<PathQuote>)
    requires PathsOk(job)
  {
    && i < |job.paths|
    && (found.Some? ==> found.value == Outcome(job, trace, i) && !Asks(job, trace, i))
  }

  function MostHops(paths: seq<RoutePath>): nat {
    if paths == [] then 0 else Max(|paths[0].fees|, MostHops(paths[1..]))
  }

  lemma {:induction false} HopsBound(paths: seq<RoutePath>, i: nat)
    requires i < |paths| && WellFormed(paths[i])
    ensures Steps(paths[i]) <= MostHops(paths)
  {
    if i > 0 {
      HopsBound(paths[1..], i - 1);
    }
  }

  lemma {:induction false} PlaceIs(s: seq<nat>, k: nat)
    requires Increasing(s) && k < |s|
    ensures Place(s, s[k]) == k
  {
    if k > 0 {
      PlaceIs(s[1..], k - 1);
    }
  }

  lemma UnharmedMore(job: Job, past: seq<Batch>, b: Batch, i: nat)
    ensures Unharmed(job, past + [b], i) <==> Unharmed(job, past, i) && FaultOf(job, b, i).NoFault?
    ensures WasLost(job, past + [b], i) <==> WasLost(job, past, i) || FaultOf(job, b, i).Lost?
    ensures WasStarved(job, past + [b], i) <==> WasStarved(job, past, i) || FaultOf(job, b, i).Starved?
  {
    var trace := past + [b];
    assert trace[|past|] == b;
    assert forall j | 0 <= j < |past| :: trace[j] == past[j];
    if WasLost(job, past, i) {
      var j :| 0 <= j < |past| && FaultOf(job, past[j], i).Lost?;
      assert FaultOf(job, trace[j], i).Lost?;
    }
    if WasStarved(job, past, i) {
      var j :| 0 <= j < |past| && FaultOf(job, past[j], i).Starved?;
      assert FaultOf(job, trace[j], i).Starved?;
    }
  }

  /** A path that asks no more keeps its outcome. */
  lemma SettledStays(job: Job, past: seq<Batch>, b: Batch, i: nat)
    requires PathsOk(job) && RoundIs(job, past, b) && i < |job.paths| && !Asks(job, past, i)
    ensures !Asks(job, past + [b], i) && Outcome(job, past + [b], i) == Outcome(job, past, i)
  {
    UnharmedMore(job, past, b, i);
    assert i !in b.owners;
  }

  /** What became of a path in a round. */
  datatype Turn = Done(quote: PathQuote) | Next(live: Live)

  function TakeTurn(p: RoutePath, s: Live, r: CallResult): Turn {
    match r
    case Failed(transient) => Done(Bad(transient, CallFailed))
    case Got(amount, g) =>
      if amount == 0 then Done(Bad(false, ZeroQuote))
      else if s.step + 1 == Steps(p) then Done(Good(amount, s.gas + g))
      else Next(Live(s.i, amount, s.gas + g, s.step + 1))
  }

  /** The quoter's own answer moves the path one step along its fold. */
  lemma AnswerCounts(e: Net, p: RoutePath, quoters: map<nat, nat>, kind: Kind, amount: nat, s: Live, r: CallResult)
    requires WellFormed(p) && FirstMissing(p.venues, quoters).None? && s.step < Steps(p)
    requires Reaches(e, p, quoters, kind, amount, s.step) == Some(s.cur)
    requires r == Direct(e, CallAt(p, quoters, kind, s.step, s.cur))
    ensures var turn := TakeTurn(p, s, r);
      && (turn.Done? ==>
        && turn.quote == Fold(e, p, quoters, kind, s.step, s.cur, s.gas)
        && (s.step + 1 < Steps(p) ==> Reaches(e, p, quoters, kind, amount, s.step + 1).None?))
      && (turn.Next? ==>
        && turn.live.i == s.i && turn.live.step == s.step + 1 && turn.live.step < Steps(p)
        && Reaches(e, p, quoters, kind, amount, turn.live.step) == Some(turn.live.cur)
        && Fold(e, p, quoters, kind, turn.live.step, turn.live.cur, turn.live.gas)
             == Fold(e, p, quoters, kind, s.step, s.cur, s.gas))
  {
  }

  /** A call whose request failed it ends its path. */
  lemma HarmedTurn(job: Job, past: seq<Batch>, b: Batch, s: Live)
    requires PathsOk(job) && RoundIs(job, past, b) && LiveOk(job, past, s)
    ensures FaultOf(job, b, s.i).Lost? ==> FoundOk(job, past + [b], s.i, Some(Bad(true, CallFailed)))
    ensures FaultOf(job, b, s.i).Starved? ==> FoundOk(job, past + [b], s.i, Some(Bad(false, CallFailed)))
  {
    UnharmedMore(job, past, b, s.i);
    NoHarmSoFar(job, past, s.i);
  }

  /** An answer moves its path to its quote or to its next call. */
  lemma AnsweredTurn(job: Job, past: seq<Batch>, b: Batch, s: Live)
    requires PathsOk(job) && RoundIs(job, past, b) && LiveOk(job, past, s) && FaultOf(job, b, s.i).NoFault?
    ensures var p := job.paths[s.i];
      var turn := TakeTurn(p, s, Direct(job.e, CallAt(p, job.quoters, job.kind, s.step, s.cur)));
      && (turn.Done? ==> FoundOk(job, past + [b], s.i, Some(turn.quote)))
      && (turn.Next? ==> turn.live.i == s.i && LiveOk(job, past + [b], turn.live))
  {
    var p := job.paths[s.i];
    UnharmedMore(job, past, b, s.i);
    NoHarmSoFar(job, past, s.i);
    var answer := Direct(job.e, CallAt(p, job.quoters, job.kind, s.step, s.cur));
    AnswerCounts(job.e, p, job.quoters, job.kind, job.amount, s, answer);
  }

  /** A round moves each of its paths to its outcome or to its next call. */
  lemma TurnIs(job: Job, past: seq<Batch>, b: Batch, s: Live, k: nat)
    requires PathsOk(job) && RoundIs(job, past, b) && LiveOk(job, past, s)
    requires k < |b.owners| && b.owners[k] == s.i
    ensures var turn := TakeTurn(job.paths[s.i], s, BatchAnswer(job.e, job.multicall, b.calls, b.now, k));
      && (turn.Done? ==> FoundOk(job, past + [b], s.i, Some(turn.quote)))
      && (turn.Next? ==> turn.live.i == s.i && LiveOk(job, past + [b], turn.live))
  {
    PlaceIs(b.owners, k);
    assert Owns(job, |past|, s.i, b.calls[k]);
    if FaultOf(job, b, s.i).NoFault? {
      AnsweredTurn(job, past, b, s);
    } else {
      HarmedTurn(job, past, b, s);
    }
  }

  lemma NoHarmSoFar(job: Job, past: seq<Batch>, i: nat)
    requires Unharmed(job, past, i)
    ensures !WasLost(job, past, i) && !WasStarved(job, past, i)
  {
  }

  /** Every path has its outcome or is still being quoted. */
  ghost predicate AllFound(job: Job, trace: seq<Batch>, found: seq<Option<PathQuote>>, left: seq<nat>)
    requires PathsOk(job)
  {
    && |found| == |job.paths|
    && forall i: nat | i < |found| :: FoundOk(job, trace, i, found[i]) && (found[i].None? ==> i in left)
  }

  lemma FirstAsks(job: Job, i: nat)
    requires PathsOk(job) && i < |job.paths|
    ensures Asks(job, [], i) <==> Routable(job, i)
    ensures Routable(job, i) ==> LiveOk(job, [], Live(i, job.amount, 0, 0))
    ensures Outcome(job, [], i) == QuoteAlone(job.e, job.paths[i], job.quoters, job.kind, job.amount)
  {
  }

  lemma AppendOwner(active: seq<Live>, s: Live)
    requires Increasing(Owners(active)) && forall k | 0 <= k < |active| :: active[k].i < s.i
    ensures Increasing(Owners(active + [s])) && Owners(active + [s]) == Owners(active) + [s.i]
  {
  }

  /** The paths with a quoter for every hop, and the refusals of the others. */
  method Start(job: Job) returns (found: seq<Option<PathQuote>>, active: seq<Live>)
    requires PathsOk(job)
    ensures AllFound(job, [], found, Owners(active)) && ActiveOk(job, [], active)
  {
    found, active := [], [];
    for i := 0 to |job.paths|
      invariant |found| == i && ActiveOk(job, [], active)
      invariant forall k | 0 <= k < |active| :: active[k].i < i
      invariant forall k: nat | k < i :: FoundOk(job, [], k, found[k]) && (found[k].None? ==> k in Owners(active))
    {
      var missing := FirstMissing(job.paths[i].venues, job.quoters);
      FirstAsks(job, i);
      if missing.Some? {
        found := found + [Some(Bad(false, MissingVenue(missing.value)))];
      } else {
        AppendOwner(active, Live(i, job.amount, 0, 0));
        found, active := found + [None], active + [Live(i, job.amount, 0, 0)];
      }
    }
  }

  method NextCalls(job: Job, ghost past: seq<Batch>, active: seq<Live>) returns (calls: seq<Call>)
    requires PathsOk(job) && ActiveOk(job, past, active)
    ensures |calls| == |active| && forall k | 0 <= k < |calls| :: Owns(job, |past|, active[k].i, calls[k])
  {
    calls := [];
    for k := 0 to |active|
      invariant |calls| == k && forall j | 0 <= j < k :: Owns(job, |past|, active[j].i, calls[j])
    {
      var s := active[k];
      assert LiveOk(job, past, s);
      calls := calls + [CallAt(job.paths[s.i], job.quoters, job.kind, s.step, s.cur)];
    }
  }

  lemma RoundHolds(job: Job, past: seq<Batch>, found: seq<Option<PathQuote>>, active: seq<Live>, b: Batch)
    requires PathsOk(job) && AllFound(job, past, found, Owners(active)) && ActiveOk(job, past, active)
    requires b.owners == Owners(active) && |b.calls| == |active| > 0
    requires forall k | 0 <= k < |active| :: Owns(job, |past|, active[k].i, b.calls[k])
    ensures RoundIs(job, past, b)
    ensures AllFound(job, past + [b], found, Owners(active))
  {
    forall i ensures i in b.owners <==> Asks(job, past, i) {
      if i in b.owners {
        var k :| 0 <= k < |active| && b.owners[k] == i;
        assert LiveOk(job, past, active[k]);
      }
    }
    forall i: nat | i < |found| ensures FoundOk(job, past + [b], i, found[i]) {
      if found[i].Some? {
        SettledStays(job, past, b, i);
      }
    }
  }

  /** One round: every active path's next call, batched, and what its answer does to the path. */
  method Round(job: Job, ghost past: seq<Batch>, found0: seq<Option<PathQuote>>, active: seq<Live>, now: nat)
    returns (found: seq<Option<PathQuote>>, next: seq<Live>, later: nat, ghost b: Batch)
    requires PathsOk(job) && AllFound(job, past, found0, Owners(active)) && ActiveOk(job, past, active) && active != []
    ensures RoundIs(job, past, b) && b.now == now && later == BatchEnd(job.e, job.multicall, b.calls, now)
    ensures AllFound(job, past + [b], found, Owners(next)) && ActiveOk(job, past + [b], next)
  {
    var calls := NextCalls(job, past, active);
    var out;
    out, later := RunCalls(job.e, job.multicall, calls, now);
    b := Batch(Owners(active), calls, now);
    RoundHolds(job, past, found0, active, b);
    found, next := Advance(job, past, b, found0, active, out);
  }

  method Advance(
    job: Job, ghost past: seq<Batch>, ghost b: Batch, found0: seq<Option<PathQuote>>, active: seq<Live>,
    out: seq<CallResult>)
    returns (found: seq<Option<PathQuote>>, next: seq<Live>)
    requires PathsOk(job) && RoundIs(job, past, b) && ActiveOk(job, past, active) && b.owners == Owners(active)
    requires AllFound(job, past + [b], found0, b.owners)
    requires out == BatchAnswers(job.e, job.multicall, b.calls, b.now)
    ensures AllFound(job, past + [b], found, Owners(next)) && ActiveOk(job, past + [b], next)
  {
    found, next := found0, [];
    ghost var rest := b.owners;
    ProgressStarts(job, past + [b], found, rest);
    for k := 0 to |active|
      invariant rest == b.owners[k..] && Progress(job, past + [b], found, next, rest)
    {
      found, next := Step(job, past, b, found, next, active, k, out, rest);
      rest := rest[1..];
    }
    ProgressEnds(job, past + [b], found, next);
  }

  predicate Below(next: seq<Live>, rest: seq<nat>) {
    rest != [] ==> forall k | 0 <= k < |next| :: next[k].i < rest[0]
  }

  /** In the middle of a round: `rest` is whose answers are still to be looked at. */
  ghost predicate Progress(job: Job, trace: seq<Batch>, found: seq<Option<PathQuote>>, next: seq<Live>, rest: seq<nat>)
    requires PathsOk(job)
  {
    && AllFound(job, trace, found, Owners(next) + rest) && ActiveOk(job, trace, next)
    && Below(next, rest) && Increasing(rest)
  }

  lemma ProgressStarts(job: Job, trace: seq<Batch>, found: seq<Option<PathQuote>>, rest: seq<nat>)
    requires PathsOk(job) && AllFound(job, trace, found, rest) && Increasing(rest)
    ensures Progress(job, trace, found, [], rest)
  {
    assert Owners([]) + rest == rest;
  }

  lemma ProgressEnds(job: Job, trace: seq<Batch>, found: seq<Option<PathQuote>>, next: seq<Live>)
    requires PathsOk(job) && Progress(job, trace, found, next, [])
    ensures AllFound(job, trace, found, Owners(next)) && ActiveOk(job, trace, next)
  {
    assert Owners(next) + [] == Owners(next);
  }

  lemma AnswerOf(job: Job, past: seq<Batch>, b: Batch, active: seq<Live>, k: nat, out: seq<CallResult>)
    requires PathsOk(job) && RoundIs(job, past, b) && ActiveOk(job, past, active) && b.owners == Owners(active)
    requires out == BatchAnswers(job.e, job.multicall, b.calls, b.now) && k < |active|
    ensures |out| == |active| && LiveOk(job, past, active[k]) && b.owners[k] == active[k].i
    ensures out[k] == BatchAnswer(job.e, job.multicall, b.calls, b.now, k)
  {
  }

  /** What one answer does to its path. */
  method Step(
    job: Job, ghost past: seq<Batch>, ghost b: Batch, found0: seq<Option<PathQuote>>, next0: seq<Live>,
    active: seq<Live>, k: nat,
    out: seq<CallResult>, ghost rest: seq<nat>)
    returns (found: seq<Option<PathQuote>>, next: seq<Live>)
    requires PathsOk(job) && RoundIs(job, past, b) && ActiveOk(job, past, active) && b.owners == Owners(active)
    requires out == BatchAnswers(job.e, job.multicall, b.calls, b.now) && k < |active|
    requires rest == b.owners[k..] && Progress(job, past + [b], found0, next0, rest)
    ensures Progress(job, past + [b], found, next, rest[1..])
  {
    AnswerOf(job, past, b, active, k, out);
    TurnIs(job, past, b, active[k], k);
    match TakeTurn(job.paths[active[k].i], active[k], out[k]) {
      case Done(quote) =>
        DoneStep(job, past + [b], found0, next0, quote, rest);
        found, next := found0[active[k].i := Some(quote)], next0;
      case Next(live) =>
        NextStep(job, past + [b], found0, next0, live, rest);
        found, next := found0, next0 + [live];
    }
  }

  lemma DoneStep(
    job: Job, trace: seq<Batch>, found: seq<Option<PathQuote>>, next: seq<Live>, quote: PathQuote, rest: seq<nat>)
    requires PathsOk(job) && Progress(job, trace, found, next, rest) && rest != []
    requires FoundOk(job, trace, rest[0], Some(quote))
    ensures Progress(job, trace, found[rest[0] := Some(quote)], next, rest[1..])
  {
    forall k: nat | k < |found| && k != rest[0] && found[k].None? ensures k in Owners(next) + rest[1..] {
      assert rest == [rest[0]] + rest[1..];
      assert k in Owners(next) + rest;
    }
  }

  lemma NextStep(
    job: Job, trace: seq<Batch>, found: seq<Option<PathQuote>>, next: seq<Live>, live: Live, rest: seq<nat>)
    requires PathsOk(job) && Progress(job, trace, found, next, rest)
    requires LiveOk(job, trace, live) && rest != [] && rest[0] == live.i
    ensures Progress(job, trace, found, next + [live], rest[1..])
  {
    AppendOwner(next, live);
    assert Owners(next + [live]) + rest[1..] == Owners(next) + rest;
  }

  lemma NothingLeft(job: Job, trace: seq<Batch>, found: seq<Option<PathQuote>>)
    requires PathsOk(job) && AllFound(job, trace, found, [])
    ensures forall i: nat :: !Asks(job, trace, i)
    ensures forall i: nat | i < |job.paths| :: found[i].Some? && found[i].value == Outcome(job, trace, i)
  {
    forall i: nat ensures !Asks(job, trace, i) {
      if i < |job.paths| {
        assert FoundOk(job, trace, i, found[i]);
      }
    }
  }

  lemma RunMore(job: Job, past: seq<Batch>, b: Batch)
    requires PathsOk(job) && IsRun(job, past) && RoundIs(job, past, b) && b.now == RunEnd(job, past)
    ensures IsRun(job, past + [b]) && RunEnd(job, past + [b]) == BatchEnd(job.e, job.multicall, b.calls, b.now)
  {
    assert (past + [b])[..|past|] == past;
  }

  /** The results are exactly the paths' outcomes in the full run. */
  ghost predicate Delivered(job: Job, res: seq<PathQuote>)
    requires PathsOk(job) && |res| == |job.paths|
  {
    exists trace :: (
      && FullRun(job, trace) && |trace| <= MostHops(job.paths)
      && forall i: nat | i < |res| :: res[i] == Outcome(job, trace, i))
  }

  /**
   * All paths at once, in rounds of batched calls. The rounds are exactly those of the full
   * run (there is one, `RunIsForced`), no more than the longest path has hops, and each
   * result is exactly its path's outcome in them: what quoting that path alone gives, unless
   * a request this run sent for it failed.
   */
  method QuotePaths(e: Net, quoters: map<nat, nat>, multicall: bool, paths: seq<RoutePath>, amount: nat, kind: Kind)
    returns (res: seq<PathQuote>)
    requires forall i | 0 <= i < |paths| :: WellFormed(paths[i])
    ensures |res| == |paths| && Delivered(Job(e, quoters, multicall, paths, amount, kind), res)
  {
    var job := Job(e, quoters, multicall, paths, amount, kind);
    var found, active := Start(job);
    var now := 0;
    ghost var trace := [];
    while active != []
      invariant |trace| <= MostHops(paths)
      invariant IsRun(job, trace) && now == RunEnd(job, trace)
      invariant AllFound(job, trace, found, Owners(active)) && ActiveOk(job, trace, active)
      decreases MostHops(paths) - |trace|, |active|
    {
      assert LiveOk(job, trace, active[0]);
      HopsBound(paths, active[0].i);
      ghost var b;
      found, active, now, b := Round(job, trace, found, active, now);
      RunMore(job, trace, b);
      trace := trace + [b];
    }
    NothingLeft(job, trace, found);
    res := seq(|paths|, i requires 0 <= i < |paths| && found[i].Some? => found[i].value);
  }

  // ----------------------------------------------------------------- what it promises

  lemma {:induction false} FoldFailsWhere(
    e: Net, p: RoutePath, quoters: map<nat, nat>, kind: Kind, amount: nat, i: nat, cur: nat, gas: nat)
    returns (j: nat, c: Call)
    requires WellFormed(p) && FirstMissing(p.venues, quoters).None? && i <= Steps(p)
    requires Reaches(e, p, quoters, kind, amount, i) == Some(cur)
    requires Fold(e, p, quoters, kind, i, cur, gas).Bad?
    ensures Makes(e, p, quoters, kind, amount, j, c) && (e.q(c).Reverts? || e.q(c).amount == 0)
    decreases Steps(p) - i
  {
    j, c := i, CallAt(p, quoters, kind, i, cur);
    var a := e.q(c);
    if a.Quotes? && a.amount != 0 {
      assert Reaches(e, p, quoters, kind, amount, i + 1) == Some(a.amount);
      j, c := FoldFailsWhere(e, p, quoters, kind, amount, i + 1, a.amount, gas + a.gas);
    }
  }

  /** The path's own fold from a step it reaches is the fold from its start. */
  lemma {:induction false} FoldFrom(e: Net, p: RoutePath, quoters: map<nat, nat>, kind: Kind, amount: nat, j: nat)
    returns (gas: nat)
    requires WellFormed(p) && FirstMissing(p.venues, quoters).None? && j <= Steps(p)
    requires Reaches(e, p, quoters, kind, amount, j).Some?
    ensures Fold(e, p, quoters, kind, 0, amount, 0) ==
      Fold(e, p, quoters, kind, j, Reaches(e, p, quoters, kind, amount, j).value, gas)
  {
    if j == 0 {
      gas := 0;
    } else {
      gas := FoldFrom(e, p, quoters, kind, amount, j - 1);
      gas := gas + e.q(CallAt(p, quoters, kind, j - 1, Reaches(e, p, quoters, kind, amount, j - 1).value)).gas;
    }
  }

  /** Some call the path makes reverts or quotes zero. */
  ghost predicate Refused(e: Net, p: RoutePath, quoters: map<nat, nat>, kind: Kind, amount: nat) {
    exists j, c :: Makes(e, p, quoters, kind, amount, j, c) && (e.q(c).Reverts? || e.q(c).amount == 0)
  }

  /** Alone, a path fails exactly for a venue without a quoter or a call that reverts or quotes zero. */
  lemma AloneFailsIff(e: Net, p: RoutePath, quoters: map<nat, nat>, kind: Kind, amount: nat)
    requires WellFormed(p)
    ensures QuoteAlone(e, p, quoters, kind, amount).Bad? <==>
      FirstMissing(p.venues, quoters).Some? || Refused(e, p, quoters, kind, amount)
    ensures QuoteAlone(e, p, quoters, kind, amount).Bad? ==> !QuoteAlone(e, p, quoters, kind, amount).transient
  {
    if FirstMissing(p.venues, quoters).None? {
      NeverTransient(e, p, quoters, kind, 0, amount, 0);
      if QuoteAlone(e, p, quoters, kind, amount).Bad? {
        var j, c := FoldFailsWhere(e, p, quoters, kind, amount, 0, amount, 0);
      } else if Refused(e, p, quoters, kind, amount) {
        var j, c :| Makes(e, p, quoters, kind, amount, j, c) && (e.q(c).Reverts? || e.q(c).amount == 0);
        var gas := FoldFrom(e, p, quoters, kind, amount, j);
      }
    }
  }

  lemma {:induction false} NeverTransient(
    e: Net, p: RoutePath, quoters: map<nat, nat>, kind: Kind, i: nat, cur: nat, gas: nat)
    requires WellFormed(p) && FirstMissing(p.venues, quoters).None? && i <= Steps(p)
    ensures Fold(e, p, quoters, kind, i, cur, gas).Bad? ==> !Fold(e, p, quoters, kind, i, cur, gas).transient
    decreases Steps(p) - i
  {
    if i < Steps(p) {
      var a := e.q(CallAt(p, quoters, kind, i, cur));
      if a.Quotes? && a.amount != 0 {
        NeverTransient(e, p, quoters, kind, i + 1, a.amount, gas + a.gas);
      }
    }
  }

  /**
   * What a failure says: it is called transient exactly when a request this run sent for the
   * path got no answer, and not transient exactly when none was lost and the path has a
   * venue without a quoter, a call that reverts or quotes zero, or a call left failed as the
   * lone remainder of a round.
   */
  lemma FailureIff(job: Job, trace: seq<Batch>, i: nat)
    requires PathsOk(job) && FullRun(job, trace) && i < |job.paths|
    ensures var r := Outcome(job, trace, i);
      && (r.Bad? && r.transient <==> WasLost(job, trace, i))
      && (r.Bad? && !r.transient <==>
          && !WasLost(job, trace, i)
          && (!Routable(job, i) || WasStarved(job, trace, i)
              || Refused(job.e, job.paths[i], job.quoters, job.kind, job.amount)))
  {
    AloneFailsIff(job.e, job.paths[i], job.quoters, job.kind, job.amount);
  }

  // ------------------------------------------------------- one run, and where it differs

  lemma {:induction false} IncreasingUnique(s: seq<nat>, t: seq<nat>)
    requires Increasing(s) && Increasing(t) && forall x :: x in s <==> x in t
    ensures s == t
  {
    if s != [] && t != [] {
      assert s[0] in t && t[0] in s;
      assert s[0] == t[0];
      forall x ensures x in s[1..] <==> x in t[1..] {
        assert x in s[1..] <==> x in s && x != s[0] by {
          TailMembers(s, x);
        }
        TailMembers(t, x);
      }
      IncreasingUnique(s[1..], t[1..]);
      assert s == [s[0]] + s[1..] && t == [t[0]] + t[1..];
    } else if s != [] {
      HeadIn(s);
    } else if t != [] {
      HeadIn(t);
    }
  }

  lemma HeadIn(s: seq<nat>)
    requires s != []
    ensures s[0] in s
  {
  }

  lemma TailMembers(s: seq<nat>, x: nat)
    requires Increasing(s) && s != []
    ensures x in s[1..] <==> x in s && x != s[0]
  {
    assert s == [s[0]] + s[1..];
  }

  lemma RoundIsForced(job: Job, past: seq<Batch>, a: Batch, b: Batch)
    requires PathsOk(job) && RoundIs(job, past, a) && RoundIs(job, past, b)
    ensures a.owners == b.owners && a.calls == b.calls
  {
    IncreasingUnique(a.owners, b.owners);
    forall k | 0 <= k < |a.calls| ensures a.calls[k] == b.calls[k] {
      assert Owns(job, |past|, a.owners[k], a.calls[k]) && Owns(job, |past|, b.owners[k], b.calls[k]);
    }
  }

  lemma {:induction false} RunAt(job: Job, trace: seq<Batch>, j: nat)
    requires PathsOk(job) && IsRun(job, trace) && j < |trace|
    ensures IsRun(job, trace[..j]) && RoundIs(job, trace[..j], trace[j]) && trace[j].now == RunEnd(job, trace[..j])
  {
    var n := |trace| - 1;
    if j < n {
      RunAt(job, trace[..n], j);
      assert trace[..n][..j] == trace[..j];
    }
  }

  lemma {:induction false} SamePrefix(job: Job, s: seq<Batch>, t: seq<Batch>, j: nat)
    requires PathsOk(job) && IsRun(job, s) && IsRun(job, t) && j <= |s| && j <= |t|
    ensures s[..j] == t[..j]
  {
    if j > 0 {
      SamePrefix(job, s, t, j - 1);
      RunAt(job, s, j - 1);
      RunAt(job, t, j - 1);
      RoundIsForced(job, s[..j - 1], s[j - 1], t[j - 1]);
      assert s[..j] == s[..j - 1] + [s[j - 1]] && t[..j] == t[..j - 1] + [t[j - 1]];
    }
  }

  /** There is one full run: what is sent, and with it every result, is forced. */
  lemma RunIsForced(job: Job, s: seq<Batch>, t: seq<Batch>)
    requires PathsOk(job) && FullRun(job, s) && FullRun(job, t)
    ensures s == t
  {
    if |s| < |t| {
      NotLonger(job, s, t);
    } else if |t| < |s| {
      NotLonger(job, t, s);
    } else {
      SamePrefix(job, s, t, |s|);
      assert s[..|s|] == s && t[..|t|] == t;
    }
  }

  lemma NotLonger(job: Job, s: seq<Batch>, t: seq<Batch>)
    requires PathsOk(job) && FullRun(job, s) && IsRun(job, t)
    ensures |t| <= |s|
  {
    if |s| < |t| {
      assert s[..|s|] == s;
      SamePrefix(job, s, t, |s|);
      RunAt(job, t, |s|);
      HeadIn(t[|s|].owners);
    }
  }

  /** What quoting path `i` of a job alone gives. */
  function Alone(job: Job, i: nat): PathQuote
    requires i < |job.paths| && WellFormed(job.paths[i])
  {
    QuoteAlone(job.e, job.paths[i], job.quoters, job.kind, job.amount)
  }

  /** Five one-hop paths; the quoter answers 7 to every call, and a chunk of one call brings no data. */
  const FIVE_JOB := Job(
    Net(c => Quotes(7, 1), (c, t) => false, (cs: seq<Call>, t) => if |cs| == 1 then NoData else Replies({})),
    map[0 := 100], true, seq(5, i requires 0 <= i < 5 => RoutePath([1, 2], [i], [0])), 9, ExactIn)

  lemma FivePaths(i: nat)
    ensures PathsOk(FIVE_JOB)
    ensures Routable(FIVE_JOB, i) <==> i < 5
    ensures i < 5 ==> Steps(FIVE_JOB.paths[i]) == 1
  {
    assert FirstMissing([], FIVE_JOB.quoters).None?;
  }

  lemma FiveAlone(i: nat)
    requires i < 5
    ensures PathsOk(FIVE_JOB) && Alone(FIVE_JOB, i) == Good(7, 1)
  {
    FivePaths(i);
    var p := FIVE_JOB.paths[i];
    assert FIVE_JOB.e.q(CallAt(p, FIVE_JOB.quoters, ExactIn, 0, 9)) == Quotes(7, 1);
    assert Fold(FIVE_JOB.e, p, FIVE_JOB.quoters, ExactIn, 1, 7, 0 + 1) == Good(7, 1);
  }

  lemma FiveFaults(calls: seq<Call>, now: nat, k: nat)
    requires |calls| == 5 && k < 5
    ensures FaultAt(FIVE_JOB.e, true, calls, now, k) == if k == 4 then Starved else NoFault
  {
    StarvedIff(FIVE_JOB.e, true, calls, now, k);
    if k < 4 {
      assert k / QUOTES_PER_CALL == 0 && |ChunkAt(calls, 0)| == 4;
    }
  }

  lemma FiveAsk(i: nat)
    ensures PathsOk(FIVE_JOB) && (Asks(FIVE_JOB, [], i) <==> i < 5)
  {
    FivePaths(i);
    if i < 5 {
      FirstAsks(FIVE_JOB, i);
    }
  }

  lemma FiveRound(trace: seq<Batch>)
    requires PathsOk(FIVE_JOB) && FullRun(FIVE_JOB, trace)
    ensures |trace| == 1 && trace[0].owners == [0, 1, 2, 3, 4] && |trace[0].calls| == 5
  {
    forall i ensures Asks(FIVE_JOB, [], i) <==> i < 5 {
      FiveAsk(i);
    }
    FiveAsk(4);
    assert trace != [];
    RunAt(FIVE_JOB, trace, 0);
    assert trace[..0] == [];
    IncreasingUnique(trace[0].owners, [0, 1, 2, 3, 4]);
    if |trace| > 1 {
      RunAt(FIVE_JOB, trace, 1);
      var i := trace[1].owners[0];
      assert Asks(FIVE_JOB, trace[..1], i);
      FivePaths(i);
    }
  }

  /**
   * Where batching differs from quoting alone with every request answered: five paths that
   * each quote 7 alone; the fifth, alone in its chunk, is refused and not even called transient.
   */
  lemma LoneRemainderIsRefused(trace: seq<Batch>, i: nat)
    requires PathsOk(FIVE_JOB) && FullRun(FIVE_JOB, trace) && i < 5
    ensures Alone(FIVE_JOB, i) == Good(7, 1)
    ensures Outcome(FIVE_JOB, trace, i) == if i == 4 then Bad(false, CallFailed) else Good(7, 1)
  {
    FiveAlone(i);
    FiveRound(trace);
    PlaceIs(trace[0].owners, i);
    FiveFaults(trace[0].calls, trace[0].now, i);
    OneRound(FIVE_JOB, trace, i);
  }

  lemma OneRound(job: Job, trace: seq<Batch>, i: nat)
    requires PathsOk(job) && |trace| == 1 && i < |job.paths|
    ensures Outcome(job, trace, i) == match FaultOf(job, trace[0], i)
      case Lost => Bad(true, CallFailed)
      case Starved => Bad(false, CallFailed)
      case NoFault => QuoteAlone(job.e, job.paths[i], job.quoters, job.kind, job.amount)
  {
  }

  /** Exact output, hop by hop: the last hop first, what it needs being the previous hop's output. */
  function HopsBackward(e: Net, p: RoutePath, quoters: map<nat, nat>, n: nat, need: nat, gas: nat): PathQuote
    requires WellFormed(p) && FirstMissing(p.venues, quoters).None? && n <= |p.fees|
  {
    if n == 0 then Good(need, gas)
    else
      match e.q(OneHop(quoters[p.venues[n - 1]], ExactOut, p.tokens[n - 1], p.tokens[n], p.fees[n - 1], need))
      case Reverts => Bad(false, CallFailed)
      case Quotes(a, g) => if a == 0 then Bad(false, ZeroQuote) else HopsBackward(e, p, quoters, n - 1, a, gas + g)
  }

  /** Exact input, hop by hop: each hop's output is the next hop's input. */
  function HopsForward(e: Net, p: RoutePath, quoters: map<nat, nat>, h: nat, have: nat, gas: nat): PathQuote
    requires WellFormed(p) && FirstMissing(p.venues, quoters).None? && h <= |p.fees|
    decreases |p.fees| - h
  {
    if h == |p.fees| then Good(have, gas)
    else
      match e.q(OneHop(quoters[p.venues[h]], ExactIn, p.tokens[h], p.tokens[h + 1], p.fees[h], have))
      case Reverts => Bad(false, CallFailed)
      case Quotes(a, g) => if a == 0 then Bad(false, ZeroQuote) else HopsForward(e, p, quoters, h + 1, a, gas + g)
  }

  lemma {:induction false} FoldRunsTheHops(
    e: Net, p: RoutePath, quoters: map<nat, nat>, kind: Kind, i: nat, cur: nat, gas: nat)
    requires WellFormed(p) && FirstMissing(p.venues, quoters).None? && !SingleVenue(p) && i <= |p.fees|
    ensures Fold(e, p, quoters, kind, i, cur, gas) ==
      if kind.ExactIn? then HopsForward(e, p, quoters, i, cur, gas)
      else HopsBackward(e, p, quoters, |p.fees| - i, cur, gas)
    decreases |p.fees| - i
  {
    if i < |p.fees| {
      var a := e.q(CallAt(p, quoters, kind, i, cur));
      if a.Quotes? && a.amount != 0 {
        FoldRunsTheHops(e, p, quoters, kind, i + 1, a.amount, gas + a.gas);
      }
    }
  }

  /** What quoting a path alone is: one call on a single venue, else its hops in the direction of the kind. */
  lemma QuoteAloneIs(e: Net, p: RoutePath, quoters: map<nat, nat>, kind: Kind, amount: nat)
    requires WellFormed(p) && FirstMissing(p.venues, quoters).None?
    ensures QuoteAlone(e, p, quoters, kind, amount) ==
      if SingleVenue(p) then
        match e.q(WholePath(quoters[p.venues[0]], kind, p.tokens, p.fees, amount)) {
          case Reverts => Bad(false, CallFailed)
          case Quotes(a, g) => if a == 0 then Bad(false, ZeroQuote) else Good(a, g)
        }
      else if kind.ExactIn? then HopsForward(e, p, quoters, 0, amount, 0)
      else HopsBackward(e, p, quoters, |p.fees|, amount, 0)
  {
    if !SingleVenue(p) {
      FoldRunsTheHops(e, p, quoters, kind, 0, amount, 0);
    } else {
      var a := e.q(CallAt(p, quoters, kind, 0, amount));
      assert a.Quotes? ==> Fold(e, p, quoters, kind, 1, a.amount, 0 + a.gas) == Good(a.amount, a.gas);
    }
  }
}
