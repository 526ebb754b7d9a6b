/**
 * The book sweep of packages/beta-filler/src/engine.ts: the order entries are visited in,
 * and one pass over them as a function of the engine's state and of the answers met on
 * the way. Order hashes are compared by value, as their lower-case text is.
 */
module Sweep {
  import opened Common

  datatype BookEntry = BookEntry(
    hash: nat,
    expiry: nat,         // unix seconds, 0 = none
    addedAt: int,
    fillable: nat,
    fixedPrice: bool,
    gasless: bool)       // carries a permit the fill would run

  datatype Why = Passed | Filled

  datatype Hold = Hold(until: int, fillable: nat, why: Why)

  datatype Config = Config(
    dryRun: bool, expiryMarginS: int, restingRecheckMs: int, auctionRecheckMs: int, dryRunRecheckMs: int)

  datatype Outcome =
    | Skipped(rest: bool, recheckAt: Option<int>)
    | DryRun
    | Other

  /** What a gasless entry's permit read said. */
  datatype Stage = Go | Ended(rest: bool)

  /** What the sweep met at one visited entry. */
  datatype Answer = Answer(
    mayContinue: bool,
    shapeAccepted: bool,
    stage: Stage,
    accepted: bool,            // some strategy takes the entry (it costs reads)
    outcome: Option<Outcome>,
    sent: bool,                // a transaction is outstanding after the dispatch
    before: int,               // the clock before the dispatch
    at: int,                   // the clock after it
    windowEnd: Option<int>)    // end of a running exclusivity window

  datatype State = State(
    cursor: Option<nat>,
    holds: map<nat, Hold>,
    seen: set<nat>,
    dryRunSeen: map<nat, int>)

  // ------------------------------------------------------------------------- order

  predicate ByHash(a: BookEntry, b: BookEntry) {
    a.hash < b.hash
  }

  predicate ByAge(a: BookEntry, b: BookEntry) {
    a.addedAt < b.addedAt || (a.addedAt == b.addedAt && a.hash < b.hash)
  }

  function Insert(less: (BookEntry, BookEntry) -> bool, e: BookEntry, s: seq<BookEntry>): (r: seq<BookEntry>)
    ensures multiset(r) == multiset(s) + multiset{e}
  {
    if s == [] then [e]
    else if less(e, s[0]) then [e] + s
    else
      assert s == [s[0]] + s[1..];
      [s[0]] + Insert(less, e, s[1..])
  }

  function Sort(less: (BookEntry, BookEntry) -> bool, s: seq<BookEntry>): (r: seq<BookEntry>)
    ensures multiset(r) == multiset(s)
  {
    if s == [] then []
    else
      assert s == [s[0]] + s[1..];
      Insert(less, s[0], Sort(less, s[1..]))
  }

  function Filter<T>(p: T -> bool, s: seq<T>): seq<T> {
    if s == [] then [] else (if p(s[0]) then [s[0]] else []) + Filter(p, s[1..])
  }

  /** Index of the first element past the cursor, or the length. */
  function FirstAfter(s: seq<BookEntry>, c: nat): (i: nat)
    ensures i <= |s|
    ensures forall j | 0 <= j < i :: s[j].hash <= c
    ensures i < |s| ==> s[i].hash > c
  {
    if s == [] || s[0].hash > c then 0 else 1 + FirstAfter(s[1..], c)
  }

  function Rotate<T>(s: seq<T>, i: nat): seq<T>
    requires i <= |s|
  {
    s[i..] + s[..i]
  }

  /** By hash, starting just after the cursor and wrapping. */
  function RoundRobin(entries: seq<BookEntry>, cursor: Option<nat>): seq<BookEntry> {
    var sorted := Sort(ByHash, entries);
    if cursor.None? then sorted
    else
      var i := FirstAfter(sorted, cursor.value);
      if i == |sorted| then sorted else Rotate(sorted, i)
  }

  /** Never-seen orders first, oldest first; then the rest, round-robin. */
  function VisitOrder(entries: seq<BookEntry>, seen: set<nat>, cursor: Option<nat>): seq<BookEntry> {
    Sort(ByAge, Filter((e: BookEntry) => e.hash !in seen, entries))
    + RoundRobin(Filter((e: BookEntry) => e.hash in seen, entries), cursor)
  }

  // ------------------------------------------------------------------------- a pass

  datatype Pass = Pass(st: State, evaluated: seq<nat>, sent: bool, bounded: bool, held: nat)

  predicate ExpiresSoon(cfg: Config, e: BookEntry, now: int) {
    e.expiry != 0 && e.expiry - now / 1000 < cfg.expiryMarginS
  }

  predicate Held(st: State, e: BookEntry, now: int) {
    e.hash in st.holds && now < st.holds[e.hash].until && st.holds[e.hash].fillable == e.fillable
  }

  /** When a resting verdict lapses. */
  function RestUntil(cfg: Config, e: BookEntry, recheckAt: Option<int>, at: int, windowEnd: Option<int>): int {
    var ttl := if e.fixedPrice then cfg.restingRecheckMs else Min(cfg.restingRecheckMs, cfg.auctionRecheckMs);
    var until := if !e.fixedPrice && recheckAt.Some? then Min(at + ttl, Max(recheckAt.value, at)) else at + ttl;
    if windowEnd.Some? then Min(until, windowEnd.value) else until
  }

  /** The state after dispatching `e`. */
  function AfterDispatch(cfg: Config, st: State, e: BookEntry, a: Answer): State {
    var dispatched := st.(seen := st.seen + {e.hash});
    match a.outcome
    case Some(DryRun) => dispatched.(dryRunSeen := st.dryRunSeen[e.hash := a.at])
    case Some(Skipped(true, recheckAt)) =>
      if cfg.restingRecheckMs > 0 then
        dispatched.(holds := st.holds[e.hash :=
          Hold(RestUntil(cfg, e, recheckAt, a.at, a.windowEnd), e.fillable, Passed)])
      else dispatched
    case _ => dispatched
  }

  /** The state after a permit read ended the entry for this pass. */
  function AfterEnded(cfg: Config, st: State, e: BookEntry, a: Answer): State
    requires a.stage.Ended?
  {
    var noted := st.(seen := st.seen + {e.hash});
    if a.stage.rest && cfg.restingRecheckMs > 0 then
      noted.(holds := st.holds[e.hash := Hold(a.before + cfg.restingRecheckMs, e.fillable, Passed)])
    else noted
  }

  predicate DryRanRecently(cfg: Config, st: State, e: BookEntry, at: int) {
    cfg.dryRun && e.hash in st.dryRunSeen && at - st.dryRunSeen[e.hash] < cfg.dryRunRecheckMs
  }

  /** What visiting one entry leads to. */
  datatype Visit =
    | Stop(st: State)                                     // a per-tick bound
    | Skip(st: State, held: nat)                          // nothing dispatched
    | Dispatched(st: State, evaluated: seq<nat>, sent: bool)

  function VisitOne(cfg: Config, st: State, e: BookEntry, evaluated: nat, maxOrders: nat, now: int, a: Answer): Visit {
    if !a.mayContinue then Stop(st)
    else if ExpiresSoon(cfg, e, now) || Held(st, e, now) then Skip(st, 1)
    else
      var free := st.(holds := st.holds - {e.hash});
      if e.gasless && a.shapeAccepted && a.stage.Ended? then Skip(AfterEnded(cfg, free, e, a), 0)
      else if a.accepted && DryRanRecently(cfg, free, e, a.before) then Skip(free, 0)
      else if a.accepted && maxOrders != 0 && evaluated >= maxOrders then Stop(free)
      else
        var moved := if a.accepted && e.hash in st.seen then free.(cursor := Some(e.hash)) else free;
        Dispatched(AfterDispatch(cfg, moved, e, a), if a.accepted then [e.hash] else [], a.sent)
  }

  /** A pass so far, and one more visit. */
  function Extend(p: Pass, v: Visit): Pass {
    match v
    case Stop(st) => p.(st := st, bounded := true)
    case Skip(st, held) => p.(st := st, held := p.held + held)
    case Dispatched(st, evaluated, sent) => p.(st := st, evaluated := p.evaluated + evaluated, sent := sent)
  }

  /** Visit the order from position `i` on, until a transaction was sent or a bound hit. */
  function PassFrom(
    cfg: Config, p: Pass, es: seq<BookEntry>, i: nat, maxOrders: nat, now: int, ans: nat -> Answer): Pass
    requires i <= |es|
    decreases |es| - i
  {
    if i == |es| || p.sent || p.bounded then p
    else
      var visit := VisitOne(cfg, p.st, es[i], |p.evaluated|, maxOrders, now, ans(i));
      PassFrom(cfg, Extend(p, visit), es, i + 1, maxOrders, now, ans)
  }

  /** Forget what the book no longer serves. */
  function Forget(st: State, entries: seq<BookEntry>): State {
    var inBook := set e | e in entries :: e.hash;
    st.(holds := map h | h in st.holds && h in inBook :: st.holds[h], seen := st.seen * inBook)
  }

  const DRY_RUN_SEEN_MAX := 10_000

  function SweepBook(
    cfg: Config, st: State, entries: seq<BookEntry>, maxOrders: nat, now: int, ans: nat -> Answer): Pass {
    var kept := Forget(st, entries);
    var p :=
      PassFrom(cfg, Pass(kept, [], false, false, 0), VisitOrder(entries, kept.seen, kept.cursor), 0,
        maxOrders, now, ans);
    if !p.sent && |p.st.dryRunSeen| > DRY_RUN_SEEN_MAX then p.(st := p.st.(dryRunSeen := map[])) else p
  }

  // -------------------------------------------------------------------- the object

  /** The sweeping part of `Engine`. */
  class Engine {
    const cfg: Config
    var cursor: Option<nat>
    var holds: map<nat, Hold>
    var seen: set<nat>
    var dryRunSeen: map<nat, int>

    constructor (cfg: Config, cursor: Option<nat>, holds: map<nat, Hold>)
      ensures this.cfg == cfg && Now() == State(cursor, holds, {}, map[])
    {
      this.cfg := cfg;
      this.cursor := cursor;
      this.holds := holds;
      this.seen := {};
      this.dryRunSeen := map[];
    }

    ghost function Now(): State
      reads this
    {
      State(cursor, holds, seen, dryRunSeen)
    }

    /** A resting verdict, after a dispatch. */
    method NoteOutcome(e: BookEntry, a: Answer)
      modifies this
      ensures Now() == AfterDispatch(cfg, old(Now()), e, a)
    {
      seen := seen + {e.hash};
      match a.outcome
      case None =>
      case Some(out) =>
        if out.DryRun? {
          dryRunSeen := dryRunSeen[e.hash := a.at];
        }
        if out.Skipped? && out.rest && cfg.restingRecheckMs > 0 {
          var ttl := if e.fixedPrice then cfg.restingRecheckMs else Min(cfg.restingRecheckMs, cfg.auctionRecheckMs);
          var until := a.at + ttl;
          if !e.fixedPrice && out.recheckAt.Some? {
            until := Min(until, Max(out.recheckAt.value, a.at));
          }
          if a.windowEnd.Some? {
            until := Min(until, a.windowEnd.value);
          }
          holds := holds[e.hash := Hold(until, e.fillable, Passed)];
        }
    }

    /** A permit read that ended the entry for this pass. */
    method NoteEnded(e: BookEntry, a: Answer)
      requires a.stage.Ended?
      modifies this
      ensures Now() == AfterEnded(cfg, old(Now()), e, a)
    {
      seen := seen + {e.hash};
      if a.stage.rest && cfg.restingRecheckMs > 0 {
        holds := holds[e.hash := Hold(a.before + cfg.restingRecheckMs, e.fillable, Passed)];
      }
    }

    /** Visit one entry of the pass. */
    method VisitEntry(e: BookEntry, soFar: seq<nat>, heldSoFar: nat, maxOrders: nat, now: int, a: Answer)
      returns (evaluated: seq<nat>, sent: bool, bounded: bool, held: nat)
      modifies this
      ensures Pass(Now(), evaluated, sent, bounded, held) ==
              Extend(Pass(old(Now()), soFar, false, false, heldSoFar),
                     VisitOne(cfg, old(Now()), e, |soFar|, maxOrders, now, a))
    {
      evaluated, sent, bounded, held := soFar, false, false, heldSoFar;
      if !a.mayContinue {
        bounded := true;
        return;
      }
      if ExpiresSoon(cfg, e, now) ||
          (e.hash in holds && now < holds[e.hash].until && holds[e.hash].fillable == e.fillable) {
        held := held + 1;
        return;
      }
      holds := holds - {e.hash};
      if e.gasless && a.shapeAccepted && a.stage.Ended? {
        NoteEnded(e, a);
        return;
      }
      if a.accepted {
        if cfg.dryRun && e.hash in dryRunSeen && a.before - dryRunSeen[e.hash] < cfg.dryRunRecheckMs {
          return;
        }
        if maxOrders != 0 && |evaluated| >= maxOrders {
          bounded := true;
          return;
        }
        evaluated := evaluated + [e.hash];
        if e.hash in seen {
          cursor := Some(e.hash);
        }
      }
      NoteOutcome(e, a);
      sent := a.sent;
    }

    /** One pass over the book, stopping at the first transaction sent. */
    method RunSweep(entries: seq<BookEntry>, maxOrders: nat, now: int, ans: nat -> Answer)
      returns (evaluated: seq<nat>, sent: bool, bounded: bool, held: nat)
      modifies this
      ensures Pass(Now(), evaluated, sent, bounded, held) == SweepBook(cfg, old(Now()), entries, maxOrders, now, ans)
    {
      evaluated, sent, bounded, held := [], false, false, 0;
      ForgetGone(entries);
      var order := VisitOrder(entries, seen, cursor);
      ghost var all := PassFrom(cfg, Pass(Now(), [], false, false, 0), order, 0, maxOrders, now, ans);
      var i := 0;
      while i < |order| && !bounded && !sent
        invariant 0 <= i <= |order|
        invariant all == PassFrom(cfg, Pass(Now(), evaluated, sent, bounded, held), order, i, maxOrders, now, ans)
        decreases |order| - i
      {
        evaluated, sent, bounded, held := VisitEntry(order[i], evaluated, held, maxOrders, now, ans(i));
        i := i + 1;
      }
      if !sent && |dryRunSeen| > DRY_RUN_SEEN_MAX {
        dryRunSeen := map[];
      }
    }

    method ForgetGone(entries: seq<BookEntry>)
      modifies this`holds, this`seen
      ensures Now() == Forget(old(Now()), entries)
    {
      var inBook := set e | e in entries :: e.hash;
      holds := map h | h in holds && h in inBook :: holds[h];
      seen := seen * inBook;
    }
  }
}
