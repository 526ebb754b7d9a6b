/**
 * Whole runs of the filler: guard operations, engine saves, crashes between any two micro
 * steps with restart from the last committed record, and a node that mines and forgets.
 * `Reachable` worlds keep `Inv`; the theorems at the end are its consequences.
 */
module GuardRuns {
  import opened Common
  import opened Ledger
  import opened GuardSpec

  datatype World = World(
    mem: GState,                  // the guard in memory
    saved: GState,                // the committed record
    log: seq<Event>,              // every durable or external event so far
    mempool: set<SignedTx>,       // what the node may still mine
    mined: map<SignedTx, nat>,    // what was mined, and the gas cost paid for it
    clock: int,
    unsavedFailure: bool)         // a pre-send failure was noted while a transaction is outstanding, and is not saved

  datatype Step =
    | DoBroadcast(req: Request, now: int, send: BroadcastAnswers, cut: Option<nat>)
    | DoResolve(now: int, look: ResolveAnswers, cut: Option<nat>)
    | DoSave(cut: Option<nat>)
    | DoSimFail(key: string, strategy: string, now: int)
    | DoStatus(now: int)                   // reading the budget left prunes the ledger
    | DoAnnotate(fillable: nat)            // the book's fillable, noted on the outstanding fill
    | Crash
    | Mine(tx: SignedTx, cost: nat)
    | Forget(tx: SignedTx)

  // --------------------------------------------------------------- the log by itself

  /** The record the store holds after `log`, having started from `init`. */
  function LastSaved(init: GState, log: seq<Event>): GState {
    if log == [] then init
    else if log[|log| - 1].Commit? then log[|log| - 1].state
    else LastSaved(init, log[..|log| - 1])
  }

  /** The transactions handed to the node and not resolved since. */
  function Unresolved(log: seq<Event>): set<SignedTx> {
    if log == [] then {}
    else
      var before, last := Unresolved(log[..|log| - 1]), log[|log| - 1];
      if last.Handed? then before + {last.tx} else if last.Closed? then before - {last.tx} else before
  }

  /**
   * Event `j` was safe when it happened: bytes go to the node only when the committed
   * record holds them as THE outstanding transaction, charged at the full limit, and
   * only while no other transaction is unresolved.
   */
  ghost predicate SafeAt(init: GState, log: seq<Event>, j: nat)
    requires j < |log|
  {
    log[j].Handed? ==>
      && LastSaved(init, log[..j]).Holds(log[j].tx)
      && Amount(LastSaved(init, log[..j]).hist, log[j].tx, GAS) >= log[j].tx.MaxCost()
      && Unresolved(log[..j]) <= {log[j].tx}
  }

  ghost predicate SafeLog(init: GState, log: seq<Event>) {
    forall j | 0 <= j < |log| :: SafeAt(init, log, j)
  }

  // ------------------------------------------------------------------- one micro step

  function Apply(w: World, m: Micro): World {
    var moved := w.(mem := m.g);
    match m.ev
    case Quiet => moved
    case Commit(g) => moved.(saved := g, log := w.log + [m.ev], unsavedFailure := false)
    case Handed(tx, accepted) =>
      moved.(log := w.log + [m.ev], mempool := if accepted then w.mempool + {tx} else w.mempool)
    case Closed(_, _) => moved.(log := w.log + [m.ev])
  }

  function ApplyAll(w: World, ms: seq<Micro>): World
    decreases |ms|
  {
    if ms == [] then w else ApplyAll(Apply(w, ms[0]), ms[1..])
  }

  /** Memory is lost, and loaded again from the committed record. */
  function Restarted(w: World): World {
    w.(mem := w.saved, unsavedFailure := false)
  }

  /** Run the micro steps; with a cut, crash after that many of them and restart. */
  function RunMicros(w: World, ms: seq<Micro>, cut: Option<nat>): World {
    if cut.None? then ApplyAll(w, ms)
    else
      var v := ApplyAll(w, ms[..Min(cut.value, |ms|)]);
      Restarted(v)
  }

  function Micros(policy: Policy, w: World, s: Step): seq<Micro> {
    match s
    case DoBroadcast(req, now, a, _) => Broadcast(policy, w.mem, req, now, a).0
    case DoResolve(now, a, _) => Resolve(policy, w.mem, now, a).0
    case DoSave(_) => [Micro(w.mem, Commit(w.mem))]
    case DoSimFail(key, strategy, now) => [Micro(w.mem.(blocks := OnSimFail(w.mem.blocks, key, strategy, now)), Quiet)]
    case DoStatus(now) => [Micro(w.mem.(gas := Live(w.mem.gas, now)), Quiet)]
    case DoAnnotate(f) =>
      if w.mem.pending.None? then []
      else [Micro(w.mem.(pending := Some(w.mem.pending.value.(bookFillable := Some(f)))), Quiet)]
    case _ => []
  }

  function Time(w: World, s: Step): int {
    match s
    case DoBroadcast(_, now, _, _) => now
    case DoResolve(now, _, _) => now
    case DoSimFail(_, _, now) => now
    case DoStatus(now) => now
    case _ => w.clock
  }

  function Next(policy: Policy, w: World, s: Step): World {
    var at := w.(clock := Time(w, s));
    match s
    case DoBroadcast(_, _, _, cut) => RunMicros(at, Micros(policy, w, s), cut)
    case DoResolve(_, _, cut) => RunMicros(at, Micros(policy, w, s), cut)
    case DoSave(cut) => RunMicros(at, Micros(policy, w, s), cut)
    case Crash => Restarted(at)
    case Mine(tx, cost) => at.(mempool := w.mempool - {tx}, mined := w.mined[tx := cost])
    case Forget(tx) => at.(mempool := w.mempool - {tx})
    case DoSimFail(_, _, _) =>
      RunMicros(at.(unsavedFailure := w.unsavedFailure || w.mem.pending.Some?), Micros(policy, w, s), None)
    case _ => RunMicros(at, Micros(policy, w, s), None)
  }

  /**
   * What is assumed of the world: the clock never goes back; the mined nonce read
   * before signing is past every mined transaction; a receipt is one of a mined
   * transaction and states the cost paid; a definite "not found" and a passed nonce are
   * true; a transaction is mined at most once, from the mempool, for at most limit x price.
   */
  ghost predicate Truthful(w: World, s: Step) {
    && Time(w, s) >= w.clock
    && match s
       case DoBroadcast(req, now, a, _) =>
         && (a.latest.Some? ==> forall tx | tx in w.mined :: tx.nonce < a.latest.value)
         && (a.known == Some(false) ==> !a.accepted)
       case DoResolve(now, a, _) =>
         w.mem.pending.Some? ==>
           var tx := w.mem.pending.value.tx;
           && (a.receipt.Some? ==> tx in w.mined && w.mined[tx] == ReceiptCost(a.receipt.value, tx))
           && (a.receipt2.Some? ==> tx in w.mined && w.mined[tx] == ReceiptCost(a.receipt2.value, tx))
           && (a.mined.Some? && a.mined.value > tx.nonce ==> tx !in w.mempool)
           && (a.known == Some(false) ==> tx !in w.mempool && tx !in w.mined)
       case Mine(tx, cost) => tx in w.mempool && cost <= tx.MaxCost()
       case _ => true
  }

  // ------------------------------------------------------------------- the invariant

  /** What a guard state, in memory or saved, always is. */
  ghost predicate GoodState(policy: Policy, g: GState, now: int) {
    && Unique(g.hist)
    && NoneAfter(g.hist, now)
    && WindowCap(g.hist, GAS, policy.hourlyWei)
    && (exists p: int :: p <= now && g.gas == Live(g.hist, p))
    && (g.pending.Some? ==> Amount(g.hist, g.pending.value.tx, GAS) >= g.pending.value.tx.MaxCost())
  }

  /** The ledger never counts less than what was really paid. */
  ghost predicate Covers(g: GState, mined: map<SignedTx, nat>) {
    forall tx | tx in mined :: mined[tx] <= Amount(g.hist, tx, GAS)
  }

  ghost predicate Outstanding(w: World, tx: SignedTx) {
    w.mem.Holds(tx) && w.saved.Holds(tx)
  }

  /** The same outstanding transaction, up to what a look notes on it. */
  predicate SameButNotes(p: Pending, q: Pending) {
    q == p.(rebroadcasts := q.rebroadcasts, lastBroadcastAt := q.lastBroadcastAt,
              timedOut := q.timedOut, bookFillable := q.bookFillable)
  }

  /** `g` and the committed record are one state, but for the notes on the outstanding transaction. */
  ghost predicate Agrees(w: World, g: GState) {
    g.pending.Some? ==>
      && w.saved.pending.Some? && SameButNotes(g.pending.value, w.saved.pending.value)
      && g.hist == w.saved.hist && g.budgets == w.saved.budgets
      && (!w.unsavedFailure ==> g.blocks == w.saved.blocks)
  }

  ghost predicate Inv(policy: Policy, init: GState, w: World) {
    && GoodState(policy, w.mem, w.clock)
    && GoodState(policy, w.saved, w.clock)
    && Covers(w.mem, w.mined)
    && Covers(w.saved, w.mined)
    && Agrees(w, w.mem)
    && (forall tx | tx in w.mempool :: Outstanding(w, tx) && tx !in w.mined)
    && (forall tx | tx in Unresolved(w.log) :: Outstanding(w, tx))
    && w.saved == LastSaved(init, w.log)
    && SafeLog(init, w.log)
  }

  // ------------------------------------------------------------------ good states

  lemma GoodLater(policy: Policy, g: GState, now: int, later: int)
    requires GoodState(policy, g, now) && now <= later
    ensures GoodState(policy, g, later)
  {
    var p: int :| p <= now && g.gas == Live(g.hist, p);
    assert p <= later;
  }

  /** Pruning the ledger, whoever does it, loses nothing the cap needs. */
  lemma GoodPruned(policy: Policy, g: GState, now: int)
    requires GoodState(policy, g, now)
    ensures GoodState(policy, g.(gas := Live(g.gas, now)), now)
    ensures Live(g.gas, now) == Live(g.hist, now)
  {
    var p: int :| p <= now && g.gas == Live(g.hist, p);
    LiveLive(g.hist, p, now);
    assert Live(g.gas, now) == Live(g.hist, now);
  }

  lemma GoodCharge(policy: Policy, g: GState, tx: SignedTx, now: int)
    requires GoodState(policy, g, now) && g.gas == Live(g.hist, now)
    requires tx.MaxCost() <= Remaining(g.gas, policy.hourlyWei, GAS, now)
    ensures var c := ChargeGas(g, tx, now).(pending := None);
      GoodState(policy, c, now) && Amount(c.hist, tx, GAS) == tx.MaxCost()
  {
    var e := GasEntry(tx, now);
    SpendRefines(g.hist, now, e);
    SpendKeepsCap(g.hist, now, e, policy.hourlyWei);
    HistSpendUnique(g.hist, e);
    AmountOfSpent(g.hist, e);
    assert Live(HistSpend(g.hist, e), now) == Spend(g.gas, e);
  }

  lemma GoodSettle(policy: Policy, g: GState, tx: SignedTx, amount: nat, now: int)
    requires GoodState(policy, g, now) && amount <= Amount(g.hist, tx, GAS)
    ensures GoodState(policy, SettleGas(g, tx, amount).(pending := None), now)
  {
    var p: int :| p <= now && g.gas == Live(g.hist, p);
    SettleRefines(g.hist, p, tx, GAS, amount);
    SettleUnique(g.hist, tx, GAS, amount);
    SettleKeepsCap(g.hist, tx, GAS, amount, policy.hourlyWei);
    SettleNoneAfter(g.hist, tx, GAS, amount, now);
    assert SettleGas(g, tx, amount).gas == Live(Settle(g.hist, tx, GAS, amount), p);
  }

  /** Only the gas ledger, its history and the outstanding transaction matter to a good state. */
  lemma GoodSame(policy: Policy, g: GState, k: GState, now: int)
    requires GoodState(policy, g, now)
    requires k.gas == g.gas && k.hist == g.hist
    requires k.pending.Some? ==> Amount(g.hist, k.pending.value.tx, GAS) >= k.pending.value.tx.MaxCost()
    ensures GoodState(policy, k, now)
  {
    var p: int :| p <= now && g.gas == Live(g.hist, p);
    assert p <= now && k.gas == Live(k.hist, p);
  }

  lemma CoversCharge(g: GState, mined: map<SignedTx, nat>, tx: SignedTx, now: int)
    requires Unique(g.hist) && Covers(g, mined) && tx !in mined
    ensures Covers(ChargeGas(g, tx, now), mined)
  {
    forall m | m in mined ensures mined[m] <= Amount(ChargeGas(g, tx, now).hist, m, GAS) {
      AmountOfOther(g.hist, GasEntry(tx, now), m, GAS);
    }
  }

  lemma CoversSettle(g: GState, mined: map<SignedTx, nat>, tx: SignedTx, amount: nat)
    requires Unique(g.hist) && Covers(g, mined)
    requires tx in mined ==> mined[tx] == amount
    ensures Covers(SettleGas(g, tx, amount), mined)
  {
    forall m | m in mined ensures mined[m] <= Amount(SettleGas(g, tx, amount).hist, m, GAS) {
      if m == tx {
        AmountOfSettled(g.hist, tx, GAS, amount);
      } else {
        AmountOfOtherSettled(g.hist, tx, amount, m, GAS);
      }
    }
  }

  // ------------------------------------------------------- one micro step keeps Inv

  /** The parts of `Inv` a new memory state must bring along. */
  ghost predicate Fits(policy: Policy, w: World, g: GState) {
    && GoodState(policy, g, w.clock)
    && Covers(g, w.mined)
    && (forall tx | tx in w.mempool :: g.Holds(tx))
    && (forall tx | tx in Unresolved(w.log) :: g.Holds(tx))
  }

  lemma AppendSafe(init: GState, log: seq<Event>, ev: Event)
    requires SafeLog(init, log) && SafeAt(init, log + [ev], |log|)
    ensures SafeLog(init, log + [ev])
  {
    forall j | 0 <= j < |log + [ev]| ensures SafeAt(init, log + [ev], j) {
      if j < |log| {
        assert SafeAt(init, log, j);
        assert (log + [ev])[..j] == log[..j];
      }
    }
  }

  lemma AppendLog(init: GState, log: seq<Event>, ev: Event)
    ensures LastSaved(init, log + [ev]) == if ev.Commit? then ev.state else LastSaved(init, log)
    ensures Unresolved(log + [ev]) ==
            if ev.Handed? then Unresolved(log) + {ev.tx}
            else if ev.Closed? then Unresolved(log) - {ev.tx} else Unresolved(log)
  {
    assert (log + [ev])[..|log|] == log;
  }

  lemma QuietKeeps(policy: Policy, init: GState, w: World, g: GState)
    requires Inv(policy, init, w) && Fits(policy, w, g)
    requires Agrees(w, g)
    ensures Inv(policy, init, Apply(w, Micro(g, Quiet)))
  {
  }

  lemma CommitKeeps(policy: Policy, init: GState, w: World, g: GState)
    requires Inv(policy, init, w) && Fits(policy, w, g)
    ensures Inv(policy, init, Apply(w, Micro(g, Commit(g))))
  {
    AppendLog(init, w.log, Commit(g));
    AppendSafe(init, w.log, Commit(g));
  }

  lemma HandedKeeps(policy: Policy, init: GState, w: World, g: GState, tx: SignedTx, accepted: bool)
    requires Inv(policy, init, w) && Fits(policy, w, g)
    requires w.mem.Holds(tx) && g.Holds(tx) && tx !in w.mined && Agrees(w, g)
    ensures Inv(policy, init, Apply(w, Micro(g, Handed(tx, accepted))))
  {
    var ev := Handed(tx, accepted);
    AppendLog(init, w.log, ev);
    assert (w.log + [ev])[..|w.log|] == w.log;
    assert SafeAt(init, w.log + [ev], |w.log|);
    AppendSafe(init, w.log, ev);
  }

  lemma ClosedKeeps(policy: Policy, init: GState, w: World, g: GState, tx: SignedTx, how: Close)
    requires Inv(policy, init, w)
    requires GoodState(policy, g, w.clock) && Covers(g, w.mined) && g.pending.None?
    requires w.mem.Holds(tx) && tx !in w.mempool
    ensures Inv(policy, init, Apply(w, Micro(g, Closed(tx, how))))
  {
    AppendLog(init, w.log, Closed(tx, how));
    AppendSafe(init, w.log, Closed(tx, how));
  }

  lemma CrashKeeps(policy: Policy, init: GState, w: World)
    requires Inv(policy, init, w)
    ensures Inv(policy, init, Restarted(w))
  {
  }

  lemma MineKeeps(policy: Policy, init: GState, w: World, tx: SignedTx, cost: nat)
    requires Inv(policy, init, w) && tx in w.mempool && cost <= tx.MaxCost()
    ensures Inv(policy, init, w.(mempool := w.mempool - {tx}, mined := w.mined[tx := cost]))
  {
  }

  lemma NoteKeeps(policy: Policy, init: GState, w: World)
    requires Inv(policy, init, w)
    ensures Inv(policy, init, w.(unsavedFailure := true))
  {
  }

  lemma ClockKeeps(policy: Policy, init: GState, w: World, now: int)
    requires Inv(policy, init, w) && w.clock <= now
    ensures Inv(policy, init, w.(clock := now))
  {
    GoodLater(policy, w.mem, w.clock, now);
    GoodLater(policy, w.saved, w.clock, now);
  }

  // ---------------------------------------------------- whole operations, cut anywhere

  /** Every prefix of the micro steps leaves a world that keeps `Inv`. */
  ghost predicate Steady(policy: Policy, init: GState, w: World, ms: seq<Micro>)
    decreases |ms|
  {
    Inv(policy, init, w) && (ms != [] ==> Steady(policy, init, Apply(w, ms[0]), ms[1..]))
  }

  lemma {:induction false} SteadyPrefix(policy: Policy, init: GState, w: World, ms: seq<Micro>, k: nat)
    requires Steady(policy, init, w, ms) && k <= |ms|
    ensures Inv(policy, init, ApplyAll(w, ms[..k]))
    decreases k
  {
    if k > 0 {
      SteadyPrefix(policy, init, Apply(w, ms[0]), ms[1..], k - 1);
      assert ms[..k][1..] == ms[1..][..k - 1];
    }
  }

  lemma SteadyRun(policy: Policy, init: GState, w: World, ms: seq<Micro>, cut: Option<nat>)
    requires Steady(policy, init, w, ms)
    ensures Inv(policy, init, RunMicros(w, ms, cut))
  {
    if cut.None? {
      SteadyPrefix(policy, init, w, ms, |ms|);
      assert ms[..|ms|] == ms;
    } else {
      var k := Min(cut.value, |ms|);
      SteadyPrefix(policy, init, w, ms, k);
      CrashKeeps(policy, init, ApplyAll(w, ms[..k]));
    }
  }

  lemma SteadyCons(policy: Policy, init: GState, w: World, m: Micro, rest: seq<Micro>)
    requires Inv(policy, init, w) && Steady(policy, init, Apply(w, m), rest)
    ensures Steady(policy, init, w, [m] + rest)
  {
    assert ([m] + rest)[1..] == rest;
  }

  lemma SteadyOne(policy: Policy, init: GState, w: World, m: Micro)
    requires Inv(policy, init, w) && Inv(policy, init, Apply(w, m))
    ensures Steady(policy, init, w, [m])
  {
    assert [m] + [] == [m];
    SteadyCons(policy, init, w, m, []);
  }

  /** The record committed before the bytes go out. */
  lemma RecordedFits(policy: Policy, w: World, g: GState, req: Request, tx: SignedTx)
    requires GoodState(policy, g, w.clock) && Covers(g, w.mined) && g.gas == Live(g.hist, w.clock)
    requires tx.MaxCost() <= Remaining(g.gas, policy.hourlyWei, GAS, w.clock)
    requires tx !in w.mined && w.mempool == {} && Unresolved(w.log) == {}
    ensures Fits(policy, w, Recorded(g, req, tx, w.clock))
    ensures Unique(Recorded(g, req, tx, w.clock).hist)
  {
    var c := ChargeGas(g, tx, w.clock).(pending := None);
    GoodCharge(policy, g, tx, w.clock);
    CoversCharge(g, w.mined, tx, w.clock);
    GoodSame(policy, c, Recorded(g, req, tx, w.clock), w.clock);
  }

  lemma UndoneFits(policy: Policy, w: World, r: GState, req: Request, tx: SignedTx)
    requires GoodState(policy, r, w.clock) && Covers(r, w.mined) && tx !in w.mined
    ensures GoodState(policy, Undone(r, req, tx), w.clock) && Covers(Undone(r, req, tx), w.mined)
  {
    GoodSettle(policy, r, tx, 0, w.clock);
    CoversSettle(r, w.mined, tx, 0);
    GoodSame(policy, SettleGas(r, tx, 0).(pending := None), Undone(r, req, tx), w.clock);
  }

  /** A put that failed: what it left behind, and the undoing of the charge. */
  lemma FailedPutSteady(policy: Policy, init: GState, w: World, r: GState, req: Request, tx: SignedTx, put: PutResult)
    requires Inv(policy, init, w) && Fits(policy, w, r) && tx !in w.mined
    requires w.mempool == {} && Unresolved(w.log) == {}
    ensures Steady(policy, init, w, PutEvents(put, r) + [Micro(Undone(r, req, tx), Quiet)])
  {
    var undone := Micro(Undone(r, req, tx), Quiet);
    UndoneFits(policy, w, r, req, tx);
    if put == LostError {
      QuietKeeps(policy, init, w, undone.g);
      SteadyOne(policy, init, w, undone);
      assert [] + [undone] == [undone];
    } else {
      var v := Apply(w, Micro(r, Commit(r)));
      CommitKeeps(policy, init, w, r);
      AppendLog(init, w.log, Commit(r));
      QuietKeeps(policy, init, v, undone.g);
      SteadyOne(policy, init, v, undone);
      SteadyCons(policy, init, w, Micro(r, Commit(r)), [undone]);
    }
  }

  /** A refusal by the node: undone, then saved if the put succeeds. */
  lemma RefusedSteady(policy: Policy, init: GState, w: World, req: Request, tx: SignedTx, put: PutResult)
    requires Inv(policy, init, w) && w.mem.Holds(tx) && tx !in w.mined && tx !in w.mempool
    ensures var u := Undone(w.mem, req, tx);
      Steady(policy, init, w, [Micro(u, Closed(tx, NodeRefused))] + PutEvents(put, u))
  {
    var u := Undone(w.mem, req, tx);
    var v := Apply(w, Micro(u, Closed(tx, NodeRefused)));
    UndoneFits(policy, w, w.mem, req, tx);
    ClosedKeeps(policy, init, w, u, tx, NodeRefused);
    AppendLog(init, w.log, Closed(tx, NodeRefused));
    if put != LostError {
      CommitKeeps(policy, init, v, u);
      SteadyOne(policy, init, v, Micro(u, Commit(u)));
    }
    SteadyCons(policy, init, w, Micro(u, Closed(tx, NodeRefused)), PutEvents(put, u));
  }

  /** From the committed record on: hand the bytes over, undo if the node refuses them. */
  lemma HandOverSteady(policy: Policy, init: GState, w: World, req: Request, tx: SignedTx, a: BroadcastAnswers)
    requires Inv(policy, init, w) && w.mem.Holds(tx) && tx !in w.mined && tx !in w.mempool
    requires a.known == Some(false) ==> !a.accepted
    ensures Steady(policy, init, w, HandOver(w.mem, req, tx, a).0)
  {
    var handed := Micro(w.mem, Handed(tx, a.accepted));
    var v := Apply(w, handed);
    HandedKeeps(policy, init, w, w.mem, tx, a.accepted);
    if a.sendError && a.known == Some(false) {
      var u := Undone(w.mem, req, tx);
      RefusedSteady(policy, init, v, req, tx, a.put2);
      SteadyCons(policy, init, w, handed, [Micro(u, Closed(tx, NodeRefused))] + PutEvents(a.put2, u));
    } else {
      SteadyOne(policy, init, w, handed);
    }
  }

  lemma SendSteady(policy: Policy, init: GState, w: World, g: GState, req: Request, tx: SignedTx, a: BroadcastAnswers)
    requires Inv(policy, init, w) && w.mem.pending.None?
    requires GoodState(policy, g, w.clock) && Covers(g, w.mined) && g.gas == Live(g.hist, w.clock)
    requires tx.MaxCost() <= Remaining(g.gas, policy.hourlyWei, GAS, w.clock)
    requires tx !in w.mined && (a.known == Some(false) ==> !a.accepted)
    ensures Steady(policy, init, w, SendSteps(g, req, tx, w.clock, a).0)
  {
    var r := Recorded(g, req, tx, w.clock);
    RecordedFits(policy, w, g, req, tx);
    if a.put != Saved {
      FailedPutSteady(policy, init, w, r, req, tx, a.put);
    } else {
      CommitKeeps(policy, init, w, r);
      HandOverSteady(policy, init, Apply(w, Micro(r, Commit(r))), req, tx, a);
      SteadyCons(policy, init, w, Micro(r, Commit(r)), HandOver(r, req, tx, a).0);
    }
  }

  lemma BroadcastSteady(policy: Policy, init: GState, w: World, req: Request, a: BroadcastAnswers)
    requires Inv(policy, init, w)
    requires a.latest.Some? ==> forall tx | tx in w.mined :: tx.nonce < a.latest.value
    requires a.known == Some(false) ==> !a.accepted
    ensures Steady(policy, init, w, Broadcast(policy, w.mem, req, w.clock, a).0)
  {
    if w.mem.pending.None? && req.gasPrice <= policy.maxGasPriceWei {
      var pruned := w.mem.(gas := Live(w.mem.gas, w.clock));
      GoodPruned(policy, w.mem, w.clock);
      LiveLive(w.mem.gas, w.clock, w.clock);
      var ms := Broadcast(policy, w.mem, req, w.clock, a).0;
      if a.latest.Some? && Sends(policy, w.mem, req, w.clock, a) {
        var tx := Sign(req, a.latest.value);
        var g := pruned.(untracked := None);
        GoodSame(policy, pruned, g, w.clock);
        SendSteady(policy, init, w, g, req, tx, a);
      } else {
        GoodSame(policy, pruned, ms[0].g, w.clock);
        QuietKeeps(policy, init, w, ms[0].g);
        SteadyOne(policy, init, w, ms[0]);
      }
    }
  }

  lemma ReceiptSteady(policy: Policy, init: GState, w: World, r: Receipt)
    requires Inv(policy, init, w) && w.mem.pending.Some?
    requires var tx := w.mem.pending.value.tx; tx in w.mined && w.mined[tx] == ReceiptCost(r, tx)
    ensures Steady(policy, init, w, ReceiptStep(w.mem, w.mem.pending.value, r, w.clock).0)
  {
    var p := w.mem.pending.value;
    var settled := SettleGas(w.mem, p.tx, ReceiptCost(r, p.tx));
    var g := ApplyReceipt(w.mem, p, r, w.clock);
    GoodSettle(policy, w.mem, p.tx, ReceiptCost(r, p.tx), w.clock);
    CoversSettle(w.mem, w.mined, p.tx, ReceiptCost(r, p.tx));
    GoodSame(policy, settled.(pending := None), g, w.clock);
    var m := ReceiptStep(w.mem, p, r, w.clock).0[0];
    ClosedKeeps(policy, init, w, g, p.tx, m.ev.how);
    SteadyOne(policy, init, w, m);
  }

  lemma DropSteady(policy: Policy, init: GState, w: World, reason: Reason, how: Close)
    requires Inv(policy, init, w) && w.mem.pending.Some?
    requires w.mem.pending.value.tx !in w.mempool
    ensures var p := w.mem.pending.value;
      Steady(policy, init, w, [Micro(Drop(w.mem, p, w.clock, reason), Closed(p.tx, how))])
  {
    var p := w.mem.pending.value;
    var g := Drop(w.mem, p, w.clock, reason);
    GoodSame(policy, w.mem, g, w.clock);
    ClosedKeeps(policy, init, w, g, p.tx, how);
    SteadyOne(policy, init, w, Micro(g, Closed(p.tx, how)));
  }

  lemma UnminedSteady(policy: Policy, init: GState, w: World, known: Option<bool>)
    requires Inv(policy, init, w) && w.mem.pending.Some?
    requires var p := w.mem.pending.value;
      known == Some(false) && w.clock - p.sentAt >= PENDING_DROP_MS ==> p.tx !in w.mempool
    ensures Steady(policy, init, w, Unmined(policy, w.mem, w.mem.pending.value, w.clock, known).0)
  {
    var p := w.mem.pending.value;
    var age := w.clock - p.sentAt;
    if !p.timedOut && age >= policy.receiptTimeoutMs {
      var g := w.mem.(pending := Some(p.(timedOut := true)));
      GoodSame(policy, w.mem, g, w.clock);
      QuietKeeps(policy, init, w, g);
      SteadyOne(policy, init, w, Micro(g, Quiet));
    } else if age >= PENDING_DROP_MS && known == Some(false) {
      DropSteady(policy, init, w, NotFound(p.tx), DroppedUnknown);
    }
  }

  lemma OverdueSteady(policy: Policy, init: GState, w: World, a: ResolveAnswers)
    requires Inv(policy, init, w) && Truthful(w, DoResolve(w.clock, a, None))
    requires w.mem.pending.Some?
    ensures Steady(policy, init, w, ResolveOverdue(policy, w.mem, w.mem.pending.value, w.clock, a).0)
  {
    var p := w.mem.pending.value;
    if a.mined.Some? && a.mined.value > p.tx.nonce {
      if a.receipt2.Some? {
        ReceiptSteady(policy, init, w, a.receipt2.value);
      } else {
        DropSteady(policy, init, w, Replaced(p.tx), ReplacedByNonce);
      }
    } else if Rebroadcasts(p, w.clock, a.known) {
      ResendSteady(policy, init, w, a);
    } else {
      UnminedSteady(policy, init, w, a.known);
    }
  }

  lemma ResolveSteady(policy: Policy, init: GState, w: World, a: ResolveAnswers)
    requires Inv(policy, init, w) && Truthful(w, DoResolve(w.clock, a, None))
    ensures Steady(policy, init, w, Resolve(policy, w.mem, w.clock, a).0)
  {
    if w.mem.pending.Some? {
      if a.receipt.Some? {
        ReceiptSteady(policy, init, w, a.receipt.value);
      } else if !Overdue(w.mem.pending.value, w.clock) {
        UnminedSteady(policy, init, w, Some(true));
      } else {
        OverdueSteady(policy, init, w, a);
      }
    }
  }

  /** Notes on the outstanding transaction fit and agree. */
  lemma NotedFits(policy: Policy, init: GState, w: World, q: Pending)
    requires Inv(policy, init, w) && w.mem.pending.Some? && SameButNotes(w.mem.pending.value, q)
    ensures Fits(policy, w, w.mem.(pending := Some(q))) && Agrees(w, w.mem.(pending := Some(q)))
  {
    GoodSame(policy, w.mem, w.mem.(pending := Some(q)), w.clock);
  }

  lemma ResentKeeps(policy: Policy, init: GState, w: World, accepted: bool)
    requires Inv(policy, init, w) && w.mem.pending.Some? && w.mem.pending.value.tx !in w.mined
    requires w.mem.pending.value.rebroadcasts < REBROADCAST_MAX
    ensures var p := w.mem.pending.value;
      var resent := w.mem.(pending := Some(p.(rebroadcasts := p.rebroadcasts + 1, lastBroadcastAt := w.clock)));
      Inv(policy, init, Apply(w, Micro(resent, Handed(p.tx, accepted))))
  {
    var p := w.mem.pending.value;
    var resent := w.mem.(pending := Some(p.(rebroadcasts := p.rebroadcasts + 1, lastBroadcastAt := w.clock)));
    NotedFits(policy, init, w, resent.pending.value);
    HandedKeeps(policy, init, w, resent, p.tx, accepted);
  }

  /** The bytes handed over again, and what the look says then. */
  function ResendMicros(policy: Policy, g: GState, p: Pending, now: int, a: ResolveAnswers): seq<Micro> {
    var q := p.(rebroadcasts := p.rebroadcasts + 1, lastBroadcastAt := now);
    var resent := g.(pending := Some(q));
    [Micro(resent, Handed(p.tx, a.accepted))] + Unmined(policy, resent, q, now, a.known).0
  }

  lemma ResendSteady(policy: Policy, init: GState, w: World, a: ResolveAnswers)
    requires Inv(policy, init, w) && w.mem.pending.Some?
    requires var p := w.mem.pending.value; p.tx !in w.mined && Rebroadcasts(p, w.clock, a.known)
    ensures Steady(policy, init, w, ResendMicros(policy, w.mem, w.mem.pending.value, w.clock, a))
  {
    var p := w.mem.pending.value;
    var q := p.(rebroadcasts := p.rebroadcasts + 1, lastBroadcastAt := w.clock);
    var resent := w.mem.(pending := Some(q));
    var handed, rest := Micro(resent, Handed(p.tx, a.accepted)), Unmined(policy, resent, q, w.clock, a.known).0;
    ResentKeeps(policy, init, w, a.accepted);
    UnminedSteady(policy, init, Apply(w, handed), a.known);
    SteadyCons(policy, init, w, handed, rest);
    assert ResendMicros(policy, w.mem, p, w.clock, a) == [handed] + rest;
  }

  // -------------------------------------------------------------- runs and theorems

  /** Every step of every run keeps the invariant. */
  lemma NextKeeps(policy: Policy, init: GState, w: World, s: Step)
    requires Inv(policy, init, w) && Truthful(w, s)
    ensures Inv(policy, init, Next(policy, w, s))
  {
    var v := w.(clock := Time(w, s));
    ClockKeeps(policy, init, w, v.clock);
    match s
    case DoBroadcast(req, _, a, cut) =>
      BroadcastSteady(policy, init, v, req, a);
      SteadyRun(policy, init, v, Micros(policy, w, s), cut);
    case DoResolve(_, a, cut) =>
      ResolveSteady(policy, init, v, a);
      SteadyRun(policy, init, v, Micros(policy, w, s), cut);
    case DoSave(cut) =>
      CommitKeeps(policy, init, v, v.mem);
      SteadyOne(policy, init, v, Micro(v.mem, Commit(v.mem)));
      SteadyRun(policy, init, v, Micros(policy, w, s), cut);
    case Crash => CrashKeeps(policy, init, v);
    case Mine(tx, cost) => MineKeeps(policy, init, v, tx, cost);
    case Forget(tx) =>
    case DoSimFail(_, _, _) =>
      var u := v.(unsavedFailure := w.unsavedFailure || w.mem.pending.Some?);
      NoteKeeps(policy, init, v);
      QuietOpSteady(policy, init, u, s);
      SteadyRun(policy, init, u, Micros(policy, w, s), None);
    case _ =>
      QuietOpSteady(policy, init, v, s);
      SteadyRun(policy, init, v, Micros(policy, w, s), None);
  }

  lemma QuietOpSteady(policy: Policy, init: GState, w: World, s: Step)
    requires Inv(policy, init, w) && w.clock == Time(w, s)
    requires s.DoSimFail? || s.DoStatus? || s.DoAnnotate?
    requires s.DoSimFail? && w.mem.pending.Some? ==> w.unsavedFailure
    ensures Steady(policy, init, w, Micros(policy, w, s))
  {
    var ms := Micros(policy, w, s);
    if ms != [] {
      if s.DoStatus? {
        GoodPruned(policy, w.mem, w.clock);
      } else {
        GoodSame(policy, w.mem, ms[0].g, w.clock);
      }
      QuietKeeps(policy, init, w, ms[0].g);
      SteadyOne(policy, init, w, ms[0]);
    }
  }
}
