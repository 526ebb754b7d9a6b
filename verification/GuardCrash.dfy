/**
 * What a crash may change of a transaction that is outstanding: two runs from the same
 * point, with crashes and restarts anywhere in either, settle it the same way.
 */
module GuardCrash {
  import opened Common
  import opened Ledger
  import opened GuardSpec
  import opened GuardRuns
  import opened GuardTheorems

  /**
   * A step taken while a transaction is outstanding: looks, saves, reads, crashes, the node;
   * no send, and in a calm run no pre-send failure.
   */
  predicate Watching(calm: bool, s: Step) {
    !s.DoBroadcast? && (calm ==> !s.DoSimFail?)
  }

  /** While the transaction is outstanding, `g` is `g0` but for the notes on it, in a calm run its backoff too. */
  ghost predicate Alike(calm: bool, g0: GState, g: GState)
    requires g0.pending.Some?
  {
    g.pending.Some? ==>
      && SameButNotes(g0.pending.value, g.pending.value) && g.hist == g0.hist && g.budgets == g0.budgets
      && (calm ==> g.blocks == g0.blocks)
  }

  ghost predicate MicrosAlike(calm: bool, g0: GState, ms: seq<Micro>)
    requires g0.pending.Some?
    decreases |ms|
  {
    ms == [] ||
    (Alike(calm, g0, ms[0].g) && (ms[0].ev.Commit? ==> ms[0].ev.state == ms[0].g) && MicrosAlike(calm, g0, ms[1..]))
  }

  lemma UnminedAlike(policy: Policy, calm: bool, g0: GState, g: GState, p: Pending, now: int, known: Option<bool>)
    requires g0.pending.Some? && g.pending == Some(p) && Alike(calm, g0, g)
    ensures MicrosAlike(calm, g0, Unmined(policy, g, p, now, known).0)
  {
  }

  lemma LookAlike(policy: Policy, calm: bool, g0: GState, g: GState, now: int, a: ResolveAnswers)
    requires g0.pending.Some? && Alike(calm, g0, g)
    ensures MicrosAlike(calm, g0, Resolve(policy, g, now, a).0)
  {
    if g.pending.Some? && a.receipt.None? {
      var p := g.pending.value;
      UnminedAlike(policy, calm, g0, g, p, now, Some(true));
      UnminedAlike(policy, calm, g0, g, p, now, a.known);
      if Overdue(p, now) && !(a.mined.Some? && a.mined.value > p.tx.nonce) && Rebroadcasts(p, now, a.known) {
        var q := p.(rebroadcasts := p.rebroadcasts + 1, lastBroadcastAt := now);
        var resent := g.(pending := Some(q));
        UnminedAlike(policy, calm, g0, resent, q, now, a.known);
        var rest := Unmined(policy, resent, q, now, a.known).0;
        assert ([Micro(resent, Handed(p.tx, a.accepted))] + rest)[1..] == rest;
      }
    }
  }

  lemma {:induction false} ApplyAlike(calm: bool, g0: GState, w: World, ms: seq<Micro>, k: nat)
    requires g0.pending.Some? && Alike(calm, g0, w.mem) && Alike(calm, g0, w.saved) && MicrosAlike(calm, g0, ms)
    requires k <= |ms|
    ensures Alike(calm, g0, ApplyAll(w, ms[..k]).mem) && Alike(calm, g0, ApplyAll(w, ms[..k]).saved)
    decreases k
  {
    if k > 0 {
      ApplyAlike(calm, g0, Apply(w, ms[0]), ms[1..], k - 1);
      assert ms[..k][1..] == ms[1..][..k - 1];
    }
  }

  lemma RunMicrosAlike(calm: bool, g0: GState, w: World, ms: seq<Micro>, cut: Option<nat>)
    requires g0.pending.Some? && Alike(calm, g0, w.mem) && Alike(calm, g0, w.saved) && MicrosAlike(calm, g0, ms)
    ensures Alike(calm, g0, RunMicros(w, ms, cut).mem) && Alike(calm, g0, RunMicros(w, ms, cut).saved)
  {
    var k := if cut.None? then |ms| else Min(cut.value, |ms|);
    ApplyAlike(calm, g0, w, ms, k);
    assert ms[..|ms|] == ms;
  }

  lemma NextAlike(policy: Policy, calm: bool, g0: GState, w: World, s: Step)
    requires g0.pending.Some? && Alike(calm, g0, w.mem) && Alike(calm, g0, w.saved) && Watching(calm, s)
    ensures Alike(calm, g0, Next(policy, w, s).mem) && Alike(calm, g0, Next(policy, w, s).saved)
  {
    var at, ms := w.(clock := Time(w, s)), Micros(policy, w, s);
    match s {
      case DoResolve(now, a, cut) =>
        LookAlike(policy, calm, g0, w.mem, now, a);
        RunMicrosAlike(calm, g0, at, ms, cut);
      case DoSave(cut) => RunMicrosAlike(calm, g0, at, ms, cut);
      case DoStatus(now) => RunMicrosAlike(calm, g0, at, ms, None);
      case DoSimFail(_, _, _) =>
        RunMicrosAlike(calm, g0, at.(unsavedFailure := w.unsavedFailure || w.mem.pending.Some?), ms, None);
      case DoAnnotate(f) => RunMicrosAlike(calm, g0, at, ms, None);
      case _ =>
    }
  }

  lemma {:induction false} RunAlike(policy: Policy, calm: bool, g0: GState, w: World, steps: seq<Step>)
    requires g0.pending.Some? && Alike(calm, g0, w.mem) && Alike(calm, g0, w.saved)
    requires forall s | s in steps :: Watching(calm, s)
    ensures Alike(calm, g0, Run(policy, w, steps).mem)
    decreases |steps|
  {
    if steps != [] {
      NextAlike(policy, calm, g0, w, steps[0]);
      RunAlike(policy, calm, g0, Next(policy, w, steps[0]), steps[1..]);
    }
  }

  lemma {:induction false} RunConcat(policy: Policy, w: World, a: seq<Step>, b: seq<Step>)
    ensures Run(policy, w, a + b) == Run(policy, Run(policy, w, a), b)
    ensures TruthfulRun(policy, w, a + b) ==> TruthfulRun(policy, w, a) && TruthfulRun(policy, Run(policy, w, a), b)
    decreases |a|
  {
    if a == [] {
      assert a + b == b;
    } else {
      assert (a + b)[1..] == a[1..] + b;
      RunConcat(policy, Next(policy, w, a[0]), a[1..], b);
    }
  }

  /** Nothing about the backoff is unsaved, and nothing in `more` changes it before the close. */
  ghost predicate Calm(v: World, more: seq<Step>) {
    !v.unsavedFailure && forall s | s in more :: !s.DoSimFail?
  }

  /** A further stretch with the transaction still outstanding: the state it was in, but for the notes. */
  lemma StillAlike(policy: Policy, init: GState, v: World, more: seq<Step>)
    requires Inv(policy, init, v) && v.mem.pending.Some? && TruthfulRun(policy, v, more)
    requires forall s | s in more :: !s.DoBroadcast?
    ensures var m := Run(policy, v, more);
      Alike(Calm(v, more), v.mem, m.mem) && GoodState(policy, m.mem, m.clock)
  {
    RunKeeps(policy, init, v, more);
    RunAlike(policy, Calm(v, more), v.mem, v, more);
  }

  // ----------------------------------------------------------------------- the close

  /** The state after a look. */
  function After(policy: Policy, g: GState, now: int, a: ResolveAnswers): GState {
    Final(g, Resolve(policy, g, now, a).0)
  }

  /** There is something a timely revert would release. */
  predicate Releasable(g: GState) {
    && g.pending.Some? && g.pending.value.reserved.Some?
    && g.pending.value.reserved.value.budget in g.budgets
    && !FreshIn(g.budgets[g.pending.value.reserved.value.budget],
         g.pending.value.tx, g.pending.value.reserved.value.token)
  }

  lemma ReleaseChanges(g: GState)
    requires g.pending.Some?
    ensures Release(g, g.pending.value.reserved, g.pending.value.tx).budgets == g.budgets <==> !Releasable(g)
  {
    var p := g.pending.value;
    var released := Release(g, p.reserved, p.tx);
    if Releasable(g) {
      var b := p.reserved.value.budget;
      assert |released.budgets[b]| == |g.budgets[b]| - 1;
    } else {
      assert released.budgets == g.budgets;
    }
  }

  /** The status of a close, from the answer that closed it. */
  function ClosingStatus(p: Pending, a: ResolveAnswers): Status {
    if a.receipt.Some? then ReceiptStatus(p, a.receipt.value)
    else if a.mined.Some? && a.mined.value > p.tx.nonce then
      if a.receipt2.Some? then ReceiptStatus(p, a.receipt2.value) else Dropped(true, p.tx.MaxCost())
    else Dropped(false, p.tx.MaxCost())
  }

  function ReceiptStatus(p: Pending, r: Receipt): Status {
    if r.success then Success(ReceiptCost(r, p.tx)) else RevertedTx(ReceiptCost(r, p.tx))
  }

  lemma ClosedStatus(policy: Policy, g: GState, now: int, a: ResolveAnswers)
    requires g.pending.Some? && After(policy, g, now, a).pending.None?
    ensures Resolve(policy, g, now, a).1 == ClosingStatus(g.pending.value, a)
  {
  }

  /** The backoff after a close, from the answer that closed it. */
  function ClosingBlocks(b: Blocks, p: Pending, now: int, a: ResolveAnswers): Blocks {
    if a.receipt.Some? then ReceiptBlocks(b, p, a.receipt.value.success, now)
    else if a.mined.Some? && a.mined.value > p.tx.nonce then
      if a.receipt2.Some? then ReceiptBlocks(b, p, a.receipt2.value.success, now)
      else DropBlocks(b, p, now, Replaced(p.tx))
    else DropBlocks(b, p, now, NotFound(p.tx))
  }

  lemma ClosedBlocks(policy: Policy, g: GState, now: int, a: ResolveAnswers)
    requires g.pending.Some? && After(policy, g, now, a).pending.None?
    ensures After(policy, g, now, a).blocks == ClosingBlocks(g.blocks, g.pending.value, now, a)
  {
  }

  /** Both depend on the state before and on nothing a look notes. */
  lemma SameClose(b: Blocks, p: Pending, q: Pending, now: int, a: ResolveAnswers)
    requires SameButNotes(p, q)
    ensures ClosingStatus(p, a) == ClosingStatus(q, a)
    ensures ClosingBlocks(b, p, now, a) == ClosingBlocks(b, q, now, a)
  {
  }

  /** After a success the backoff does not depend on the time. */
  lemma SuccessBlocks(b: Blocks, p: Pending, now: int, later: int, a: ResolveAnswers)
    ensures now == later || ClosingStatus(p, a).Success? ==>
      ClosingBlocks(b, p, now, a) == ClosingBlocks(b, p, later, a)
  {
  }

  lemma SettledLive(policy: Policy, g: GState, clock: int, now: int, a: ResolveAnswers, t: int)
    requires g.pending.Some? && GoodState(policy, g, clock) && clock <= now <= t
    ensures Live(After(policy, g, now, a).gas, t) == Live(After(policy, g, now, a).hist, t)
  {
    OneLook(policy, g, now, a);
    var p: int :| p <= clock && g.gas == Live(g.hist, p);
    var s := Resolve(policy, g, now, a).1;
    if s.Success? || s.RevertedTx? {
      SettleRefines(g.hist, p, g.pending.value.tx, GAS, s.cost);
    }
    LiveLive(After(policy, g, now, a).hist, p, t);
  }

  /**
   * Two states `m` and `s` of one transaction, outstanding since `v`, closed by the same
   * answer at `now` and `later`: the same status and cost, the same gas history, ledgers
   * that read the same at `t`, and each backoff the one the answer makes of `v`'s. The
   * budgets agree if and only if the close is no revert, or both carry the same timeout
   * mark, or `v` held nothing to release.
   */
  ghost predicate SettledAlike(
    policy: Policy, v: GState, m: GState, s: GState, now: int, later: int, a: ResolveAnswers, t: int, calmM: bool,
    calmS: bool)
    requires v.pending.Some? && m.pending.Some? && s.pending.Some?
  {
    var x, y := After(policy, m, now, a), After(policy, s, later, a);
    var status := ClosingStatus(v.pending.value, a);
    && Resolve(policy, m, now, a).1 == status && Resolve(policy, s, later, a).1 == status
    && x.hist == y.hist && Live(x.gas, t) == Live(y.gas, t)
    && (calmM ==> x.blocks == ClosingBlocks(v.blocks, v.pending.value, now, a))
    && (calmS ==> y.blocks == ClosingBlocks(v.blocks, v.pending.value, later, a))
    && (calmM && calmS && (now == later || status.Success?) ==> x.blocks == y.blocks)
    && (x.budgets == y.budgets <==>
          !status.RevertedTx? || m.pending.value.timedOut == s.pending.value.timedOut || !Releasable(v))
  }

  /** The run's state is one the answer closes, read no earlier than the run got to. */
  ghost predicate Closes(policy: Policy, m: World, now: int, a: ResolveAnswers) {
    m.clock <= now && m.mem.pending.Some? && After(policy, m.mem, now, a).pending.None?
  }

  /** What one closed run comes to, against the state it started from. */
  lemma OneClose(policy: Policy, init: GState, v: World, more: seq<Step>, now: int, a: ResolveAnswers, t: int)
    requires Inv(policy, init, v) && v.mem.pending.Some? && TruthfulRun(policy, v, more)
    requires forall s | s in more :: !s.DoBroadcast?
    requires Closes(policy, Run(policy, v, more), now, a) && now <= t
    ensures var m := Run(policy, v, more).mem;
      var x, status := After(policy, m, now, a), ClosingStatus(v.mem.pending.value, a);
      && Resolve(policy, m, now, a).1 == status
      && x.hist == GasAfter(v.mem.hist, v.mem.pending.value, status) && Live(x.gas, t) == Live(x.hist, t)
      && (Calm(v, more) ==> x.blocks == ClosingBlocks(v.mem.blocks, v.mem.pending.value, now, a))
      && x.budgets == BudgetsAfter(v.mem, v.mem.pending.value, status, m.pending.value.timedOut)
  {
    var m := Run(policy, v, more);
    StillAlike(policy, init, v, more);
    ClosedStatus(policy, m.mem, now, a);
    SameClose(v.mem.blocks, v.mem.pending.value, m.mem.pending.value, now, a);
    OneLook(policy, m.mem, now, a);
    SettledLive(policy, m.mem, m.clock, now, a, t);
    ClosedBlocks(policy, m.mem, now, a);
  }

  /** Two runs from worlds with the same memory. */
  lemma BothClose(
    policy: Policy, init: GState, v: World, u: World, one: seq<Step>, other: seq<Step>, now: int, later: int,
    a: ResolveAnswers, t: int)
    requires Inv(policy, init, v) && Inv(policy, init, u) && v.mem == u.mem && v.mem.pending.Some?
    requires TruthfulRun(policy, v, one) && TruthfulRun(policy, u, other)
    requires forall s | s in one || s in other :: !s.DoBroadcast?
    requires Closes(policy, Run(policy, v, one), now, a) && Closes(policy, Run(policy, u, other), later, a)
    requires now <= t && later <= t
    ensures SettledAlike(
      policy, v.mem, Run(policy, v, one).mem, Run(policy, u, other).mem, now, later, a, t, Calm(v, one), Calm(u, other))
  {
    OneClose(policy, init, v, one, now, a, t);
    OneClose(policy, init, u, other, later, a, t);
    ReleaseChanges(v.mem);
    SuccessBlocks(v.mem.blocks, v.mem.pending.value, now, later, a);
  }

  /**
   * Two runs that part after `steps` with a transaction outstanding, each with any looks,
   * saves, crashes and restarts after that, settle it alike (`SettledAlike`), whenever each
   * reads the closing answer.
   */
  lemma CrashesSettleAlikeIff(
    policy: Policy, w: World, steps: seq<Step>, one: seq<Step>, other: seq<Step>, now: int, later: int,
    a: ResolveAnswers,
    t: int)
    requires Started(w) && TruthfulRun(policy, w, steps + one) && TruthfulRun(policy, w, steps + other)
    requires Run(policy, w, steps).mem.pending.Some?
    requires forall s | s in one || s in other :: !s.DoBroadcast?
    requires Closes(policy, Run(policy, w, steps + one), now, a)
    requires Closes(policy, Run(policy, w, steps + other), later, a)
    requires now <= t && later <= t
    ensures var v := Run(policy, w, steps);
      SettledAlike(
        policy, v.mem, Run(policy, w, steps + one).mem, Run(policy, w, steps + other).mem, now, later, a, t,
        Calm(v, one), Calm(v, other))
  {
    var v := Run(policy, w, steps);
    RunConcat(policy, w, steps, one);
    RunConcat(policy, w, steps, other);
    StartedInv(policy, w);
    RunKeeps(policy, w.mem, w, steps);
    BothClose(policy, w.mem, v, v, one, other, now, later, a, t);
  }

  // ------------------------------------------------------------- a crash in the send

  lemma TwoMicros(w: World, x: Micro, y: Micro)
    ensures ApplyAll(w, [x]) == Apply(w, x) && ApplyAll(w, [x, y]) == Apply(Apply(w, x), y)
  {
    assert [x][1..] == [] && [y][1..] == [] && [x, y][1..] == [y];
    assert ApplyAll(Apply(w, x), []) == Apply(w, x);
    assert ApplyAll(Apply(w, x), [y]) == ApplyAll(Apply(Apply(w, x), y), []);
  }

  /** A send that happens commits its record, then hands the bytes over. */
  lemma SentMicros(policy: Policy, g: GState, req: Request, at: int, a: BroadcastAnswers)
    requires Broadcast(policy, g, req, at, a).1.Sent?
    ensures Sends(policy, g, req, at, a)
    ensures var tx := Sign(req, a.latest.value);
      var r := Recorded(g.(gas := Live(g.gas, at), untracked := None), req, tx, at);
      Broadcast(policy, g, req, at, a).0 == [Micro(r, Commit(r)), Micro(r, Handed(tx, a.accepted))] && r.Holds(tx)
  {
  }

  /** A send cut anywhere after its commit leaves the same memory and record as the whole send. */
  lemma CutSendIsRecorded(policy: Policy, w: World, req: Request, at: int, a: BroadcastAnswers, k: nat)
    requires Broadcast(policy, w.mem, req, at, a).1.Sent? && k >= 1
    ensures var whole := Next(policy, w, DoBroadcast(req, at, a, None));
      var cut := Next(policy, w, DoBroadcast(req, at, a, Some(k)));
      && whole.mem == cut.mem && whole.saved == cut.saved == whole.mem
      && a.latest.Some? && whole.mem.Holds(Sign(req, a.latest.value))
  {
    var v := w.(clock := at);
    var ms := Broadcast(policy, w.mem, req, at, a).0;
    SentMicros(policy, w.mem, req, at, a);
    TwoMicros(v, ms[0], ms[1]);
    assert ms == [ms[0], ms[1]] && ms[..1] == [ms[0]] && ms[..2] == ms;
  }

  /**
   * The crash that recording before broadcasting is for: one run sends, the other crashes
   * anywhere between the commit and the end of that send. With any looks, saves, crashes and
   * restarts after that in either, they too settle the transaction alike.
   */
  lemma CrashedSendSettlesAlikeIff(
    policy: Policy, w: World, steps: seq<Step>, req: Request, at: int, send: BroadcastAnswers, k: nat,
    one: seq<Step>, other: seq<Step>, now: int, later: int, a: ResolveAnswers, t: int)
    requires var whole, cut := [DoBroadcast(req, at, send, None)], [DoBroadcast(req, at, send, Some(k))];
      && TruthfulRun(policy, w, steps + whole + one) && TruthfulRun(policy, w, steps + cut + other)
      && Closes(policy, Run(policy, w, steps + whole + one), now, a)
      && Closes(policy, Run(policy, w, steps + cut + other), later, a)
    requires Started(w) && Broadcast(policy, Run(policy, w, steps).mem, req, at, send).1.Sent? && k >= 1
    requires forall s | s in one || s in other :: !s.DoBroadcast?
    requires now <= t && later <= t
    ensures var whole, cut := [DoBroadcast(req, at, send, None)], [DoBroadcast(req, at, send, Some(k))];
      var v, u := Run(policy, w, steps + whole), Run(policy, w, steps + cut);
      && v.mem == u.mem == v.saved == u.saved && v.mem.Holds(Sign(req, send.latest.value))
      && SettledAlike(
           policy, v.mem, Run(policy, w, steps + whole + one).mem, Run(policy, w, steps + cut + other).mem,
           now, later, a, t,
           Calm(v, one), Calm(u, other))
  {
    var whole, cut := [DoBroadcast(req, at, send, None)], [DoBroadcast(req, at, send, Some(k))];
    var v, u := Run(policy, w, steps + whole), Run(policy, w, steps + cut);
    RunConcat(policy, w, steps + whole, one);
    RunConcat(policy, w, steps + cut, other);
    OneMore(policy, w, steps, whole[0]);
    OneMore(policy, w, steps, cut[0]);
    CutSendIsRecorded(policy, Run(policy, w, steps), req, at, send, k);
    StartedInv(policy, w);
    RunKeeps(policy, w.mem, w, steps + whole);
    RunKeeps(policy, w.mem, w, steps + cut);
    BothClose(policy, w.mem, v, u, one, other, now, later, a, t);
  }

  lemma OneMore(policy: Policy, w: World, steps: seq<Step>, s: Step)
    ensures Run(policy, w, steps + [s]) == Next(policy, Run(policy, w, steps), s)
  {
    RunConcat(policy, w, steps, [s]);
    assert [s][1..] == [];
    assert Run(policy, Next(policy, Run(policy, w, steps), s), []) == Next(policy, Run(policy, w, steps), s);
  }
}
