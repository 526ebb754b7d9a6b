/**
 * What the transaction lifecycle promises: over every run with crashes (module GuardRuns)
 * and, exactly, for one transaction from its send to its resolution.
 */
module GuardTheorems {
  import opened Common
  import opened Ledger
  import opened GuardSpec
  import opened GuardRuns

  // ------------------------------------------------------------------ every run

  function Run(policy: Policy, w: World, steps: seq<Step>): World
    decreases |steps|
  {
    if steps == [] then w else Run(policy, Next(policy, w, steps[0]), steps[1..])
  }

  ghost predicate TruthfulRun(policy: Policy, w: World, steps: seq<Step>)
    decreases |steps|
  {
    steps != [] ==> Truthful(w, steps[0]) && TruthfulRun(policy, Next(policy, w, steps[0]), steps[1..])
  }

  /** A filler started on an empty store. */
  ghost predicate Started(w: World) {
    && w.mem == w.saved
    && w.mem.gas == [] && w.mem.hist == [] && w.mem.pending.None?
    && w.log == [] && w.mempool == {} && w.mined == map[] && !w.unsavedFailure
  }

  lemma {:induction false} RunKeeps(policy: Policy, init: GState, w: World, steps: seq<Step>)
    requires Inv(policy, init, w) && TruthfulRun(policy, w, steps)
    ensures Inv(policy, init, Run(policy, w, steps))
    decreases |steps|
  {
    if steps != [] {
      NextKeeps(policy, init, w, steps[0]);
      RunKeeps(policy, init, Next(policy, w, steps[0]), steps[1..]);
    }
  }

  lemma StartedInv(policy: Policy, w: World)
    requires Started(w)
    ensures Inv(policy, w.mem, w)
  {
    assert w.clock <= w.clock && w.mem.gas == Live(w.mem.hist, w.clock);
  }

  /**
   * In every run, with crashes between any two steps: whenever raw bytes were handed to
   * the node, the committed record already held them as the outstanding transaction,
   * charged at gas limit x price, and no other transaction was unresolved.
   */
  lemma SentOnlyCommittedAndAlone(policy: Policy, w: World, steps: seq<Step>)
    requires Started(w) && TruthfulRun(policy, w, steps)
    ensures var log := Run(policy, w, steps).log;
      forall j | 0 <= j < |log| && log[j].Handed? ::
        && LastSaved(w.mem, log[..j]).Holds(log[j].tx)
        && Amount(LastSaved(w.mem, log[..j]).hist, log[j].tx, GAS) >= log[j].tx.MaxCost()
        && Unresolved(log[..j]) <= {log[j].tx}
  {
    StartedInv(policy, w);
    RunKeeps(policy, w.mem, w, steps);
    var log := Run(policy, w, steps).log;
    assert forall j | 0 <= j < |log| && log[j].Handed? :: SafeAt(w.mem, log, j);
  }

  /** What the node may still mine is outstanding and charged, in memory and in the store. */
  lemma MempoolIsCharged(policy: Policy, w: World, steps: seq<Step>, tx: SignedTx)
    requires Started(w) && TruthfulRun(policy, w, steps)
    requires tx in Run(policy, w, steps).mempool
    ensures var v := Run(policy, w, steps);
      && v.mem.Holds(tx) && Amount(v.mem.hist, tx, GAS) >= tx.MaxCost()
      && v.saved.Holds(tx) && Amount(v.saved.hist, tx, GAS) >= tx.MaxCost()
  {
    StartedInv(policy, w);
    RunKeeps(policy, w.mem, w, steps);
    assert Outstanding(Run(policy, w, steps), tx);
  }

  // ----------------------------------------------------------- the rolling gas cap

  /** When the ledger last charged a send of `tx`. */
  function LatestSend(h: seq<Entry>, tx: SignedTx): Option<int> {
    var i := Find(h, tx, GAS);
    if i < |h| then Some(h[i].at) else None
  }

  predicate SentIn(h: seq<Entry>, tx: SignedTx, t: int) {
    LatestSend(h, tx).Some? && t - WINDOW_MS < LatestSend(h, tx).value <= t
  }

  /** Total gas cost really paid for the transactions of a list. */
  function Paid(mined: map<SignedTx, nat>, txs: seq<SignedTx>): nat
    requires forall tx | tx in txs :: tx in mined
  {
    if txs == [] then 0 else mined[txs[0]] + Paid(mined, txs[1..])
  }

  ghost predicate Distinct<T>(s: seq<T>) {
    forall i, j | 0 <= i < j < |s| :: s[i] != s[j]
  }

  lemma {:induction false} PaidWithin(h: seq<Entry>, mined: map<SignedTx, nat>, txs: seq<SignedTx>, t: int)
    requires Unique(h) && Distinct(txs)
    requires forall tx | tx in txs :: tx in mined && mined[tx] <= Amount(h, tx, GAS) && SentIn(h, tx, t)
    ensures Paid(mined, txs) <= Sum(h, WindowWeight(GAS, t))
    decreases |txs|
  {
    if txs != [] {
      var tx := txs[0];
      var i := Find(h, tx, GAS);
      assert tx in txs;
      var k := Removed(h, i);
      assert k == Settle(h, tx, GAS, 0);
      SettleUnique(h, tx, GAS, 0);
      SumSplit(h, i, WindowWeight(GAS, t));
      forall x | x in txs[1..] ensures x in mined && mined[x] <= Amount(k, x, GAS) && SentIn(k, x, t) {
        assert x in txs && x != tx;
        AmountOfOtherSettled(h, tx, 0, x, GAS);
        LatestSendOfOther(h, tx, x);
      }
      PaidWithin(k, mined, txs[1..], t);
    }
  }

  lemma LatestSendOfOther(h: seq<Entry>, tx: SignedTx, x: SignedTx)
    requires Unique(h) && x != tx && Find(h, x, GAS) < |h|
    ensures LatestSend(Settle(h, tx, GAS, 0), x) == LatestSend(h, x)
  {
    var k := Settle(h, tx, GAS, 0);
    var e := h[Find(h, x, GAS)];
    SettleUnique(h, tx, GAS, 0);
    SettleMembers(h, tx, GAS, 0, e);
    assert e in h;
    var n :| 0 <= n < |k| && k[n] == e;
    FindAt(k, n, x, GAS);
  }

  /**
   * The rolling gas cap, over whole runs with crashes: in every one-hour window the gas
   * REALLY PAID for transactions whose latest send falls in it is at most the hourly cap,
   * and every mined transaction that cost anything has such a send.
   */
  lemma HourlyGasCap(policy: Policy, w: World, steps: seq<Step>, t: int, txs: seq<SignedTx>)
    requires Started(w) && TruthfulRun(policy, w, steps)
    requires Distinct(txs)
    requires var v := Run(policy, w, steps); forall tx | tx in txs :: tx in v.mined && SentIn(v.mem.hist, tx, t)
    ensures Paid(Run(policy, w, steps).mined, txs) <= policy.hourlyWei
    ensures var v := Run(policy, w, steps);
      forall tx | tx in v.mined && v.mined[tx] > 0 :: LatestSend(v.mem.hist, tx).Some?
  {
    StartedInv(policy, w);
    RunKeeps(policy, w.mem, w, steps);
    var v := Run(policy, w, steps);
    PaidWithin(v.mem.hist, v.mined, txs, t);
    assert Sum(v.mem.hist, WindowWeight(GAS, t)) <= policy.hourlyWei;
  }

  /**
   * The ledgers themselves, over whole runs with crashes: in memory and in the store, every
   * one-hour window of the gas charged (limit x price at the send, the real cost once
   * settled, an earlier send of the same bytes replaced) is within the hourly cap, and the
   * pruned ledger the guard consults is that history's live part.
   */
  lemma LedgersWithinCap(policy: Policy, w: World, steps: seq<Step>, t: int)
    requires Started(w) && TruthfulRun(policy, w, steps)
    ensures var v := Run(policy, w, steps);
      && Sum(v.mem.hist, WindowWeight(GAS, t)) <= policy.hourlyWei
      && Sum(v.saved.hist, WindowWeight(GAS, t)) <= policy.hourlyWei
      && exists p: int :: p <= v.clock && v.mem.gas == Live(v.mem.hist, p)
  {
    StartedInv(policy, w);
    RunKeeps(policy, w.mem, w, steps);
  }

  // ------------------------------------------------------------------- one tick

  /** One attempt of a strategy, or of the rebalancer, to send. */
  datatype Attempt = Attempt(req: Request, now: int, a: BroadcastAnswers)

  function AfterAttempts(policy: Policy, g: GState, attempts: seq<Attempt>): GState
    decreases |attempts|
  {
    if attempts == [] then g
    else
      var x := attempts[0];
      AfterAttempts(policy, Final(g, Broadcast(policy, g, x.req, x.now, x.a).0), attempts[1..])
  }

  /** The transactions the attempts sent. */
  function SentBy(policy: Policy, g: GState, attempts: seq<Attempt>): seq<SignedTx>
    decreases |attempts|
  {
    if attempts == [] then []
    else
      var x := attempts[0];
      var (ms, r) := Broadcast(policy, g, x.req, x.now, x.a);
      if r.Sent? then [r.tx] + SentBy(policy, Final(g, ms), attempts[1..])
      else SentBy(policy, Final(g, ms), attempts[1..])
  }

  /**
   * However many attempts follow one another without a look in between, whatever the node
   * answers: at most one transaction is sent, it is the outstanding one afterwards, and
   * none is sent while one was outstanding already.
   */
  lemma {:induction false} OneSendPerTick(policy: Policy, g: GState, attempts: seq<Attempt>)
    ensures |SentBy(policy, g, attempts)| <= 1
    ensures |SentBy(policy, g, attempts)| == 1 ==>
      AfterAttempts(policy, g, attempts).Holds(SentBy(policy, g, attempts)[0])
    ensures g.pending.Some? ==> SentBy(policy, g, attempts) == [] && AfterAttempts(policy, g, attempts) == g
    decreases |attempts|
  {
    if attempts != [] {
      var x := attempts[0];
      var (ms, r) := Broadcast(policy, g, x.req, x.now, x.a);
      OneSendPerTick(policy, Final(g, ms), attempts[1..]);
    }
  }

  /** Every attempt is refused because the account has a transaction in flight that nobody tracks. */
  ghost predicate AllUntracked(policy: Policy, g: GState, attempts: seq<Attempt>)
    decreases |attempts|
  {
    attempts != [] ==>
      var x := attempts[0];
      var (ms, r) := Broadcast(policy, g, x.req, x.now, x.a);
      r == Refused(UntrackedInFlight) && AllUntracked(policy, Final(g, ms), attempts[1..])
  }

  lemma OneUntracked(policy: Policy, g: GState, req: Request, now: int, a: BroadcastAnswers)
    requires Broadcast(policy, g, req, now, a).1 == Refused(UntrackedInFlight)
    ensures var u := Final(g, Broadcast(policy, g, req, now, a).0).untracked;
      && u.Some? && u.value.lastAt == now
      && u.value.since == (if g.untracked.Some? then g.untracked.value.since else now)
      && a.latest.Some? && a.inFlight == Some(a.latest.value + u.value.count) && u.value.count > 0
  {
  }

  /**
   * The untracked streak, over any number of refusals in a row: it starts at the first one
   * (or goes on from the streak it found), ends at the last one, and counts what that one saw.
   */
  lemma {:induction false} UntrackedStreak(policy: Policy, g: GState, attempts: seq<Attempt>)
    requires attempts != [] && AllUntracked(policy, g, attempts)
    ensures var last := attempts[|attempts| - 1];
      var u := AfterAttempts(policy, g, attempts).untracked;
      && u.Some? && u.value.lastAt == last.now
      && u.value.since == (if g.untracked.Some? then g.untracked.value.since else attempts[0].now)
      && last.a.latest.Some? && last.a.inFlight == Some(last.a.latest.value + u.value.count) && u.value.count > 0
    decreases |attempts|
  {
    var x := attempts[0];
    OneUntracked(policy, g, x.req, x.now, x.a);
    if |attempts| > 1 {
      UntrackedStreak(policy, Final(g, Broadcast(policy, g, x.req, x.now, x.a).0), attempts[1..]);
    }
  }

  /** A send that passes the nonce check ends the streak, however it ends itself. */
  lemma SendEndsStreak(policy: Policy, g: GState, req: Request, now: int, a: BroadcastAnswers)
    requires Sends(policy, g, req, now, a)
    ensures Final(g, Broadcast(policy, g, req, now, a).0).untracked == None
  {
    if !Broadcast(policy, g, req, now, a).1.Sent? {
      FailedSendUndone(policy, g, req, now, a);
    }
  }

  // --------------------------------------------- one transaction, send to resolution

  datatype Look = Look(now: int, a: ResolveAnswers)

  /** Successive looks at one outstanding transaction, without a crash. */
  datatype LookRun = LookRun(final: GState, statuses: seq<Status>, handed: nat)

  function HandedIn(ms: seq<Micro>): nat {
    if ms != [] && ms[0].ev.Handed? then 1 else 0
  }

  function LookAll(policy: Policy, g: GState, looks: seq<Look>): LookRun
    decreases |looks|
  {
    if looks == [] || g.pending.None? then LookRun(g, [], 0)
    else
      var (ms, status) := Resolve(policy, g, looks[0].now, looks[0].a);
      var rest := LookAll(policy, Final(g, ms), looks[1..]);
      LookRun(rest.final, [status] + rest.statuses, HandedIn(ms) + rest.handed)
  }

  function Count(statuses: seq<Status>, s: Status): nat {
    if statuses == [] then 0 else (if statuses[0] == s then 1 else 0) + Count(statuses[1..], s)
  }

  /** The budgets after the resolution `s` of `p`: a revert releases the reservation unless timed out first. */
  function BudgetsAfter(g: GState, p: Pending, s: Status, timedOut: bool): map<string, seq<Entry>> {
    if s.RevertedTx? && !timedOut then Release(g, p.reserved, p.tx).budgets else g.budgets
  }

  /** A gas ledger after the resolution `s` of `p`: a receipt's cost replaces the charge. */
  function GasAfter(gas: seq<Entry>, p: Pending, s: Status): seq<Entry> {
    if s.Success? || s.RevertedTx? then Settle(gas, p.tx, GAS, s.cost) else gas
  }

  predicate Closing(s: Status) {
    s.Success? || s.RevertedTx? || s.Dropped?
  }

  /** The effect of one look that ended with status `s`, case by case. */
  ghost predicate LookEffect(g: GState, p: Pending, ms: seq<Micro>, s: Status) {
    var k := Final(g, ms);
    && k.hist == GasAfter(g.hist, p, s)
    && k.gas == GasAfter(g.gas, p, s)
    && k.budgets == BudgetsAfter(g, p, s, p.timedOut)
    && (k.pending.None? <==> Closing(s))
    && (!Closing(s) ==> s == Waiting || s == Timeout)
    && (k.pending.Some? ==>
          && k.pending.value.tx == p.tx && k.pending.value.reserved == p.reserved
          && k.pending.value.timedOut == (p.timedOut || s == Timeout)
          && k.pending.value.rebroadcasts == p.rebroadcasts + HandedIn(ms)
          && k.blocks == g.blocks)
    && (s == Timeout ==> !p.timedOut)
    && (HandedIn(ms) > 0 ==> p.rebroadcasts < REBROADCAST_MAX)
  }

  lemma ReceiptEffect(g: GState, p: Pending, r: Receipt, now: int)
    requires g.pending == Some(p)
    ensures LookEffect(g, p, ReceiptStep(g, p, r, now).0, ReceiptStep(g, p, r, now).1)
  {
  }

  lemma UnminedEffect(policy: Policy, g: GState, p: Pending, now: int, known: Option<bool>)
    requires g.pending == Some(p)
    ensures LookEffect(g, p, Unmined(policy, g, p, now, known).0, Unmined(policy, g, p, now, known).1)
  {
  }

  lemma ResendEffect(policy: Policy, g: GState, p: Pending, now: int, a: ResolveAnswers)
    requires g.pending == Some(p) && Rebroadcasts(p, now, a.known)
    requires !(a.mined.Some? && a.mined.value > p.tx.nonce)
    ensures LookEffect(g, p, ResolveOverdue(policy, g, p, now, a).0, ResolveOverdue(policy, g, p, now, a).1)
  {
    var q := p.(rebroadcasts := p.rebroadcasts + 1, lastBroadcastAt := now);
    var resent := g.(pending := Some(q));
    var (rest, s) := Unmined(policy, resent, q, now, a.known);
    assert |rest| <= 1;
    assert Final(resent, rest) == Final(g, [Micro(resent, Handed(p.tx, a.accepted))] + rest);
    assert s == Waiting || s == Timeout;
    UnminedEffect(policy, resent, q, now, a.known);
  }

  lemma OneLook(policy: Policy, g: GState, now: int, a: ResolveAnswers)
    requires g.pending.Some?
    ensures LookEffect(g, g.pending.value, Resolve(policy, g, now, a).0, Resolve(policy, g, now, a).1)
  {
    var p := g.pending.value;
    if a.receipt.Some? {
      ReceiptEffect(g, p, a.receipt.value, now);
    } else if !Overdue(p, now) {
      UnminedEffect(policy, g, p, now, Some(true));
    } else if a.mined.Some? && a.mined.value > p.tx.nonce {
      if a.receipt2.Some? {
        ReceiptEffect(g, p, a.receipt2.value, now);
      }
    } else if Rebroadcasts(p, now, a.known) {
      ResendEffect(policy, g, p, now, a);
    } else {
      UnminedEffect(policy, g, p, now, a.known);
    }
  }

  /** The ledgers after a run of looks end exactly as its closing status says. */
  ghost predicate Accounted(g: GState, p: Pending, t: LookRun) {
    var n := |t.statuses|;
    if t.final.pending.None? then
      && n > 0 && Closing(t.statuses[n - 1])
      && t.final.gas == GasAfter(g.gas, p, t.statuses[n - 1])
      && t.final.hist == GasAfter(g.hist, p, t.statuses[n - 1])
      && t.final.budgets == BudgetsAfter(g, p, t.statuses[n - 1], p.timedOut || Timeout in t.statuses)
    else t.final.gas == g.gas && t.final.hist == g.hist && t.final.budgets == g.budgets
  }

  /** Before the last look nothing closes, "timeout" is said at most once, re-broadcasts are bounded. */
  ghost predicate Bounded(p: Pending, t: LookRun) {
    && (forall i | 0 <= i < |t.statuses| - 1 :: t.statuses[i] == Waiting || t.statuses[i] == Timeout)
    && Count(t.statuses, Timeout) <= (if p.timedOut then 0 else 1)
    && p.rebroadcasts + t.handed <= REBROADCAST_MAX
  }

  /**
   * Lifecycle accounting, for every sequence of looks and answers: the ledgers end exactly
   * as the closing status says, the same bytes are re-broadcast at most 5 times, and
   * "timeout" is reported at most once.
   */
  lemma {:induction false} LifecycleExact(policy: Policy, g: GState, looks: seq<Look>)
    requires g.pending.Some? && g.pending.value.rebroadcasts <= REBROADCAST_MAX
    ensures Accounted(g, g.pending.value, LookAll(policy, g, looks))
    ensures Bounded(g.pending.value, LookAll(policy, g, looks))
    decreases |looks|
  {
    if looks != [] {
      var p := g.pending.value;
      var (ms, s) := Resolve(policy, g, looks[0].now, looks[0].a);
      OneLook(policy, g, looks[0].now, looks[0].a);
      var k := Final(g, ms);
      var rest := LookAll(policy, k, looks[1..]);
      if k.pending.Some? {
        LifecycleExact(policy, k, looks[1..]);
        AccountedCons(g, p, k, s, rest);
        BoundedCons(p, k.pending.value, s, rest, HandedIn(ms));
      }
    }
  }

  lemma BoundedCons(p: Pending, q: Pending, s: Status, rest: LookRun, handed: nat)
    requires (s == Waiting || s == Timeout) && (s == Timeout ==> !p.timedOut)
    requires q.timedOut == (p.timedOut || s == Timeout) && q.rebroadcasts == p.rebroadcasts + handed
    requires Bounded(q, rest)
    ensures Bounded(p, LookRun(rest.final, [s] + rest.statuses, handed + rest.handed))
  {
    assert ([s] + rest.statuses)[1..] == rest.statuses;
  }

  lemma AccountedCons(g: GState, p: Pending, k: GState, s: Status, rest: LookRun)
    requires k.pending.Some? && (s == Waiting || s == Timeout)
    requires k.gas == g.gas && k.hist == g.hist && k.budgets == g.budgets
    requires var q := k.pending.value;
      q.tx == p.tx && q.reserved == p.reserved && q.timedOut == (p.timedOut || s == Timeout)
    requires Accounted(k, k.pending.value, rest)
    ensures forall handed: nat :: Accounted(g, p, LookRun(rest.final, [s] + rest.statuses, handed))
  {
    assert Timeout in [s] + rest.statuses <==> s == Timeout || Timeout in rest.statuses;
  }

  // ------------------------------------------------------- the send, and its undoing

  /** The ledger has no entry of the bytes. */
  predicate FreshIn(s: seq<Entry>, tx: SignedTx, token: string) {
    Find(s, tx, token) == |s|
  }

  /** Charging and taking the charge back is dropping whatever was charged for the same bytes. */
  lemma ChargeThenUndo(h: seq<Entry>, e: Entry)
    requires Unique(h) && e.ref.Some?
    ensures Settle(HistSpend(h, e), e.ref.value, e.token, 0) == Settle(h, e.ref.value, e.token, 0)
  {
    var i := Slot(h, e);
    var k := HistSpend(h, e);
    HistSpendUnique(h, e);
    if i == |h| {
      FindAt(k, |h|, e.ref.value, e.token);
      assert Removed(k, |h|) == h;
    } else if e.at - h[i].at < WINDOW_MS {
      FindAt(k, i, e.ref.value, e.token);
      assert Removed(k, i) == Removed(h, i);
    } else {
      FindAt(k, |h| - 1, e.ref.value, e.token);
      assert Removed(k, |h| - 1) == Removed(h, i);
    }
  }

  /** The same on a pruned ledger: what is left is the pruned ledger without the bytes' entry. */
  lemma SpendThenSettle(s: seq<Entry>, e: Entry)
    requires e.ref.Some?
    ensures Settle(Spend(s, e), e.ref.value, e.token, 0) == Settle(Live(s, e.at), e.ref.value, e.token, 0)
  {
    var l := Live(s, e.at);
    var i := Slot(l, e);
    if i == |l| {
      SnocSettle(l, e, 0);
    } else {
      FindFirst(l[i := e], i, e.ref.value, e.token);
      assert Removed(l[i := e], i) == Removed(l, i);
    }
  }

  lemma {:induction false} FindFirst(s: seq<Entry>, i: nat, ref: SignedTx, token: string)
    requires i < |s| && Tagged(s[i], ref, token) && forall j | 0 <= j < i :: !Tagged(s[j], ref, token)
    ensures Find(s, ref, token) == i
  {
    if i > 0 {
      FindFirst(s[1..], i - 1, ref, token);
    }
  }

  /**
   * A send that did not happen (the put threw, or the node refused the bytes) leaves the
   * gas ledger as pruning it would if and only if the bytes were not charged in the last
   * hour: identical bytes sent again within the hour lose their earlier charge too. The
   * same holds of the budget the outflow was reserved on; the other budgets stay.
   */
  lemma UndoExactIffFresh(g: GState, req: Request, tx: SignedTx, now: int)
    requires Unique(g.hist)
    ensures var budgets := Undone(Recorded(g, req, tx, now), req, tx).budgets;
      && budgets.Keys == g.budgets.Keys
      && forall b | b in g.budgets ::
           if req.reserve.Some? && req.reserve.value.budget == b then
             var live, token := Live(g.budgets[b], now), req.reserve.value.token;
             && budgets[b] == Settle(live, tx, token, 0)
             && (budgets[b] == live <==> FreshIn(live, tx, token))
           else budgets[b] == g.budgets[b]
    ensures var u := Undone(Recorded(g, req, tx, now), req, tx);
      && u.gas == Settle(Live(g.gas, now), tx, GAS, 0)
      && (u.gas == Live(g.gas, now) <==> FreshIn(Live(g.gas, now), tx, GAS))
      && u.hist == Settle(g.hist, tx, GAS, 0)
  {
    SpendThenSettle(g.gas, GasEntry(tx, now));
    ChargeThenUndo(g.hist, GasEntry(tx, now));
    SettleAwayIff(Live(g.gas, now), tx, GAS);
    if req.reserve.Some? && req.reserve.value.budget in g.budgets {
      var r := req.reserve.value;
      SpendThenSettle(g.budgets[r.budget], Entry(r.token, r.amount, now, Some(tx)));
      SettleAwayIff(Live(g.budgets[r.budget], now), tx, r.token);
    }
  }

  lemma SettleAwayIff(s: seq<Entry>, tx: SignedTx, token: string)
    ensures Settle(s, tx, token, 0) == s <==> FreshIn(s, tx, token)
  {
    if !FreshIn(s, tx, token) {
      assert |Settle(s, tx, token, 0)| == |s| - 1;
    }
  }

  /** A signed send that ends without a transaction out there ends in the undone state. */
  lemma FailedSendUndone(policy: Policy, g: GState, req: Request, now: int, a: BroadcastAnswers)
    requires Sends(policy, g, req, now, a) && !Broadcast(policy, g, req, now, a).1.Sent?
    ensures var tx, g1 := Sign(req, a.latest.value), g.(gas := Live(g.gas, now), untracked := None);
      Final(g, Broadcast(policy, g, req, now, a).0) == Undone(Recorded(g1, req, tx, now), req, tx)
  {
    var tx, g1 := Sign(req, a.latest.value), g.(gas := Live(g.gas, now), untracked := None);
    var r := Recorded(g1, req, tx, now);
    if a.put != Saved {
      var tail := [Micro(Undone(r, req, tx), Quiet)];
      assert (PutEvents(a.put, r) + tail)[|PutEvents(a.put, r)|] == tail[0];
    }
  }

  /**
   * The earlier charge is lost: bytes dropped after a send, still charged, are signed again
   * and the put throws; the ledger the guard consults is empty, the old cost free to spend.
   */
  lemma ResentBytesLoseTheirCharge(policy: Policy, g: GState, req: Request, now: int, a: BroadcastAnswers)
    requires Sends(policy, g, req, now, a) && a.put == LostError && Unique(g.hist)
    requires g.gas == [GasEntry(Sign(req, a.latest.value), now - PENDING_DROP_MS)]
    ensures Live(g.gas, now) == g.gas && Amount(g.gas, Sign(req, a.latest.value), GAS) == req.gas * req.gasPrice
    ensures Final(g, Broadcast(policy, g, req, now, a).0).gas == []
    ensures Remaining(Final(g, Broadcast(policy, g, req, now, a).0).gas, policy.hourlyWei, GAS, now) == policy.hourlyWei
  {
    var tx := Sign(req, a.latest.value);
    assert g.gas[1..] == [];
    LiveLive(g.gas, now, now);
    FailedSendUndone(policy, g, req, now, a);
    UndoExactIffFresh(g.(gas := Live(g.gas, now), untracked := None), req, tx, now);
    assert Removed(g.gas, 0) == [];
  }

  lemma SnocSettle(h: seq<Entry>, e: Entry, amount: nat)
    requires e.ref.Some? && FreshIn(h, e.ref.value, e.token)
    ensures Settle(h + [e], e.ref.value, e.token, amount) == if amount == 0 then h else h + [e.(amount := amount)]
  {
    var k := h + [e];
    var i := Find(k, e.ref.value, e.token);
    assert Tagged(k[|h|], e.ref.value, e.token);
    assert forall j | 0 <= j < |h| :: k[j] == h[j];
    assert Removed(k, |h|) == h;
  }

  /** What one transaction leaves in the gas ledger's history. */
  function Charged(h: seq<Entry>, e: Entry, amount: nat): seq<Entry> {
    if amount == 0 then h else h + [e.(amount := amount)]
  }

  lemma ChargedAfter(h: seq<Entry>, e: Entry, p: Pending, s: Status)
    requires e.ref == Some(p.tx) && e.token == GAS && FreshIn(h, p.tx, GAS) && Closing(s)
    ensures GasAfter(h + [e], p, s) == if s.Dropped? then h + [e] else Charged(h, e, s.cost)
  {
    if !s.Dropped? {
      SnocSettle(h, e, s.cost);
    }
  }

  /** What a sent state is: the bytes charged at the limit, reserved, recorded. */
  lemma SentState(policy: Policy, g: GState, req: Request, now: int, a: BroadcastAnswers)
    requires Sends(policy, g, req, now, a) && Broadcast(policy, g, req, now, a).1.Sent?
    ensures var tx := Sign(req, a.latest.value);
      Final(g, Broadcast(policy, g, req, now, a).0) ==
        Recorded(g.(gas := Live(g.gas, now), untracked := None), req, tx, now)
  {
  }

  /**
   * From the send of bytes not charged in the last hour to their resolution, whatever the
   * node answers: the gas ledger, pruned at the send, keeps the receipt's cost after a
   * success or a revert and the full limit after a drop; the reservation is released by a
   * revert seen before the timeout, and kept otherwise; nothing else in the ledgers changes.
   */
  lemma SendToResolution(policy: Policy, g: GState, req: Request, now: int, a: BroadcastAnswers, looks: seq<Look>)
    requires Sends(policy, g, req, now, a)
    requires FreshIn(Live(g.gas, now), Sign(req, a.latest.value), GAS)
    requires Broadcast(policy, g, req, now, a).1.Sent?
    requires LookAll(policy, Final(g, Broadcast(policy, g, req, now, a).0), looks).final.pending.None?
    ensures var tx, gas := Sign(req, a.latest.value), Live(g.gas, now);
      var t := LookAll(policy, Final(g, Broadcast(policy, g, req, now, a).0), looks);
      |t.statuses| > 0 && var s := t.statuses[|t.statuses| - 1];
      var reserved := Reserve(g, req.reserve, tx, now);
      && Closing(s)
      && t.final.gas == (if s.Dropped? then gas + [GasEntry(tx, now)] else Charged(gas, GasEntry(tx, now), s.cost))
      && t.final.budgets ==
           if s.RevertedTx? && Timeout !in t.statuses then Release(reserved, req.reserve, tx).budgets
           else reserved.budgets
  {
    var tx := Sign(req, a.latest.value);
    var sent := Final(g, Broadcast(policy, g, req, now, a).0);
    SentState(policy, g, req, now, a);
    LiveLive(g.gas, now, now);
    LifecycleExact(policy, sent, looks);
    var t := LookAll(policy, sent, looks);
    ChargedAfter(Live(g.gas, now), GasEntry(tx, now), sent.pending.value, t.statuses[|t.statuses| - 1]);
  }

  /**
   * A send of bytes not charged in the last hour that did not happen (the put threw, or the
   * node refused them) leaves nothing behind: the ledgers are as pruning them would leave
   * them, with no reservation and nothing outstanding.
   */
  lemma FailedSendLeavesNothing(policy: Policy, g: GState, req: Request, now: int, a: BroadcastAnswers)
    requires Sends(policy, g, req, now, a) && Unique(g.hist)
    requires var tx := Sign(req, a.latest.value);
      && FreshIn(Live(g.gas, now), tx, GAS)
      && (req.reserve.Some? && req.reserve.value.budget in g.budgets ==>
            FreshIn(Live(g.budgets[req.reserve.value.budget], now), tx, req.reserve.value.token))
    requires !Broadcast(policy, g, req, now, a).1.Sent?
    ensures var k := Final(g, Broadcast(policy, g, req, now, a).0);
      && k.gas == Live(g.gas, now) && k.pending.None? && k.blocks == g.blocks
      && k.budgets.Keys == g.budgets.Keys
      && forall b | b in g.budgets ::
           k.budgets[b] ==
             if req.reserve.Some? && req.reserve.value.budget == b then Live(g.budgets[b], now) else g.budgets[b]
  {
    var tx := Sign(req, a.latest.value);
    var g1 := g.(gas := Live(g.gas, now), untracked := None);
    FailedSendUndone(policy, g, req, now, a);
    LiveLive(g.gas, now, now);
    UndoExactIffFresh(g1, req, tx, now);
  }

  // ---------------------------------------------------------------- after a crash

  /** A look that a crash cuts short, wherever, leaves the committed record, in memory and in the store. */
  lemma CrashedLookIsForgotten(policy: Policy, w: World, now: int, a: ResolveAnswers, k: nat)
    ensures Next(policy, w, DoResolve(now, a, Some(k))).mem == w.saved
    ensures Next(policy, w, DoResolve(now, a, Some(k))).saved == w.saved
  {
    var ms := Resolve(policy, w.mem, now, a).0;
    assert forall i | 0 <= i < |ms| :: !ms[i].ev.Commit?;
    NoCommitKeepsSaved(w.(clock := now), ms[..Min(k, |ms|)]);
  }

  lemma {:induction false} NoCommitKeepsSaved(w: World, ms: seq<Micro>)
    requires forall i | 0 <= i < |ms| :: !ms[i].ev.Commit?
    ensures ApplyAll(w, ms).saved == w.saved
    decreases |ms|
  {
    if ms != [] {
      NoCommitKeepsSaved(Apply(w, ms[0]), ms[1..]);
    }
  }
}
