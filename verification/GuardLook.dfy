/**
 * Which answer a look or a send gives, from its inputs alone, and that looking ends: the
 * other side of GuardTheorems, which says what each answer means.
 */
module GuardLook {
  import opened Common
  import opened Ledger
  import opened GuardSpec
  import opened GuardRuns
  import opened GuardTheorems

  /** The mined nonce is read a minute after the last broadcast or a quarter of an hour after the send; it is past. */
  predicate PastNonce(p: Pending, now: int, a: ResolveAnswers) {
    && (now - p.lastBroadcastAt >= 60_000 || now - p.sentAt >= 15 * 60_000)
    && a.mined.Some? && a.mined.value > p.tx.nonce
  }

  /** The receipt the look gets to see: the first read's, or the second one's once the nonce is past. */
  function SeenReceipt(p: Pending, now: int, a: ResolveAnswers): Option<Receipt> {
    if a.receipt.Some? then a.receipt else if PastNonce(p, now, a) then a.receipt2 else None
  }

  /** Neither mined nor replaced, as far as the look can tell. */
  predicate Unsettled(p: Pending, now: int, a: ResolveAnswers) {
    SeenReceipt(p, now, a).None? && !PastNonce(p, now, a)
  }

  /** The timeout is due and not marked yet. */
  predicate TimeoutDue(policy: Policy, p: Pending, now: int) {
    !p.timedOut && now - p.sentAt >= policy.receiptTimeoutMs
  }

  /** Definitely unknown to the node, a quarter of an hour after the send. */
  predicate Vanished(p: Pending, now: int, a: ResolveAnswers) {
    now - p.sentAt >= 15 * 60_000 && a.known == Some(false)
  }

  /** What a receipt says was paid. */
  function PaidBy(r: Receipt, tx: SignedTx): nat {
    match r.effectiveGasPrice
    case Some(price) => r.gasUsed * price
    case None => r.gasUsed * tx.gasPrice
  }

  /** Exactly when a look returns which status. */
  ghost predicate StatusIs(policy: Policy, p: Pending, now: int, a: ResolveAnswers, s: Status) {
    var r := SeenReceipt(p, now, a);
    && (forall cost :: s == Success(cost) <==> r.Some? && r.value.success && cost == PaidBy(r.value, p.tx))
    && (forall cost :: s == RevertedTx(cost) <==> r.Some? && !r.value.success && cost == PaidBy(r.value, p.tx))
    && (forall cost :: s == Dropped(true, cost) <==>
          r.None? && PastNonce(p, now, a) && cost == p.tx.gas * p.tx.gasPrice)
    && (s == Timeout <==> Unsettled(p, now, a) && TimeoutDue(policy, p, now))
    && (forall cost :: s == Dropped(false, cost) <==>
          Unsettled(p, now, a) && !TimeoutDue(policy, p, now) && Vanished(p, now, a)
          && cost == p.tx.gas * p.tx.gasPrice)
    && (s == Waiting <==> Unsettled(p, now, a) && !TimeoutDue(policy, p, now) && !Vanished(p, now, a))
    && s != NothingPending
  }

  lemma UnminedStatus(policy: Policy, g: GState, p: Pending, now: int, known: Option<bool>)
    ensures var s := Unmined(policy, g, p, now, known).1;
      && (s == Timeout <==> TimeoutDue(policy, p, now))
      && (s == Dropped(false, p.tx.MaxCost()) <==>
            !TimeoutDue(policy, p, now) && now - p.sentAt >= 15 * 60_000 && known == Some(false))
      && (s == Timeout || s == Waiting || s == Dropped(false, p.tx.MaxCost()))
  {
  }

  /** The status a look returns, on its inputs alone. */
  lemma LookStatusIff(policy: Policy, g: GState, now: int, a: ResolveAnswers)
    requires g.pending.Some?
    ensures StatusIs(policy, g.pending.value, now, a, Resolve(policy, g, now, a).1)
  {
    var p := g.pending.value;
    if SeenReceipt(p, now, a).None? && !PastNonce(p, now, a) {
      UnminedStatus(policy, g, p, now, Some(true));
      UnminedStatus(policy, g, p, now, a.known);
      var q := p.(rebroadcasts := p.rebroadcasts + 1, lastBroadcastAt := now);
      UnminedStatus(policy, g.(pending := Some(q)), q, now, a.known);
    }
  }

  /**
   * Exactly when a look closes the transaction: a receipt was seen, or the nonce is past, or
   * the node does not know it after a quarter of an hour and the timeout is not due first.
   */
  lemma LookClosesIff(policy: Policy, g: GState, now: int, a: ResolveAnswers)
    requires g.pending.Some?
    ensures var p := g.pending.value;
      Final(g, Resolve(policy, g, now, a).0).pending.None? <==>
        || a.receipt.Some?
        || PastNonce(p, now, a)
        || (Vanished(p, now, a) && !TimeoutDue(policy, p, now))
  {
    LookStatusIff(policy, g, now, a);
    OneLook(policy, g, now, a);
  }

  /** The same bytes go out again. */
  predicate Resends(p: Pending, now: int, a: ResolveAnswers) {
    && Unsettled(p, now, a) && a.known == Some(false) && p.rebroadcasts < 5
    && now - p.lastBroadcastAt >= 60_000 && now - p.sentAt < 15 * 60_000
  }

  /**
   * Exactly when a look hands bytes to the node - the recorded ones - and what it notes on a
   * transaction it leaves outstanding.
   */
  lemma ResendIff(policy: Policy, g: GState, now: int, a: ResolveAnswers)
    requires g.pending.Some?
    ensures var p, ms := g.pending.value, Resolve(policy, g, now, a).0;
      var resent := Resends(p, now, a);
      && ((exists m :: m in ms && m.ev.Handed?) <==> resent)
      && (forall m | m in ms && m.ev.Handed? :: m.ev == Handed(p.tx, a.accepted))
      && (Final(g, ms).pending.Some? ==>
            Final(g, ms).pending.value == p.(
              rebroadcasts := if resent then p.rebroadcasts + 1 else p.rebroadcasts,
              lastBroadcastAt := if resent then now else p.lastBroadcastAt,
              timedOut := p.timedOut || TimeoutDue(policy, p, now)))
      && Final(g, ms).untracked == g.untracked
  {
    var p := g.pending.value;
    if Resends(p, now, a) {
      ResentMicros(policy, g, p, now, a);
    }
  }

  lemma ResentMicros(policy: Policy, g: GState, p: Pending, now: int, a: ResolveAnswers)
    requires g.pending == Some(p) && Resends(p, now, a)
    ensures var q := p.(rebroadcasts := p.rebroadcasts + 1, lastBroadcastAt := now);
      var resent := g.(pending := Some(q));
      var noted := g.(pending := Some(q.(timedOut := true)));
      Resolve(policy, g, now, a).0 ==
        [Micro(resent, Handed(p.tx, a.accepted))] + if TimeoutDue(policy, p, now) then [Micro(noted, Quiet)] else []
  {
  }

  // ------------------------------------------------------------------ looking ends

  /** A receipt closes the transaction at the look that sees it, if nothing closed it before. */
  lemma {:induction false} ReceiptEnds(policy: Policy, g: GState, looks: seq<Look>, i: nat)
    requires i < |looks| && looks[i].a.receipt.Some?
    ensures LookAll(policy, g, looks).final.pending.None?
    decreases |looks|
  {
    if g.pending.Some? {
      var k := Final(g, Resolve(policy, g, looks[0].now, looks[0].a).0);
      LookClosesIff(policy, g, looks[0].now, looks[0].a);
      if i > 0 {
        ReceiptEnds(policy, k, looks[1..], i - 1);
      }
    }
  }

  /** So do two looks a quarter of an hour after the send at a node that does not know it. */
  lemma {:induction false} VanishedEnds(policy: Policy, g: GState, looks: seq<Look>, i: nat, j: nat)
    requires g.pending.Some? && i < j < |looks|
    requires Vanished(g.pending.value, looks[i].now, looks[i].a) && Vanished(g.pending.value, looks[j].now, looks[j].a)
    ensures LookAll(policy, g, looks).final.pending.None?
    decreases |looks|
  {
    var k := Final(g, Resolve(policy, g, looks[0].now, looks[0].a).0);
    LookClosesIff(policy, g, looks[0].now, looks[0].a);
    ResendIff(policy, g, looks[0].now, looks[0].a);
    if k.pending.Some? {
      if i > 0 {
        VanishedEnds(policy, k, looks[1..], i - 1, j - 1);
      } else {
        MarkedEnds(policy, k, looks[1..], j - 1);
      }
    }
  }

  /** Once the timeout is marked, one such look is enough. */
  lemma {:induction false} MarkedEnds(policy: Policy, g: GState, looks: seq<Look>, j: nat)
    requires g.pending.Some? && g.pending.value.timedOut && j < |looks|
    requires Vanished(g.pending.value, looks[j].now, looks[j].a)
    ensures LookAll(policy, g, looks).final.pending.None?
    decreases |looks|
  {
    var k := Final(g, Resolve(policy, g, looks[0].now, looks[0].a).0);
    LookClosesIff(policy, g, looks[0].now, looks[0].a);
    ResendIff(policy, g, looks[0].now, looks[0].a);
    if k.pending.Some? {
      MarkedEnds(policy, k, looks[1..], j - 1);
    }
  }

  // ------------------------------------------------------------------------ the send

  /** What has been charged in the hour that ends at `now`, over the never-pruned history. */
  function Spent(h: seq<Entry>, token: string, now: int): nat {
    if h == [] then 0
    else
      var e := h[0];
      (if e.token == token && now - 60 * 60_000 < e.at <= now then e.amount else 0) + Spent(h[1..], token, now)
  }

  /** What is left of a cap is the cap less what the last hour was charged, never below zero. */
  lemma LeftIs(h: seq<Entry>, p: int, cap: nat, token: string, now: int)
    requires p <= now && NoneAfter(h, now)
    ensures Remaining(Live(h, p), cap, token, now) ==
      if cap > Spent(h, token, now) then cap - Spent(h, token, now) else 0
  {
    LiveLive(h, p, now);
    LiveSpent(h, token, now);
  }

  lemma {:induction false} LiveSpent(h: seq<Entry>, token: string, now: int)
    requires NoneAfter(h, now)
    ensures Sum(Live(h, now), TokenWeight(token)) == Spent(h, token, now)
  {
    if h != [] {
      LiveSpent(h[1..], token, now);
      assert h[0] in h;
      assert ([h[0]] + Live(h[1..], now))[1..] == Live(h[1..], now);
      assert [] + Live(h[1..], now) == Live(h[1..], now);
    }
  }

  /** In every run, what a send may still cost is the hourly cap less what the last hour was charged. */
  lemma RoomInRuns(policy: Policy, w: World, steps: seq<Step>, now: int)
    requires Started(w) && TruthfulRun(policy, w, steps) && now >= Run(policy, w, steps).clock
    ensures var g := Run(policy, w, steps).mem;
      Remaining(g.gas, policy.hourlyWei, GAS, now) == policy.hourlyWei - Spent(g.hist, GAS, now)
  {
    StartedInv(policy, w);
    RunKeeps(policy, w.mem, w, steps);
    var v := Run(policy, w, steps);
    var p: int :| p <= v.clock && v.mem.gas == Live(v.mem.hist, p);
    LeftIs(v.mem.hist, p, policy.hourlyWei, GAS, now);
    SpentIs(v.mem.hist, GAS, now);
    assert Sum(v.mem.hist, WindowWeight(GAS, now)) <= policy.hourlyWei;
  }

  lemma {:induction false} SpentIs(h: seq<Entry>, token: string, now: int)
    ensures Spent(h, token, now) == Sum(h, WindowWeight(token, now))
  {
    if h != [] {
      SpentIs(h[1..], token, now);
    }
  }

  /** Every check passes. */
  ghost predicate Passes(policy: Policy, g: GState, req: Request, now: int, a: BroadcastAnswers) {
    && g.pending.None? && req.gasPrice <= policy.maxGasPriceWei
    && req.gas * req.gasPrice <= Remaining(g.gas, policy.hourlyWei, GAS, now)
    && a.latest.Some? && (a.inFlight.None? || a.inFlight.value <= a.latest.value)
  }

  /** The node refused the bytes, and says so for certain. */
  predicate NodeRefuses(a: BroadcastAnswers) {
    a.sendError && a.known == Some(false)
  }

  /**
   * Exactly when a send ends how: refused by the first check that fails, thrown when the
   * nonce read or a commit throws, failed when the node refuses, sent otherwise - and then
   * at the mined nonce, with the request's own fields.
   */
  lemma SendResultIff(policy: Policy, g: GState, req: Request, now: int, a: BroadcastAnswers)
    ensures var r := Broadcast(policy, g, req, now, a).1;
      var cheap := req.gasPrice <= policy.maxGasPriceWei;
      var room := req.gas * req.gasPrice <= Remaining(g.gas, policy.hourlyWei, GAS, now);
      var passes := Passes(policy, g, req, now, a);
      && (r == Refused(StillPending) <==> g.pending.Some?)
      && (r == Refused(PriceTooHigh) <==> g.pending.None? && !cheap)
      && (r == Refused(NoGasRoom) <==> g.pending.None? && cheap && !room)
      && (r == Refused(UntrackedInFlight) <==>
            g.pending.None? && cheap && room && a.latest.Some? && a.inFlight.Some? && a.inFlight.value > a.latest.value)
      && (r.Sent? <==> passes && a.put == Saved && !NodeRefuses(a))
      && (r == Failed <==> passes && a.put == Saved && NodeRefuses(a) && a.put2 == Saved)
      && (r == Threw <==>
            || (g.pending.None? && cheap && room && a.latest.None?)
            || (passes && (a.put != Saved || (NodeRefuses(a) && a.put2 != Saved))))
      && (r.Sent? ==>
            r.tx == SignedTx(a.latest.value, req.to, req.data, req.value, req.gas, req.gasPrice))
  {
  }

  /**
   * What a sent transaction's record says, and its charges: the limit in the gas ledger, the
   * reservation in its budget.
   */
  lemma SentRecord(policy: Policy, g: GState, req: Request, now: int, a: BroadcastAnswers)
    requires Broadcast(policy, g, req, now, a).1.Sent?
    ensures var tx, k := Broadcast(policy, g, req, now, a).1.tx, Final(g, Broadcast(policy, g, req, now, a).0);
      && k.pending ==
         Some(Pending(tx, 0, now, req.orderHash, req.backoffKey, req.expiry, now, false, req.reserve, None))
      && k.untracked == None && k.blocks == g.blocks
      && Entry(GAS, req.gas * req.gasPrice, now, Some(tx)) in k.gas
      && (req.reserve.Some? && req.reserve.value.budget in g.budgets ==>
            Entry(req.reserve.value.token, req.reserve.value.amount, now, Some(tx))
              in k.budgets[req.reserve.value.budget])
  {
    var tx := Sign(req, a.latest.value);
    SpendMember(Live(g.gas, now), GasEntry(tx, now));
    if req.reserve.Some? && req.reserve.value.budget in g.budgets {
      var r := req.reserve.value;
      SpendMember(g.budgets[r.budget], Entry(r.token, r.amount, now, Some(tx)));
    }
  }

  lemma SpendMember(s: seq<Entry>, e: Entry)
    ensures e in Spend(s, e)
  {
    var l := Live(s, e.at);
    var i := Slot(l, e);
    assert i < |l| ==> l[i := e][i] == e;
    assert i == |l| ==> (l + [e])[i] == e;
  }
}
