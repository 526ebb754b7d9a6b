/**
 * The mutable side of the lifecycle: `Budget` (packages/beta-filler/src/policy.ts) and
 * `Guard` with the send and resolve paths (packages/beta-filler/src/guard.ts). Every method
 * is proved against the functions of Ledger and GuardSpec.
 */
module GuardObjects {
  import opened Common
  import opened Ledger
  import opened GuardSpec

  /** `young` is `all` without the entries the window has passed: `kept` says where each came from. */
  ghost predicate TakenFrom(all: seq<Entry>, young: seq<Entry>, kept: seq<nat>, now: int) {
    && |young| == |kept|
    && (forall j, k | 0 <= j < k < |kept| :: kept[j] < kept[k])
    && (forall k | 0 <= k < |kept| :: kept[k] < |all| && young[k] == all[kept[k]])
    && (forall i: nat | i < |all| :: i in kept <==> now - all[i].at < WINDOW_MS)
  }

  ghost predicate Younger(all: seq<Entry>, young: seq<Entry>, now: int) {
    exists kept: seq<nat> :: TakenFrom(all, young, kept, now)
  }

  lemma TakenStep(all: seq<Entry>, young: seq<Entry>, kept: seq<nat>, now: int, e: Entry)
    requires TakenFrom(all, young, kept, now)
    ensures now - e.at < WINDOW_MS ==> TakenFrom(all + [e], young + [e], kept + [|all|], now)
    ensures now - e.at >= WINDOW_MS ==> TakenFrom(all + [e], young, kept, now)
  {
    forall i: nat | i < |all + [e]|
      ensures i in kept + [|all|] <==> i in kept || i == |all|
    {
    }
  }

  /** What is kept of the first `i` entries. */
  ghost predicate KeptOf(all: seq<Entry>, i: nat, young: seq<Entry>, kept: seq<nat>, now: int) {
    i <= |all| && young == Live(all[..i], now) && TakenFrom(all[..i], young, kept, now)
  }

  lemma KeptNext(all: seq<Entry>, i: nat, young: seq<Entry>, kept: seq<nat>, now: int)
    requires i < |all| && KeptOf(all, i, young, kept, now)
    ensures
      if now - all[i].at < WINDOW_MS then KeptOf(all, i + 1, young + [all[i]], kept + [i], now)
      else KeptOf(all, i + 1, young, kept, now)
  {
    assert all[..i + 1] == all[..i] + [all[i]];
    LiveConcat(all[..i], [all[i]], now);
    TakenStep(all[..i], young, kept, now, all[i]);
  }

  lemma KeptAll(all: seq<Entry>, young: seq<Entry>, kept: seq<nat>, now: int)
    requires KeptOf(all, |all|, young, kept, now)
    ensures Younger(all, young, now) && young == Live(all, now)
  {
    assert all[..|all|] == all;
  }

  method KeepYoung(all: seq<Entry>, now: int) returns (young: seq<Entry>)
    ensures Younger(all, young, now)
    ensures forall cap, token, later | later >= now ::
      Remaining(young, cap, token, later) == Remaining(all, cap, token, later)
    ensures young == Live(all, now)
  {
    young := [];
    ghost var kept: seq<nat> := [];
    for i := 0 to |all|
      invariant KeptOf(all, i, young, kept, now)
    {
      KeptNext(all, i, young, kept, now);
      if now - all[i].at < WINDOW_MS {
        young, kept := young + [all[i]], kept + [i];
      }
    }
    KeptAll(all, young, kept, now);
    SameReads(all, now);
  }

  /** Reading the pruned entries later is reading them all. */
  lemma SameReads(all: seq<Entry>, now: int)
    ensures forall cap, token, later | later >= now ::
      Remaining(Live(all, now), cap, token, later) == Remaining(all, cap, token, later)
  {
    forall cap, token, later | later >= now
      ensures Remaining(Live(all, now), cap, token, later) == Remaining(all, cap, token, later)
    {
      LiveLive(all, now, later);
    }
  }

  /** Rolling one-hour outflow budget per token. */
  class Budget {
    const caps: map<string, nat>
    var spends: seq<Entry>

    constructor (caps: map<string, nat>, spends: seq<Entry>)
      ensures this.caps == caps && this.spends == spends
    {
      this.caps := caps;
      this.spends := spends;
    }

    function Cap(token: string): nat {
      if token in caps then caps[token] else 0
    }

    /** Exactly the entries younger than the window stay, and no read from now on can tell. */
    method Prune(now: int)
      modifies this
      ensures Younger(old(spends), spends, now)
      ensures forall cap, token, later | later >= now ::
        Remaining(spends, cap, token, later) == Remaining(old(spends), cap, token, later)
      ensures spends == Live(old(spends), now)
    {
      spends := KeepYoung(spends, now);
    }

    method Left(token: string, now: int) returns (left: nat)
      modifies this
      ensures spends == Live(old(spends), now)
      ensures left == Remaining(old(spends), Cap(token), token, now)
    {
      Prune(now);
      var used := Sum(spends, TokenWeight(token));
      left := if Cap(token) > used then Cap(token) - used else 0;
    }

    method Record(token: string, amount: nat, now: int, ref: Option<SignedTx>)
      modifies this
      ensures spends == Spend(old(spends), Entry(token, amount, now, ref))
    {
      Prune(now);
      var entry := Entry(token, amount, now, ref);
      var i := Slot(spends, entry);
      if i == |spends| {
        spends := spends + [entry];
      } else {
        spends := spends[i := entry];
      }
    }

    method Adjust(ref: SignedTx, token: string, amount: nat)
      modifies this
      ensures spends == Settle(old(spends), ref, token, amount)
    {
      var i := Find(spends, ref, token);
      if i == |spends| {
        return;
      }
      if amount == 0 {
        spends := spends[..i] + spends[i + 1..];
      } else {
        spends := spends[i := spends[i].(amount := amount)];
      }
    }
  }

  /** The durable and external events among some micro steps. */
  function Events(ms: seq<Micro>): seq<Event> {
    if ms == [] then []
    else (if ms[0].ev.Quiet? then [] else [ms[0].ev]) + Events(ms[1..])
  }

  lemma {:induction false} EventsConcat(a: seq<Micro>, b: seq<Micro>)
    ensures Events(a + b) == Events(a) + Events(b)
  {
    if a == [] {
      assert a + b == b;
    } else {
      assert (a + b)[1..] == a[1..] + b;
      EventsConcat(a[1..], b);
    }
  }

  /** A put that throws: everything undone, nothing handed over. */
  lemma SendThrew(g: GState, req: Request, tx: SignedTx, now: int, a: BroadcastAnswers)
    requires a.put != Saved
    ensures SendSteps(g, req, tx, now, a).1 == Threw
    ensures Final(g, SendSteps(g, req, tx, now, a).0) == Undone(Recorded(g, req, tx, now), req, tx)
    ensures Events(SendSteps(g, req, tx, now, a).0) == Events(PutEvents(a.put, Recorded(g, req, tx, now)))
  {
    var x := Recorded(g, req, tx, now);
    EventsConcat(PutEvents(a.put, x), [Micro(Undone(x, req, tx), Quiet)]);
  }

  /** A put that went through: what handing over comes to. */
  lemma SendSaved(g: GState, x: GState, req: Request, tx: SignedTx, now: int, a: BroadcastAnswers)
    requires a.put == Saved && x == Recorded(g, req, tx, now)
    ensures SendSteps(g, req, tx, now, a).1 == HandOver(x, req, tx, a).1
    ensures Final(g, SendSteps(g, req, tx, now, a).0) == Final(x, HandOver(x, req, tx, a).0)
    ensures Events(SendSteps(g, req, tx, now, a).0) == Events(PutEvents(a.put, x)) + Events(HandOver(x, req, tx, a).0)
  {
    EventsConcat([Micro(x, Commit(x))], HandOver(x, req, tx, a).0);
  }

  /** State shared by the strategies: the gas budget, the backoff, the one outstanding transaction. */
  class Guard {
    const policy: Policy
    const gas: Budget
    /** The two registered strategy budgets: the inventory outflow and the route fill counter. */
    const inventory: Budget
    const route: Budget
    var blocks: Blocks
    var pending: Option<Pending>
    var untracked: Option<Untracked>
    /** The never-pruned history of `gas`, and what happened outside this object. */
    ghost var hist: seq<Entry>
    ghost var log: seq<Event>

    ghost predicate Valid() {
      && gas.caps == map[GAS := policy.hourlyWei]
      && gas != inventory && gas != route && inventory != route
    }

    ghost function State(): GState
      reads this`blocks, this`pending, this`untracked, this`hist, gas, inventory, route
    {
      GState(gas.spends, hist,
        map["inventory" := inventory.spends, "route" := route.spends],
        blocks, pending, untracked)
    }

    /** Restored from a committed record, or new when it is empty. */
    constructor (policy: Policy, saved: GState, inventory: Budget, route: Budget)
      requires inventory != route
      requires saved.budgets == map["inventory" := inventory.spends, "route" := route.spends]
      ensures Valid() && fresh(gas) && this.inventory == inventory && this.route == route
      ensures this.policy == policy && log == [] && State() == saved
    {
      this.policy := policy;
      this.gas := new Budget(map[GAS := policy.hourlyWei], saved.gas);
      this.inventory := inventory;
      this.route := route;
      this.blocks := saved.blocks;
      this.pending := saved.pending;
      this.untracked := saved.untracked;
      this.hist := saved.hist;
      this.log := [];
    }

    method ChargeAtLimit(tx: SignedTx, now: int)
      requires Valid()
      modifies gas, this`hist
      ensures State() == ChargeGas(old(State()), tx, now)
    {
      gas.Record(GAS, tx.MaxCost(), now, Some(tx));
      hist := HistSpend(hist, GasEntry(tx, now));
    }

    method SettleCharge(tx: SignedTx, amount: nat)
      requires Valid()
      modifies gas, this`hist
      ensures State() == SettleGas(old(State()), tx, amount)
    {
      gas.Adjust(tx, GAS, amount);
      hist := Settle(hist, tx, GAS, amount);
    }

    method ReserveOutflow(r: Option<Reservation>, tx: SignedTx, now: int)
      requires Valid()
      modifies inventory, route
      ensures State() == Reserve(old(State()), r, tx, now)
    {
      if r.Some? && r.value.budget == "inventory" {
        inventory.Record(r.value.token, r.value.amount, now, Some(tx));
      } else if r.Some? && r.value.budget == "route" {
        route.Record(r.value.token, r.value.amount, now, Some(tx));
      }
    }

    method ReleaseOutflow(r: Option<Reservation>, tx: SignedTx)
      requires Valid()
      modifies inventory, route
      ensures State() == Release(old(State()), r, tx)
    {
      if r.Some? && r.value.budget == "inventory" {
        inventory.Adjust(tx, r.value.token, 0);
      } else if r.Some? && r.value.budget == "route" {
        route.Adjust(tx, r.value.token, 0);
      }
    }

    /** Durably save the state; `false` when the put throws, whether or not it took effect. */
    method CommitState(put: PutResult) returns (ok: bool)
      modifies this`log
      ensures ok == (put == Saved)
      ensures log == old(log) + Events(PutEvents(put, State()))
    {
      if put != LostError {
        log := log + [Commit(State())];
      }
      ok := put == Saved;
    }

    method UndoSend(req: Request, tx: SignedTx)
      requires Valid()
      modifies this, gas, inventory, route
      ensures log == old(log)
      ensures State() == Undone(old(State()), req, tx)
    {
      SettleCharge(tx, 0);
      ReleaseOutflow(req.reserve, tx);
      pending := None;
    }

    /** Charge, reserve and record `tx` as outstanding. */
    method RecordSend(req: Request, tx: SignedTx, now: int)
      requires Valid()
      modifies this, gas, inventory, route
      ensures log == old(log)
      ensures State() == Recorded(old(State()), req, tx, now)
    {
      ChargeAtLimit(tx, now);
      ReserveOutflow(req.reserve, tx, now);
      pending := Some(NewPending(req, tx, now));
    }

    /** The node refused the bytes: undo, and save that. */
    method UndoRefused(req: Request, tx: SignedTx, put: PutResult) returns (saved: bool)
      requires Valid()
      modifies this, gas, inventory, route
      ensures saved == (put == Saved)
      ensures State() == Undone(old(State()), req, tx)
      ensures log == old(log) + [Closed(tx, NodeRefused)] + Events(PutEvents(put, State()))
    {
      UndoSend(req, tx);
      log := log + [Closed(tx, NodeRefused)];
      saved := CommitState(put);
    }

    /** Hand the committed bytes to the node; undo everything when it refuses them. */
    method HandToNode(req: Request, tx: SignedTx, a: BroadcastAnswers) returns (result: BroadcastResult)
      requires Valid()
      modifies this, gas, inventory, route
      ensures result == HandOver(old(State()), req, tx, a).1
      ensures State() == Final(old(State()), HandOver(old(State()), req, tx, a).0)
      ensures log == old(log) + Events(HandOver(old(State()), req, tx, a).0)
    {
      log := log + [Handed(tx, a.accepted)];
      if a.sendError && a.known == Some(false) {
        var saved := UndoRefused(req, tx, a.put2);
        result := if saved then Failed else Threw;
      } else {
        result := Sent(tx);
      }
    }

    method SignAndSend(req: Request, tx: SignedTx, now: int, a: BroadcastAnswers) returns (result: BroadcastResult)
      requires Valid()
      modifies this, gas, inventory, route
      ensures result == SendSteps(old(State()), req, tx, now, a).1
      ensures State() == Final(old(State()), SendSteps(old(State()), req, tx, now, a).0)
      ensures log == old(log) + Events(SendSteps(old(State()), req, tx, now, a).0)
    {
      ghost var g := State();
      RecordSend(req, tx, now);
      ghost var recorded := State();
      var ok := CommitState(a.put);
      if ok {
        SendSaved(g, recorded, req, tx, now, a);
        result := HandToNode(req, tx, a);
      } else {
        SendThrew(g, req, tx, now, a);
        UndoSend(req, tx);
        result := Threw;
      }
    }

    /** The ONE send path: check, sign, charge, record, commit, hand over. */
    method Send(req: Request, now: int, a: BroadcastAnswers) returns (result: BroadcastResult)
      requires Valid()
      modifies this, gas, inventory, route
      ensures result == Broadcast(policy, old(State()), req, now, a).1
      ensures State() == Final(old(State()), Broadcast(policy, old(State()), req, now, a).0)
      ensures log == old(log) + Events(Broadcast(policy, old(State()), req, now, a).0)
    {
      var refused := Checked(req, now, a);
      if refused.Some? {
        return refused.value;
      }
      result := SignAndSend(req, Sign(req, a.latest.value), now, a);
    }

    /** The checks before anything is signed: why the send ends here, or None. */
    method Checked(req: Request, now: int, a: BroadcastAnswers) returns (refused: Option<BroadcastResult>)
      requires Valid()
      modifies gas, this`untracked
      ensures refused.None? <==> Sends(policy, old(State()), req, now, a)
      ensures refused.None? ==> State() == old(State()).(gas := Live(old(State()).gas, now), untracked := None)
      ensures refused.Some? ==>
        var (ms, r) := Broadcast(policy, old(State()), req, now, a);
        refused.value == r && State() == Final(old(State()), ms) && Events(ms) == []
    {
      if pending.Some? {
        return Some(Refused(StillPending));
      }
      if req.gasPrice > policy.maxGasPriceWei {
        return Some(Refused(PriceTooHigh));
      }
      var room := HasRoom(req.gas * req.gasPrice, now);
      if !room {
        return Some(Refused(NoGasRoom));
      }
      if a.latest.None? {
        return Some(Threw);
      }
      if a.inFlight.Some? && a.inFlight.value > a.latest.value {
        NoteUntracked(now, a.inFlight.value - a.latest.value);
        return Some(Refused(UntrackedInFlight));
      }
      untracked := None;
      return None;
    }

    method HasRoom(cost: nat, now: int) returns (room: bool)
      requires Valid()
      modifies gas
      ensures State() == old(State()).(gas := Live(old(State()).gas, now))
      ensures room <==> Remaining(old(State()).gas, policy.hourlyWei, GAS, now) >= cost
    {
      var left := gas.Left(GAS, now);
      room := left >= cost;
    }

    method NoteUntracked(now: int, count: nat)
      modifies this`untracked
      ensures State() == old(State()).(untracked :=
        Some(Untracked(if old(untracked).Some? then old(untracked).value.since else now, now, count)))
    {
      var since := if untracked.Some? then untracked.value.since else now;
      untracked := Some(Untracked(since, now, count));
    }

    /** Apply a receipt: settle the gas, release on a timely revert, clear or strike the key. */
    method ReadReceipt(r: Receipt, now: int) returns (status: Status)
      requires Valid() && pending.Some?
      modifies this, gas, inventory, route
      ensures status == ReceiptStep(old(State()), old(pending).value, r, now).1
      ensures State() == Final(old(State()), ReceiptStep(old(State()), old(pending).value, r, now).0)
      ensures log == old(log) + Events(ReceiptStep(old(State()), old(pending).value, r, now).0)
    {
      var p := pending.value;
      var cost := ReceiptCost(r, p.tx);
      SettleReceipt(p, r);
      blocks := ReceiptBlocks(blocks, p, r.success, now);
      pending := None;
      log := log + [Closed(p.tx, if r.success then Succeeded else RevertedOnChain)];
      status := if r.success then Success(cost) else RevertedTx(cost);
    }

    /** The receipt's real cost replaces the charge; a revert seen in time releases the reservation. */
    method SettleReceipt(p: Pending, r: Receipt)
      requires Valid()
      modifies gas, this`hist, inventory, route
      ensures State() == SettledBy(old(State()), p, r)
    {
      SettleCharge(p.tx, ReceiptCost(r, p.tx));
      if !r.success && !p.timedOut {
        ReleaseOutflow(p.reserved, p.tx);
      }
    }

    method DropPending(now: int, reason: Reason, how: Close)
      requires pending.Some?
      modifies this
      ensures State() == Drop(old(State()), old(pending).value, now, reason)
      ensures log == old(log) + [Closed(old(pending).value.tx, how)]
    {
      var p := pending.value;
      blocks := DropBlocks(blocks, p, now, reason);
      pending := None;
      log := log + [Closed(p.tx, how)];
    }

    method StillUnmined(now: int, known: Option<bool>) returns (status: Status)
      requires Valid() && pending.Some?
      modifies this
      ensures status == Unmined(policy, old(State()), old(pending).value, now, known).1
      ensures State() == Final(old(State()), Unmined(policy, old(State()), old(pending).value, now, known).0)
      ensures log == old(log) + Events(Unmined(policy, old(State()), old(pending).value, now, known).0)
    {
      var p := pending.value;
      var age := now - p.sentAt;
      if !p.timedOut && age >= policy.receiptTimeoutMs {
        pending := Some(p.(timedOut := true));
        return Timeout;
      }
      if age < PENDING_DROP_MS || known != Some(false) {
        return Waiting;
      }
      DropPending(now, NotFound(p.tx), DroppedUnknown);
      return Dropped(false, p.tx.MaxCost());
    }

    method LookOverdue(now: int, a: ResolveAnswers) returns (status: Status)
      requires Valid() && pending.Some?
      modifies this, gas, inventory, route
      ensures status == ResolveOverdue(policy, old(State()), old(pending).value, now, a).1
      ensures State() == Final(old(State()), ResolveOverdue(policy, old(State()), old(pending).value, now, a).0)
      ensures log == old(log) + Events(ResolveOverdue(policy, old(State()), old(pending).value, now, a).0)
    {
      var p := pending.value;
      if a.mined.Some? && a.mined.value > p.tx.nonce {
        if a.receipt2.Some? {
          status := ReadReceipt(a.receipt2.value, now);
          return;
        }
        DropPending(now, Replaced(p.tx), ReplacedByNonce);
        return Dropped(true, p.tx.MaxCost());
      }
      if Rebroadcasts(p, now, a.known) {
        log := log + [Handed(p.tx, a.accepted)];
        pending := Some(p.(rebroadcasts := p.rebroadcasts + 1, lastBroadcastAt := now));
        ghost var resent := Micro(State(), Handed(p.tx, a.accepted));
        EventsConcat([resent], Unmined(policy, State(), pending.value, now, a.known).0);
      }
      status := StillUnmined(now, a.known);
    }

    /** Look once at the outstanding transaction and apply what the node says. */
    method LookAtPending(now: int, a: ResolveAnswers) returns (status: Status)
      requires Valid()
      modifies this, gas, inventory, route
      ensures status == Resolve(policy, old(State()), now, a).1
      ensures State() == Final(old(State()), Resolve(policy, old(State()), now, a).0)
      ensures log == old(log) + Events(Resolve(policy, old(State()), now, a).0)
    {
      if pending.None? {
        return NothingPending;
      }
      if a.receipt.Some? {
        status := ReadReceipt(a.receipt.value, now);
      } else if Overdue(pending.value, now) {
        status := LookOverdue(now, a);
      } else {
        status := StillUnmined(now, Some(true));
      }
    }
  }
}
