/**
 * The transaction lifecycle of packages/beta-filler/src/guard.ts as functions on the
 * guard's state. Each operation is the list of MICRO steps it takes: the memory state
 * after the step and the durable or external event the step caused, so that a crash may
 * fall between any two of them. Answers of the node and the state store are inputs.
 */
module GuardSpec {
  import opened Common
  import opened Ledger

  /** Budget key of the shared hourly gas ledger. */
  const GAS := "gas"

  const BASE_MS := 60_000
  const FACTOR := 4
  const MAX_MS := 3_600_000
  const MAX_STRIKES := 5
  const SIM_BASE_MS := 30_000
  const SIM_MAX_MS := 300_000
  const PENDING_DROP_MS := 900_000
  const FORGET_MS := 86_400_000
  const NO_EXPIRY_BLACKLIST_MS := 604_800_000
  const MAX_DATE_MS := 8_640_000_000_000_000
  const REBROADCAST_AFTER_MS := 60_000
  const REBROADCAST_MAX := 5

  datatype Policy = Policy(maxGasPriceWei: nat, hourlyWei: nat, receiptTimeoutMs: int)

  datatype Reason = Reverted(tx: SignedTx) | Replaced(tx: SignedTx) | NotFound(tx: SignedTx)

  datatype Backoff = Backoff(strikes: nat, until: int, expiry: nat, reason: Reason)

  datatype SimBackoff = SimBackoff(fails: nat, until: int)

  /** The per-key backoff: on-chain strikes, and short per-strategy blocks before a send. */
  datatype Blocks = Blocks(backoff: map<string, Backoff>, sim: map<string, SimBackoff>)

  datatype Reservation = Reservation(budget: string, token: string, amount: nat)

  datatype Untracked = Untracked(since: int, lastAt: int, count: nat)

  /** THE outstanding transaction. */
  datatype Pending = Pending(
    tx: SignedTx,
    rebroadcasts: nat,
    lastBroadcastAt: int,
    orderHash: Option<string>,
    backoffKey: Option<string>,
    expiry: nat,
    sentAt: int,
    timedOut: bool,
    reserved: Option<Reservation>,
    bookFillable: Option<nat>)
  {
    /** The backoff key of the transaction, if it has one. */
    function Key(): Option<string> {
      if orderHash.Some? then orderHash else backoffKey
    }
  }

  /** `hist` is the never-pruned history of the gas ledger `gas`. */
  datatype GState = GState(
    gas: seq<Entry>,
    hist: seq<Entry>,
    budgets: map<string, seq<Entry>>,
    blocks: Blocks,
    pending: Option<Pending>,
    untracked: Option<Untracked>)
  {
    /** `tx` is the outstanding transaction. */
    predicate Holds(tx: SignedTx) {
      pending.Some? && pending.value.tx == tx
    }
  }

  datatype Request = Request(
    to: string,
    data: string,
    value: nat,
    gas: nat,
    gasPrice: nat,
    orderHash: Option<string>,
    backoffKey: Option<string>,
    expiry: nat,
    reserve: Option<Reservation>)

  datatype Receipt = Receipt(success: bool, gasUsed: nat, effectiveGasPrice: Option<nat>)

  /** How a transaction stopped being outstanding. */
  datatype Close = Succeeded | RevertedOnChain | ReplacedByNonce | DroppedUnknown | NodeRefused

  datatype Event =
    | Quiet                                   // a change of memory only
    | Commit(state: GState)                   // the store now holds `state`
    | Handed(tx: SignedTx, accepted: bool)    // the raw bytes went to the node; `accepted`: into its mempool
    | Closed(tx: SignedTx, how: Close)        // resolved in memory

  datatype Micro = Micro(g: GState, ev: Event)

  /** The memory state an operation ends in. */
  function Final(g: GState, ms: seq<Micro>): GState {
    if ms == [] then g else ms[|ms| - 1].g
  }

  // ------------------------------------------------------------------------- backoff

  function SimDelay(fails: nat): int
    requires fails >= 1
  {
    Min(SIM_BASE_MS * Pow(2, fails - 1), SIM_MAX_MS)
  }

  function RevertDelay(strikes: nat): int
    requires strikes >= 1
  {
    Min(BASE_MS * Pow(FACTOR, strikes - 1), MAX_MS)
  }

  function Prune(b: Blocks, now: int): Blocks {
    Blocks(map k | k in b.backoff && now - b.backoff[k].until <= FORGET_MS :: b.backoff[k],
           map k | k in b.sim && now - b.sim[k].until <= FORGET_MS :: b.sim[k])
  }

  function OnSimFail(b: Blocks, key: string, strategy: string, now: int): Blocks {
    var k := strategy + ":" + key;
    var fails := (if k in b.sim && now - b.sim[k].until < FORGET_MS then b.sim[k].fails else 0) + 1;
    Prune(b.(sim := b.sim[k := SimBackoff(fails, now + SimDelay(fails))]), now)
  }

  function StrikesAfter(b: Blocks, key: string, now: int): nat {
    (if key in b.backoff && now - b.backoff[key].until < FORGET_MS then b.backoff[key].strikes else 0) + 1
  }

  function BlockedUntil(strikes: nat, now: int, expiry: nat): int
    requires strikes >= 1
  {
    if strikes >= MAX_STRIKES then
      var until := if expiry > 0 then Min(expiry * 1000, MAX_DATE_MS) else now + NO_EXPIRY_BLACKLIST_MS;
      if until <= now then now + MAX_MS else until
    else now + RevertDelay(strikes)
  }

  function OnRevert(b: Blocks, key: string, now: int, expiry: nat, reason: Reason): Blocks {
    var strikes := StrikesAfter(b, key, now);
    Prune(b.(backoff := b.backoff[key := Backoff(strikes, BlockedUntil(strikes, now, expiry), expiry, reason)]), now)
  }

  function OnDropped(b: Blocks, key: string, now: int, expiry: nat, reason: Reason): Blocks {
    var strikes := if key in b.backoff then b.backoff[key].strikes else 0;
    b.(backoff := b.backoff[key := Backoff(strikes, now + SIM_BASE_MS, expiry, reason)])
  }

  predicate EndsWith(s: string, suffix: string) {
    |s| >= |suffix| && s[|s| - |suffix|..] == suffix
  }

  function OnSuccess(b: Blocks, key: string): Blocks {
    Blocks(b.backoff - {key}, map k | k in b.sim && !EndsWith(k, ":" + key) :: b.sim[k])
  }

  // ------------------------------------------------------------------------- charges

  function GasEntry(tx: SignedTx, now: int): Entry {
    Entry(GAS, tx.MaxCost(), now, Some(tx))
  }

  /** Charge gas at the full limit. */
  function ChargeGas(g: GState, tx: SignedTx, now: int): GState {
    g.(gas := Spend(g.gas, GasEntry(tx, now)), hist := HistSpend(g.hist, GasEntry(tx, now)))
  }

  function SettleGas(g: GState, tx: SignedTx, amount: nat): GState {
    g.(gas := Settle(g.gas, tx, GAS, amount), hist := Settle(g.hist, tx, GAS, amount))
  }

  /** A reservation on a budget nobody registered is ignored. */
  function Reserve(g: GState, r: Option<Reservation>, tx: SignedTx, now: int): GState {
    if r.Some? && r.value.budget in g.budgets then
      g.(budgets := g.budgets[r.value.budget :=
        Spend(g.budgets[r.value.budget], Entry(r.value.token, r.value.amount, now, Some(tx)))])
    else g
  }

  function Release(g: GState, r: Option<Reservation>, tx: SignedTx): GState {
    if r.Some? && r.value.budget in g.budgets then
      g.(budgets := g.budgets[r.value.budget := Settle(g.budgets[r.value.budget], tx, r.value.token, 0)])
    else g
  }

  // ----------------------------------------------------------------------- broadcast

  /** A put that throws may or may not have reached the store. */
  datatype PutResult = Saved | LostError | SavedError

  datatype BroadcastAnswers = BroadcastAnswers(
    latest: Option<nat>,      // mined nonce; None: the read throws
    inFlight: Option<nat>,    // pending nonce; None: no such tag
    put: PutResult,
    sendError: bool,
    accepted: bool,           // whether the node took the bytes, whatever the client saw
    known: Option<bool>,      // `txKnown` after a send error
    put2: PutResult)

  datatype Refusal = StillPending | PriceTooHigh | NoGasRoom | UntrackedInFlight

  datatype BroadcastResult = Refused(why: Refusal) | Sent(tx: SignedTx) | Failed | Threw

  function Sign(req: Request, nonce: nat): SignedTx {
    SignedTx(nonce, req.to, req.data, req.value, req.gas, req.gasPrice)
  }

  function NewPending(req: Request, tx: SignedTx, now: int): Pending {
    Pending(tx, 0, now, req.orderHash, req.backoffKey, req.expiry, now, false, req.reserve, None)
  }

  /** Charged, reserved and recorded: what is committed before the bytes go out. */
  function Recorded(g: GState, req: Request, tx: SignedTx, now: int): GState {
    Reserve(ChargeGas(g, tx, now), req.reserve, tx, now).(pending := Some(NewPending(req, tx, now)))
  }

  function Undone(g: GState, req: Request, tx: SignedTx): GState {
    Release(SettleGas(g, tx, 0), req.reserve, tx).(pending := None)
  }

  function PutEvents(p: PutResult, g: GState): seq<Micro> {
    if p == LostError then [] else [Micro(g, Commit(g))]
  }

  /** Hand the committed bytes to the node; a definite refusal undoes everything. */
  function HandOver(g: GState, req: Request, tx: SignedTx, a: BroadcastAnswers): (seq<Micro>, BroadcastResult) {
    var handed := Micro(g, Handed(tx, a.accepted));
    if a.sendError && a.known == Some(false) then
      var undone := Undone(g, req, tx);
      ([handed] + ([Micro(undone, Closed(tx, NodeRefused))] + PutEvents(a.put2, undone)),
       if a.put2 == Saved then Failed else Threw)
    else ([handed], Sent(tx))
  }

  /** Charge and record `tx`, commit, hand over. A put that throws undoes the charge and sends nothing. */
  function SendSteps(
    g: GState, req: Request, tx: SignedTx, now: int, a: BroadcastAnswers): (seq<Micro>, BroadcastResult) {
    var r := Recorded(g, req, tx, now);
    if a.put != Saved then (PutEvents(a.put, r) + [Micro(Undone(r, req, tx), Quiet)], Threw)
    else
      var (rest, result) := HandOver(r, req, tx, a);
      ([Micro(r, Commit(r))] + rest, result)
  }

  function Broadcast(
    policy: Policy, g: GState, req: Request, now: int, a: BroadcastAnswers): (seq<Micro>, BroadcastResult) {
    if g.pending.Some? then ([], Refused(StillPending))
    else if req.gasPrice > policy.maxGasPriceWei then ([], Refused(PriceTooHigh))
    else
      var pruned := g.(gas := Live(g.gas, now));
      if Remaining(g.gas, policy.hourlyWei, GAS, now) < req.gas * req.gasPrice then
        ([Micro(pruned, Quiet)], Refused(NoGasRoom))
      else if a.latest.None? then ([Micro(pruned, Quiet)], Threw)
      else
        var nonce := a.latest.value;
        if a.inFlight.Some? && a.inFlight.value > nonce then
          var since := if g.untracked.Some? then g.untracked.value.since else now;
          ([Micro(pruned.(untracked := Some(Untracked(since, now, a.inFlight.value - nonce))), Quiet)],
           Refused(UntrackedInFlight))
        else SendSteps(pruned.(untracked := None), req, Sign(req, nonce), now, a)
  }

  /** The request passes every check: the bytes will be signed. */
  predicate Sends(policy: Policy, g: GState, req: Request, now: int, a: BroadcastAnswers) {
    && g.pending.None?
    && req.gasPrice <= policy.maxGasPriceWei
    && Remaining(g.gas, policy.hourlyWei, GAS, now) >= req.gas * req.gasPrice
    && a.latest.Some?
    && !(a.inFlight.Some? && a.inFlight.value > a.latest.value)
  }

  // ------------------------------------------------------------------------- resolve

  datatype ResolveAnswers = ResolveAnswers(
    receipt: Option<Receipt>,
    mined: Option<nat>,          // mined nonce, when overdue
    receipt2: Option<Receipt>,   // the re-read when the nonce passed
    known: Option<bool>,
    accepted: bool)              // whether the node took a re-broadcast

  /** What one look found; `cost` is the gas charged for a transaction that is no longer outstanding. */
  datatype Status =
    | NothingPending
    | Success(cost: nat)
    | RevertedTx(cost: nat)
    | Dropped(replaced: bool, cost: nat)
    | Timeout
    | Waiting

  function ReceiptCost(r: Receipt, tx: SignedTx): nat {
    r.gasUsed * if r.effectiveGasPrice.Some? then r.effectiveGasPrice.value else tx.gasPrice
  }

  /** The backoff after a receipt: a success clears the key, a revert is a strike. */
  function ReceiptBlocks(b: Blocks, p: Pending, success: bool, now: int): Blocks {
    if p.Key().None? then b
    else if success then OnSuccess(b, p.Key().value)
    else OnRevert(b, p.Key().value, now, p.expiry, Reverted(p.tx))
  }

  /** The ledgers after a receipt: its real cost, and the reservation released by a revert seen in time. */
  function SettledBy(g: GState, p: Pending, r: Receipt): GState {
    var settled := SettleGas(g, p.tx, ReceiptCost(r, p.tx));
    if !r.success && !p.timedOut then Release(settled, p.reserved, p.tx) else settled
  }

  function ApplyReceipt(g: GState, p: Pending, r: Receipt, now: int): GState {
    SettledBy(g, p, r).(blocks := ReceiptBlocks(g.blocks, p, r.success, now), pending := None)
  }

  function ReceiptStep(g: GState, p: Pending, r: Receipt, now: int): (seq<Micro>, Status) {
    ([Micro(ApplyReceipt(g, p, r, now), Closed(p.tx, if r.success then Succeeded else RevertedOnChain))],
     if r.success then Success(ReceiptCost(r, p.tx)) else RevertedTx(ReceiptCost(r, p.tx)))
  }

  function DropBlocks(b: Blocks, p: Pending, now: int, reason: Reason): Blocks {
    if p.Key().Some? then OnDropped(b, p.Key().value, now, p.expiry, reason) else b
  }

  function Drop(g: GState, p: Pending, now: int, reason: Reason): GState {
    g.(blocks := DropBlocks(g.blocks, p, now, reason), pending := None)
  }

  predicate Overdue(p: Pending, now: int) {
    now - p.lastBroadcastAt >= REBROADCAST_AFTER_MS || now - p.sentAt >= PENDING_DROP_MS
  }

  predicate Rebroadcasts(p: Pending, now: int, known: Option<bool>) {
    && known == Some(false)
    && p.rebroadcasts < REBROADCAST_MAX
    && now - p.lastBroadcastAt >= REBROADCAST_AFTER_MS
    && now - p.sentAt < PENDING_DROP_MS
  }

  /** The unmined cases: time out, keep waiting, or drop; `known` is `Some(true)` when not asked. */
  function Unmined(policy: Policy, g: GState, p: Pending, now: int, known: Option<bool>): (seq<Micro>, Status) {
    var age := now - p.sentAt;
    if !p.timedOut && age >= policy.receiptTimeoutMs then
      ([Micro(g.(pending := Some(p.(timedOut := true))), Quiet)], Timeout)
    else if age < PENDING_DROP_MS || known != Some(false) then ([], Waiting)
    else ([Micro(Drop(g, p, now, NotFound(p.tx)), Closed(p.tx, DroppedUnknown))], Dropped(false, p.tx.MaxCost()))
  }

  function ResolveOverdue(policy: Policy, g: GState, p: Pending, now: int, a: ResolveAnswers): (seq<Micro>, Status) {
    if a.mined.Some? && a.mined.value > p.tx.nonce then
      if a.receipt2.Some? then ReceiptStep(g, p, a.receipt2.value, now)
      else ([Micro(Drop(g, p, now, Replaced(p.tx)), Closed(p.tx, ReplacedByNonce))], Dropped(true, p.tx.MaxCost()))
    else if Rebroadcasts(p, now, a.known) then
      var q := p.(rebroadcasts := p.rebroadcasts + 1, lastBroadcastAt := now);
      var resent := g.(pending := Some(q));
      var (rest, status) := Unmined(policy, resent, q, now, a.known);
      ([Micro(resent, Handed(p.tx, a.accepted))] + rest, status)
    else Unmined(policy, g, p, now, a.known)
  }

  function Resolve(policy: Policy, g: GState, now: int, a: ResolveAnswers): (seq<Micro>, Status) {
    if g.pending.None? then ([], NothingPending)
    else
      var p := g.pending.value;
      if a.receipt.Some? then ReceiptStep(g, p, a.receipt.value, now)
      else if !Overdue(p, now) then Unmined(policy, g, p, now, Some(true))
      else ResolveOverdue(policy, g, p, now, a)
  }
}
