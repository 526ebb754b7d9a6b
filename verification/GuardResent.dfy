/**
 * A run in which an undone send loses an earlier charge: bytes sent and dropped, still
 * charged, are signed again and their put throws.
 */
module GuardResent {
  import opened Common
  import opened Ledger
  import opened GuardSpec
  import opened GuardRuns
  import opened GuardTheorems
  import opened GuardCrash

  /** A send whose bytes the node never takes. */
  function LostSend(nonce: nat, put: PutResult): BroadcastAnswers {
    BroadcastAnswers(Some(nonce), None, put, true, false, None, Saved)
  }

  /** No receipt, no newer nonce, and the node does not know the transaction. */
  const UNKNOWN := ResolveAnswers(None, None, None, Some(false), false)

  /** Send, look twice a quarter of an hour later, and send the same bytes again. */
  function FirstSteps(req: Request, nonce: nat, at: int): seq<Step> {
    var later := at + PENDING_DROP_MS;
    [DoBroadcast(req, at, LostSend(nonce, Saved), None),
     DoResolve(later, UNKNOWN, None), DoResolve(later, UNKNOWN, None)]
  }

  function Again(req: Request, nonce: nat, at: int): Step {
    DoBroadcast(req, at + PENDING_DROP_MS, LostSend(nonce, LostError), None)
  }

  /** What the guard holds of the charge, in a world where nothing was mined or is about to be. */
  ghost predicate ChargedOnly(w: World, tx: SignedTx, at: int, clock: int) {
    && w.mem.gas == [GasEntry(tx, at)] && w.mem.hist == [GasEntry(tx, at)]
    && w.mempool == {} && w.mined == map[] && w.clock == clock
  }

  ghost predicate Fitting(policy: Policy, w: World, req: Request, at: int) {
    && Started(w) && at >= w.clock
    && req.gasPrice <= policy.maxGasPriceWei && 2 * (req.gas * req.gasPrice) <= policy.hourlyWei
  }

  lemma FirstSend(policy: Policy, w: World, req: Request, nonce: nat, at: int)
    requires Fitting(policy, w, req, at)
    ensures var v := Next(policy, w, FirstSteps(req, nonce, at)[0]);
      ChargedOnly(v, Sign(req, nonce), at, at) && v.mem.pending == Some(NewPending(req, Sign(req, nonce), at))
  {
    var a := LostSend(nonce, Saved);
    assert Remaining([], policy.hourlyWei, GAS, at) == policy.hourlyWei;
    assert Sends(policy, w.mem, req, at, a);
    SentMicros(policy, w.mem, req, at, a);
    var ms := Broadcast(policy, w.mem, req, at, a).0;
    TwoMicros(w.(clock := at), ms[0], ms[1]);
    assert ms == [ms[0], ms[1]];
  }

  lemma OneMicro(w: World, ms: seq<Micro>)
    requires |ms| <= 1
    ensures ApplyAll(w, ms) == if ms == [] then w else Apply(w, ms[0])
  {
    if ms != [] {
      assert ms[1..] == [];
    }
  }

  /** A look says "timeout" when it is due, or drops the transaction. */
  lemma LookDrops(policy: Policy, w: World, tx: SignedTx, at: int)
    requires ChargedOnly(w, tx, at, w.clock) && w.clock <= at + PENDING_DROP_MS
    requires w.mem.pending.Some? ==> w.mem.pending.value.tx == tx && w.mem.pending.value.sentAt == at
    ensures var v := Next(policy, w, DoResolve(at + PENDING_DROP_MS, UNKNOWN, None));
      && ChargedOnly(v, tx, at, at + PENDING_DROP_MS)
      && (v.mem.pending.Some? ==>
            && v.mem.pending.value == w.mem.pending.value.(timedOut := true)
            && w.mem.pending.Some? && !w.mem.pending.value.timedOut)
  {
    OneMicro(w.(clock := at + PENDING_DROP_MS), Resolve(policy, w.mem, at + PENDING_DROP_MS, UNKNOWN).0);
  }

  lemma {:induction false} TruthfulFirst(policy: Policy, w: World, steps: seq<Step>, s: Step)
    requires TruthfulRun(policy, w, steps) && Truthful(Run(policy, w, steps), s)
    ensures TruthfulRun(policy, w, steps + [s])
    decreases |steps|
  {
    if steps == [] {
      assert steps + [s] == [s] && [s][1..] == [];
    } else {
      assert (steps + [s])[1..] == steps[1..] + [s];
      TruthfulFirst(policy, Next(policy, w, steps[0]), steps[1..], s);
    }
  }

  /** After the two looks nothing is outstanding and the charge is still held. */
  lemma DroppedButCharged(policy: Policy, w: World, req: Request, nonce: nat, at: int)
    requires Fitting(policy, w, req, at)
    ensures var v := Run(policy, w, FirstSteps(req, nonce, at));
      && TruthfulRun(policy, w, FirstSteps(req, nonce, at))
      && ChargedOnly(v, Sign(req, nonce), at, at + PENDING_DROP_MS) && v.mem.pending.None?
  {
    var s := FirstSteps(req, nonce, at);
    var v := Next(policy, w, s[0]);
    FirstSend(policy, w, req, nonce, at);
    LookDrops(policy, v, Sign(req, nonce), at);
    LookDrops(policy, Next(policy, v, s[1]), Sign(req, nonce), at);
    assert s[1..] == [s[1], s[2]] && s[1..][1..] == [s[2]] && s[1..][1..][1..] == [];
    ThreeSteps(policy, w, s[0], s[1], s[2]);
  }

  lemma ThreeSteps(policy: Policy, w: World, a: Step, b: Step, c: Step)
    ensures Run(policy, w, [a, b, c]) == Next(policy, Next(policy, Next(policy, w, a), b), c)
    ensures TruthfulRun(policy, w, [a, b, c]) <==>
      && Truthful(w, a) && Truthful(Next(policy, w, a), b) && Truthful(Next(policy, Next(policy, w, a), b), c)
  {
    var v := Next(policy, w, a);
    var u := Next(policy, v, b);
    assert [a, b, c][1..] == [b, c] && [b, c][1..] == [c] && [c][1..] == [];
    assert Run(policy, Next(policy, u, c), []) == Next(policy, u, c);
    assert Run(policy, u, [c]) == Next(policy, u, c);
    assert Run(policy, v, [b, c]) == Next(policy, u, c);
    assert TruthfulRun(policy, u, [c]) <==> Truthful(u, c);
    assert TruthfulRun(policy, v, [b, c]) <==> Truthful(v, b) && Truthful(u, c);
  }

  /**
   * A whole run to the lost charge, from an empty store, for any request that fits twice in
   * the hourly budget: before the last send the ledger holds the first charge, a quarter of
   * an hour old; after it the ledger is empty and the whole budget is free.
   */
  lemma ChargeLostInRun(policy: Policy, w: World, req: Request, nonce: nat, at: int)
    requires Fitting(policy, w, req, at)
    ensures var first, again := FirstSteps(req, nonce, at), Again(req, nonce, at);
      var v, u := Run(policy, w, first), Run(policy, w, first + [again]);
      && TruthfulRun(policy, w, first + [again])
      && v.mem.gas == [GasEntry(Sign(req, nonce), v.clock - PENDING_DROP_MS)]
      && Remaining(v.mem.gas, policy.hourlyWei, GAS, v.clock) == policy.hourlyWei - req.gas * req.gasPrice
      && u.clock == v.clock && u.mem.gas == []
      && Remaining(u.mem.gas, policy.hourlyWei, GAS, u.clock) == policy.hourlyWei
  {
    var first, again := FirstSteps(req, nonce, at), Again(req, nonce, at);
    var v := Run(policy, w, first);
    var tx, a := Sign(req, nonce), LostSend(nonce, LostError);
    DroppedButCharged(policy, w, req, nonce, at);
    TruthfulFirst(policy, w, first, again);
    OneMore(policy, w, first, again);
    LeftOfCharge(policy, tx, at, v.clock);
    assert Sends(policy, v.mem, req, v.clock, a);
    ResentBytesLoseTheirCharge(policy, v.mem, req, v.clock, a);
    ThrownPut(policy, v, req, v.clock, a);
  }

  lemma LeftOfCharge(policy: Policy, tx: SignedTx, at: int, now: int)
    requires now == at + PENDING_DROP_MS && tx.MaxCost() <= policy.hourlyWei
    ensures Remaining([GasEntry(tx, at)], policy.hourlyWei, GAS, now) == policy.hourlyWei - tx.MaxCost()
  {
    var s := [GasEntry(tx, at)];
    assert s[1..] == [] && Live(s, now) == s;
    assert Sum(s, TokenWeight(GAS)) == tx.MaxCost() + Sum([], TokenWeight(GAS));
  }

  /** A put that throws without effect leaves the state the send ends in, in memory. */
  lemma ThrownPut(policy: Policy, w: World, req: Request, now: int, a: BroadcastAnswers)
    requires Sends(policy, w.mem, req, now, a) && a.put == LostError
    ensures var u := Next(policy, w, DoBroadcast(req, now, a, None));
      u.mem == Final(w.mem, Broadcast(policy, w.mem, req, now, a).0) && u.clock == now
  {
    var ms := Broadcast(policy, w.mem, req, now, a).0;
    assert |ms| == 1;
    OneMicro(w.(clock := now), ms);
  }
}
