/**
 * When a key may be acted on again (packages/beta-filler/src/guard.ts): strikes and their
 * delays over runs of reverts, the blacklist, drops, pre-send failures, and forgetting.
 */
module GuardBackoff {
  import opened Common
  import opened GuardSpec
  import opened GuardCrash

  /** Why a key is not to be acted on: for everyone, or for one strategy. */
  datatype Admission = Admission(global: bool)

  function Admit(g: GState, key: string, strategy: string, now: int): Option<Admission> {
    if g.pending.Some? && (g.pending.value.orderHash == Some(key) || g.pending.value.backoffKey == Some(key)) then
      Some(Admission(true))
    else if key in g.blocks.backoff && now < g.blocks.backoff[key].until then Some(Admission(true))
    else
      var s := strategy + ":" + key;
      if s in g.blocks.sim && now < g.blocks.sim[s].until then Some(Admission(false)) else None
  }

  /** Blocked for every strategy by the on-chain backoff until `until`. */
  ghost predicate BlockedExactly(b: Blocks, key: string, strikes: nat, until: int) {
    key in b.backoff && b.backoff[key].strikes == strikes && b.backoff[key].until == until
  }

  // ------------------------------------------------------------------------ reverts

  /** The end of the block after the `n`-th revert in a row, at `now`. */
  function RevertedUntil(n: nat, now: int, expiry: nat): int {
    if n <= 1 then now + 60_000
    else if n == 2 then now + 4 * 60_000
    else if n == 3 then now + 16 * 60_000
    else if n == 4 then now + 60 * 60_000
    else
      // blacklisted: until the order's expiry, or a week without one, an hour when that is past
      var until := if expiry == 0 then now + 7 * 24 * 60 * 60_000 else Min(expiry * 1000, MAX_DATE_MS);
      if until > now then until else now + 60 * 60_000
  }

  lemma DelayIs(n: nat)
    requires 1 <= n <= 4
    ensures RevertDelay(n) ==
      if n == 1 then 60_000 else if n == 2 then 240_000 else if n == 3 then 960_000 else 3_600_000
  {
    assert Pow(FACTOR, 0) == 1 && Pow(FACTOR, 1) == 4 && Pow(FACTOR, 2) == 16 && Pow(FACTOR, 3) == 64;
  }

  /** The number of the next strike: the first again once a day has gone by since the last block. */
  function NextStrike(b: Blocks, key: string, now: int): nat {
    if key in b.backoff && now - b.backoff[key].until < 24 * 60 * 60_000 then b.backoff[key].strikes + 1 else 1
  }

  function StrikesOf(b: Blocks, key: string): nat {
    if key in b.backoff then b.backoff[key].strikes else 0
  }

  /** One revert: the next strike when the last block lapsed less than a day ago, the first one otherwise. */
  lemma RevertIs(b: Blocks, key: string, now: int, expiry: nat, reason: Reason)
    ensures var n := NextStrike(b, key, now);
      BlockedExactly(OnRevert(b, key, now, expiry, reason), key, n, RevertedUntil(n, now, expiry))
  {
    var n := StrikesAfter(b, key, now);
    if n <= 4 {
      DelayIs(n);
    }
  }

  /** Reverts on one key at the given times. */
  function Reverts(b: Blocks, key: string, times: seq<int>, expiry: nat, reason: Reason): Blocks {
    if times == [] then b
    else
      var last := |times| - 1;
      OnRevert(Reverts(b, key, times[..last], expiry, reason), key, times[last], expiry, reason)
  }

  /** Each revert less than a day after the block of the one before lapsed. */
  ghost predicate InARow(times: seq<int>, expiry: nat) {
    forall i | 0 < i < |times| :: times[i] - RevertedUntil(i, times[i - 1], expiry) < 24 * 60 * 60_000
  }

  /**
   * Over any number of reverts in a row: that many strikes, and a block of 1, 4, 16 and 60
   * minutes, from the fifth on to the order's expiry.
   */
  lemma {:induction false} StrikesInARow(b: Blocks, key: string, times: seq<int>, expiry: nat, reason: Reason)
    requires key !in b.backoff && times != [] && InARow(times, expiry)
    ensures var n := |times|;
      BlockedExactly(Reverts(b, key, times, expiry, reason), key, n, RevertedUntil(n, times[n - 1], expiry))
  {
    var last := |times| - 1;
    var before := times[..last];
    if last > 0 {
      assert InARow(before, expiry) by {
        forall i | 0 < i < |before| ensures before[i] - RevertedUntil(i, before[i - 1], expiry) < 24 * 60 * 60_000 {
          assert before[i] == times[i] && before[i - 1] == times[i - 1];
        }
      }
      StrikesInARow(b, key, before, expiry, reason);
    }
    RevertIs(Reverts(b, key, before, expiry, reason), key, times[last], expiry, reason);
  }

  // ------------------------------------------------------- drops, successes, failures

  /** A drop keeps the strikes and blocks for half a minute. */
  lemma DropIs(b: Blocks, key: string, now: int, expiry: nat, reason: Reason)
    ensures BlockedExactly(OnDropped(b, key, now, expiry, reason), key, StrikesOf(b, key), now + 30_000)
    ensures OnDropped(b, key, now, expiry, reason).sim == b.sim
  {
  }

  /** A success clears every block of the key. */
  lemma SuccessClears(b: Blocks, key: string, strategy: string)
    ensures key !in OnSuccess(b, key).backoff && strategy + ":" + key !in OnSuccess(b, key).sim
  {
    var s := strategy + ":" + key;
    assert s == strategy + (":" + key);
    assert EndsWith(s, ":" + key);
  }

  /** The end of the block after the `n`-th pre-send failure in a row. */
  function FailedUntil(n: nat, now: int): int {
    now +
      if n <= 1 then 30_000 else if n == 2 then 60_000 else if n == 3 then 120_000 else if n == 4 then 240_000
      else 300_000
  }

  lemma {:induction false} PowAtLeast(n: nat)
    requires n >= 4
    ensures Pow(2, n) >= 16
  {
    if n > 4 {
      PowAtLeast(n - 1);
    } else {
      assert Pow(2, 0) == 1 && Pow(2, 1) == 2 && Pow(2, 2) == 4 && Pow(2, 3) == 8;
    }
  }

  lemma SimDelayIs(n: nat)
    requires n >= 1
    ensures 0 + SimDelay(n) == FailedUntil(n, 0)
  {
    assert Pow(2, 0) == 1 && Pow(2, 1) == 2 && Pow(2, 2) == 4 && Pow(2, 3) == 8;
    if n > 4 {
      PowAtLeast(n - 1);
    }
  }

  /** One pre-send failure: half a minute doubling to five, for that strategy on that key. */
  lemma SimFailIs(b: Blocks, key: string, strategy: string, now: int)
    ensures var s := strategy + ":" + key;
      var n := if s in b.sim && now - b.sim[s].until < 24 * 60 * 60_000 then b.sim[s].fails + 1 else 1;
      var k := OnSimFail(b, key, strategy, now);
      s in k.sim && k.sim[s] == SimBackoff(n, FailedUntil(n, now))
  {
    var s := strategy + ":" + key;
    var n := if s in b.sim && now - b.sim[s].until < 24 * 60 * 60_000 then b.sim[s].fails + 1 else 1;
    SimDelayIs(n);
  }

  // ---------------------------------------------------------------------- who is let in

  /** What happens to the backoff of one key. */
  datatype Note =
    | Reverted(expiry: nat, reason: Reason)
    | WasDropped(expiry: nat, reason: Reason)
    | SimFailed(strategy: string)

  function Noted(b: Blocks, key: string, now: int, n: Note): Blocks {
    match n
    case Reverted(expiry, reason) => OnRevert(b, key, now, expiry, reason)
    case WasDropped(expiry, reason) => OnDropped(b, key, now, expiry, reason)
    case SimFailed(strategy) => OnSimFail(b, key, strategy, now)
  }

  /** A key's block concerns that key alone, and pruning what lapsed a day ago lets nobody in or out. */
  lemma OthersAsBefore(g: GState, key: string, now: int, n: Note, other: string, strategy: string, later: int)
    requires other != key && later >= now
    requires n.SimFailed? ==> n.strategy + ":" + key != strategy + ":" + other
    ensures Admit(g.(blocks := Noted(g.blocks, key, now, n)), other, strategy, later)
      == Admit(g, other, strategy, later)
  {
  }

  /** After a revert nobody is let in until the block ends, whatever the strategy; then only its own failures count. */
  lemma RevertAdmits(g: GState, key: string, now: int, expiry: nat, reason: Reason, strategy: string, later: int)
    requires g.pending.None? && later >= now
    ensures var b := OnRevert(g.blocks, key, now, expiry, reason);
      var n := NextStrike(g.blocks, key, now);
      Admit(g.(blocks := b), key, strategy, later) ==
        if later < RevertedUntil(n, now, expiry) then Some(Admission(true))
        else if strategy + ":" + key in g.blocks.sim && later < g.blocks.sim[strategy + ":" + key].until then
          Some(Admission(false))
        else None
  {
    RevertIs(g.blocks, key, now, expiry, reason);
  }

  /** After a success nothing keeps the key from being acted on. */
  lemma SuccessAdmits(g: GState, key: string, strategy: string, now: int)
    requires g.pending.None?
    ensures Admit(g.(blocks := OnSuccess(g.blocks, key)), key, strategy, now) == None
  {
    SuccessClears(g.blocks, key, strategy);
  }

  /** The key a transaction is accounted to: its order, else the action it carries out. */
  function KeyOf(p: Pending): Option<string> {
    match p.orderHash
    case Some(h) => Some(h)
    case None => p.backoffKey
  }

  /**
   * What the look that closes a transaction does to the backoff of its key: a success clears
   * it, a revert is the next strike, a drop keeps the strikes and blocks for half a minute.
   */
  lemma CloseNotes(policy: Policy, g: GState, now: int, a: ResolveAnswers, strategy: string)
    requires g.pending.Some? && After(policy, g, now, a).pending.None?
    ensures var k, s, key := After(policy, g, now, a).blocks, Resolve(policy, g, now, a).1, KeyOf(g.pending.value);
      && (s.Success? || s.RevertedTx? || s.Dropped?)
      && (key.None? ==> k == g.blocks)
      && (key.Some? && s.Success? ==> key.value !in k.backoff && strategy + ":" + key.value !in k.sim)
      && (key.Some? && s.RevertedTx? ==>
            var n := NextStrike(g.blocks, key.value, now);
            BlockedExactly(k, key.value, n, RevertedUntil(n, now, g.pending.value.expiry)))
      && (key.Some? && s.Dropped? ==>
            BlockedExactly(k, key.value, StrikesOf(g.blocks, key.value), now + 30_000) && k.sim == g.blocks.sim)
  {
    var p, key := g.pending.value, KeyOf(g.pending.value);
    ClosedStatus(policy, g, now, a);
    ClosedBlocks(policy, g, now, a);
    if key.Some? {
      SuccessClears(g.blocks, key.value, strategy);
      RevertIs(g.blocks, key.value, now, p.expiry, GuardSpec.Reverted(p.tx));
      DropIs(g.blocks, key.value, now, p.expiry, Replaced(p.tx));
      DropIs(g.blocks, key.value, now, p.expiry, NotFound(p.tx));
    }
  }
}
