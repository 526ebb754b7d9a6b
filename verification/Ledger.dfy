/**
 * The rolling one-hour ledger behind `Budget` (packages/beta-filler/src/policy.ts),
 * as functions on the list of spends, and the never-pruned HISTORY of one ledger the
 * rolling-cap theorems are stated about.
 */
module Ledger {
  import opened Common

  /**
   * A signed legacy transaction. Signing is deterministic and the hash collision-free,
   * so a transaction's hash is identified with its signed bytes, and those with its fields.
   */
  datatype SignedTx = SignedTx(nonce: nat, to: string, data: string, value: nat, gas: nat, gasPrice: nat)
  {
    /** What the transaction can cost at most: gas LIMIT times price. */
    function MaxCost(): nat {
      gas * gasPrice
    }
  }

  /** One spend; `ref` tags a reservation by its transaction. */
  datatype Entry = Entry(token: string, amount: nat, at: int, ref: Option<SignedTx>)

  const WINDOW_MS := 3_600_000

  // ---------------------------------------------------------------- the ledger itself

  /** The entries younger than the window. */
  function Live(s: seq<Entry>, now: int): seq<Entry> {
    if s == [] then []
    else (if now - s[0].at < WINDOW_MS then [s[0]] else []) + Live(s[1..], now)
  }

  predicate Tagged(e: Entry, ref: SignedTx, token: string) {
    e.ref == Some(ref) && e.token == token
  }

  /** Index of the first entry tagged (`ref`, `token`), or the length when there is none. */
  function Find(s: seq<Entry>, ref: SignedTx, token: string): (i: nat)
    ensures i <= |s|
    ensures forall j :: 0 <= j < i ==> !Tagged(s[j], ref, token)
    ensures i < |s| ==> Tagged(s[i], ref, token)
  {
    if s == [] || Tagged(s[0], ref, token) then 0 else 1 + Find(s[1..], ref, token)
  }

  /** Where `e`'s own tag sits in `h`, the length for an untagged entry. */
  function Slot(h: seq<Entry>, e: Entry): (i: nat)
    ensures i <= |h|
  {
    if e.ref.Some? then Find(h, e.ref.value, e.token) else |h|
  }

  function Removed(s: seq<Entry>, i: nat): seq<Entry>
    requires i < |s|
  {
    s[..i] + s[i + 1..]
  }

  /** Replace the entry with the same tag, else append. */
  function Put(s: seq<Entry>, e: Entry): seq<Entry> {
    var i := Slot(s, e);
    if i < |s| then s[i := e] else s + [e]
  }

  function Spend(s: seq<Entry>, e: Entry): seq<Entry> {
    Put(Live(s, e.at), e)
  }

  function Settle(s: seq<Entry>, ref: SignedTx, token: string, amount: nat): seq<Entry> {
    var i := Find(s, ref, token);
    if i == |s| then s
    else if amount == 0 then Removed(s, i)
    else s[i := s[i].(amount := amount)]
  }

  /** Sum of a weight over the entries. */
  function Sum(s: seq<Entry>, w: Entry -> nat): nat {
    if s == [] then 0 else w(s[0]) + Sum(s[1..], w)
  }

  function TokenWeight(token: string): Entry -> nat {
    (e: Entry) => if e.token == token then e.amount else 0
  }

  function Remaining(s: seq<Entry>, cap: nat, token: string, now: int): nat {
    var used := Sum(Live(s, now), TokenWeight(token));
    if cap > used then cap - used else 0
  }

  /** The ledgered amount of one reservation: what `settle` left, 0 when there is no entry. */
  function Amount(s: seq<Entry>, ref: SignedTx, token: string): nat {
    var i := Find(s, ref, token);
    if i < |s| then s[i].amount else 0
  }

  /** At most one entry per (ref, token): the idempotence `spend` maintains. */
  ghost predicate Unique(s: seq<Entry>) {
    forall i, j | 0 <= i < j < |s| && s[i].ref.Some? :: !Tagged(s[j], s[i].ref.value, s[i].token)
  }

  // ------------------------------------------------------------------------ history

  /**
   * The history a spend leaves: never pruned; a re-spend of the same tag drops the
   * old entry (the transaction's LATEST send counts), keeping the place of a live one.
   */
  function HistSpend(h: seq<Entry>, e: Entry): seq<Entry> {
    var i := Slot(h, e);
    if i == |h| then h + [e]
    else if e.at - h[i].at < WINDOW_MS then h[i := e]
    else Removed(h, i) + [e]
  }

  /** What a send at `t` weighs in the one-hour window that ends at `t`. */
  function WindowWeight(token: string, t: int): Entry -> nat {
    (e: Entry) => if e.token == token && t - WINDOW_MS < e.at <= t then e.amount else 0
  }

  /** Every one-hour window of the history stays within the cap. */
  ghost predicate WindowCap(h: seq<Entry>, token: string, cap: nat) {
    forall t: int :: Sum(h, WindowWeight(token, t)) <= cap
  }

  ghost predicate NoneAfter(h: seq<Entry>, now: int) {
    forall e | e in h :: e.at <= now
  }

  // ------------------------------------------------------------------- sums and lists

  lemma {:induction false} SumConcat(a: seq<Entry>, b: seq<Entry>, w: Entry -> nat)
    ensures Sum(a + b, w) == Sum(a, w) + Sum(b, w)
  {
    if a == [] {
      assert a + b == b;
    } else {
      assert (a + b)[1..] == a[1..] + b;
      SumConcat(a[1..], b, w);
    }
  }

  lemma {:induction false} SumMono(s: seq<Entry>, w: Entry -> nat, v: Entry -> nat)
    requires forall e | e in s :: w(e) <= v(e)
    ensures Sum(s, w) <= Sum(s, v)
  {
    if s != [] {
      SumMono(s[1..], w, v);
    }
  }

  lemma {:induction false} SumSplit(s: seq<Entry>, i: nat, w: Entry -> nat)
    requires i < |s|
    ensures Sum(s, w) == Sum(Removed(s, i), w) + w(s[i])
  {
    if i == 0 {
      assert Removed(s, 0) == s[1..];
    } else {
      SumSplit(s[1..], i - 1, w);
      assert Removed(s, i)[1..] == Removed(s[1..], i - 1);
    }
  }

  lemma SumUpdate(s: seq<Entry>, i: nat, e: Entry, w: Entry -> nat)
    requires i < |s|
    ensures Sum(s[i := e], w) == Sum(Removed(s, i), w) + w(e)
  {
    assert Removed(s[i := e], i) == Removed(s, i);
    SumSplit(s[i := e], i, w);
  }

  lemma {:induction false} LiveConcat(a: seq<Entry>, b: seq<Entry>, now: int)
    ensures Live(a + b, now) == Live(a, now) + Live(b, now)
  {
    if a == [] {
      assert a + b == b;
    } else {
      assert (a + b)[1..] == a[1..] + b;
      LiveConcat(a[1..], b, now);
    }
  }

  /** The weight `w` restricted to what pruning at `now` keeps. */
  function LiveWeight(w: Entry -> nat, now: int): Entry -> nat {
    (e: Entry) => if now - e.at < WINDOW_MS then w(e) else 0
  }

  lemma {:induction false} LiveSum(s: seq<Entry>, now: int, w: Entry -> nat)
    ensures Sum(Live(s, now), w) == Sum(s, LiveWeight(w, now))
  {
    if s != [] {
      LiveSum(s[1..], now, w);
      assert ([s[0]] + Live(s[1..], now))[1..] == Live(s[1..], now);
      assert [] + Live(s[1..], now) == Live(s[1..], now);
    }
  }

  /** Pruning twice is pruning at the later time. */
  lemma {:induction false} LiveLive(s: seq<Entry>, p: int, now: int)
    ensures Live(Live(s, p), now) == Live(s, Max(p, now))
  {
    if s != [] {
      LiveLive(s[1..], p, now);
      assert ([s[0]] + Live(s[1..], p))[1..] == Live(s[1..], p);
      assert [] + Live(s[1..], p) == Live(s[1..], p);
    }
  }

  lemma {:induction false} LiveKeeps(s: seq<Entry>, now: int)
    ensures forall e :: e in Live(s, now) <==> e in s && now - e.at < WINDOW_MS
  {
    if s != [] {
      LiveKeeps(s[1..], now);
    }
  }

  /** Only the first match of a `Unique` list can match, and it is found wherever it is. */
  lemma FindAt(s: seq<Entry>, i: nat, ref: SignedTx, token: string)
    requires Unique(s) && i < |s| && Tagged(s[i], ref, token)
    ensures Find(s, ref, token) == i
  {
    var j := Find(s, ref, token);
    assert j <= i;
  }

  /** Around index `i`, a list and what `Live` keeps of it. */
  lemma {:induction false} LiveAround(s: seq<Entry>, i: nat, now: int)
    requires i < |s|
    ensures Live(s, now) ==
      Live(s[..i], now) + (if now - s[i].at < WINDOW_MS then [s[i]] else []) + Live(s[i + 1..], now)
    ensures Live(Removed(s, i), now) == Live(s[..i], now) + Live(s[i + 1..], now)
  {
    LiveConcat(s[..i], s[i + 1..], now);
    LiveConcat(s[..i], s[i..], now);
    assert s == s[..i] + s[i..] && s[i..][1..] == s[i + 1..];
  }

  /** Where a tag sits in the pruned list. */
  lemma LiveFind(s: seq<Entry>, i: nat, ref: SignedTx, token: string, now: int)
    requires Unique(s) && i == Find(s, ref, token)
    ensures i < |s| && now - s[i].at < WINDOW_MS ==>
      Find(Live(s, now), ref, token) == |Live(s[..i], now)| < |Live(s, now)|
    ensures i == |s| || now - s[i].at >= WINDOW_MS ==> Find(Live(s, now), ref, token) == |Live(s, now)|
  {
    LiveKeeps(s, now);
    if i < |s| && now - s[i].at < WINDOW_MS {
      LiveAround(s, i, now);
      LiveKeeps(s[..i], now);
      var l, k := Live(s, now), |Live(s[..i], now)|;
      assert l[k] == s[i];
      assert forall j | 0 <= j < k :: l[j] in Live(s[..i], now);
    } else {
      forall e | e in Live(s, now) ensures !Tagged(e, ref, token) {
        var j :| 0 <= j < |s| && s[j] == e;
        if Tagged(e, ref, token) {
          FindAt(s, j, ref, token);
        }
      }
    }
  }

  // ------------------------------------------- the pruned list refines the history

  /** A spend leaves one entry per tag: sending identical bytes again never stacks a second charge. */
  lemma HistSpendUnique(h: seq<Entry>, e: Entry)
    requires Unique(h)
    ensures Unique(HistSpend(h, e))
  {
    var i := Slot(h, e);
    if i < |h| {
      assert forall j | 0 <= j < |h| && j != i :: !Tagged(h[j], e.ref.value, e.token);
    }
  }

  lemma LiveUpdate(s: seq<Entry>, i: nat, e: Entry, now: int)
    requires i < |s|
    ensures Live(s[i := e], now) ==
      Live(s[..i], now) + (if now - e.at < WINDOW_MS then [e] else []) + Live(s[i + 1..], now)
  {
    var u := s[i := e];
    LiveAround(u, i, now);
    assert u[..i] == s[..i] && u[i + 1..] == s[i + 1..];
  }

  lemma SpendRefinesNew(h: seq<Entry>, e: Entry)
    requires Unique(h) && Slot(h, e) == |h|
    ensures Live(h + [e], e.at) == Put(Live(h, e.at), e)
  {
    if e.ref.Some? {
      LiveFind(h, |h|, e.ref.value, e.token, e.at);
    }
    LiveConcat(h, [e], e.at);
    assert Live([e], e.at) == [e];
  }

  lemma SpendRefinesLive(h: seq<Entry>, i: nat, e: Entry)
    requires Unique(h) && i < |h| && Slot(h, e) == i && e.at - h[i].at < WINDOW_MS
    ensures Live(h[i := e], e.at) == Put(Live(h, e.at), e)
  {
    LiveFind(h, i, e.ref.value, e.token, e.at);
    LiveAround(h, i, e.at);
    LiveUpdate(h, i, e, e.at);
  }

  lemma SpendRefinesExpired(h: seq<Entry>, i: nat, e: Entry)
    requires Unique(h) && i < |h| && Slot(h, e) == i && e.at - h[i].at >= WINDOW_MS
    ensures Live(Removed(h, i) + [e], e.at) == Put(Live(h, e.at), e)
  {
    DropExpired(h, i, e.at);
    LiveSnoc(Removed(h, i), e);
    LiveFind(h, i, e.ref.value, e.token, e.at);
  }

  lemma DropExpired(h: seq<Entry>, i: nat, now: int)
    requires i < |h| && now - h[i].at >= WINDOW_MS
    ensures Live(Removed(h, i), now) == Live(h, now)
  {
    LiveAround(h, i, now);
  }

  lemma LiveSnoc(s: seq<Entry>, e: Entry)
    ensures Live(s + [e], e.at) == Live(s, e.at) + [e]
  {
    LiveConcat(s, [e], e.at);
  }

  /** `spend` on the pruned list is the pruned view of the history's spend. */
  lemma SpendRefines(h: seq<Entry>, p: int, e: Entry)
    requires Unique(h) && p <= e.at
    ensures Live(HistSpend(h, e), e.at) == Spend(Live(h, p), e)
  {
    LiveLive(h, p, e.at);
    var i := Slot(h, e);
    if i == |h| {
      SpendRefinesNew(h, e);
    } else if e.at - h[i].at < WINDOW_MS {
      SpendRefinesLive(h, i, e);
    } else {
      SpendRefinesExpired(h, i, e);
    }
  }

  /** `settle` on the pruned list is the pruned view of settling the history. */
  lemma SettleRefines(h: seq<Entry>, p: int, ref: SignedTx, token: string, amount: nat)
    requires Unique(h)
    ensures Live(Settle(h, ref, token, amount), p) == Settle(Live(h, p), ref, token, amount)
  {
    var i := Find(h, ref, token);
    LiveFind(h, i, ref, token, p);
    if i == |h| {
    } else if p - h[i].at >= WINDOW_MS {
      SettleExpired(h, i, p, amount);
    } else {
      SettleLive(h, i, p, ref, token, amount);
    }
  }

  /** Settling an entry the window has passed changes nothing that counts. */
  lemma SettleExpired(h: seq<Entry>, i: nat, p: int, amount: nat)
    requires i < |h| && p - h[i].at >= WINDOW_MS
    ensures Live(Removed(h, i), p) == Live(h, p)
    ensures Live(h[i := h[i].(amount := amount)], p) == Live(h, p)
  {
    LiveAround(h, i, p);
    LiveUpdate(h, i, h[i].(amount := amount), p);
  }

  lemma SettleLive(h: seq<Entry>, i: nat, p: int, ref: SignedTx, token: string, amount: nat)
    requires i < |h| && p - h[i].at < WINDOW_MS
    requires Find(h, ref, token) == i && Find(Live(h, p), ref, token) == |Live(h[..i], p)|
    ensures Live(Settle(h, ref, token, amount), p) == Settle(Live(h, p), ref, token, amount)
  {
    var before, after := Live(h[..i], p), Live(h[i + 1..], p);
    LiveAround(h, i, p);
    if amount == 0 {
      RemovedMiddle(before, h[i], after);
    } else {
      LiveUpdate(h, i, h[i].(amount := amount), p);
      UpdatedMiddle(before, h[i], h[i].(amount := amount), after);
    }
  }

  lemma RemovedMiddle(a: seq<Entry>, e: Entry, b: seq<Entry>)
    ensures Removed(a + [e] + b, |a|) == a + b
  {
  }

  lemma UpdatedMiddle(a: seq<Entry>, e: Entry, u: Entry, b: seq<Entry>)
    ensures (a + [e] + b)[|a|] == e && (a + [e] + b)[|a| := u] == a + [u] + b
  {
  }

  lemma SettleUnique(h: seq<Entry>, ref: SignedTx, token: string, amount: nat)
    requires Unique(h)
    ensures Unique(Settle(h, ref, token, amount))
  {
  }

  /** A spend that fits what `remaining` reports keeps every window within the cap. */
  lemma SpendKeepsCap(h: seq<Entry>, p: int, e: Entry, cap: nat)
    requires Unique(h) && p <= e.at && NoneAfter(h, e.at)
    requires WindowCap(h, e.token, cap)
    requires e.amount <= Remaining(Live(h, p), cap, e.token, e.at)
    ensures WindowCap(HistSpend(h, e), e.token, cap)
    ensures NoneAfter(HistSpend(h, e), e.at)
  {
    LiveLive(h, p, e.at);
    var i := Slot(h, e);
    LiveSum(h, e.at, TokenWeight(e.token));
    forall t: int ensures Sum(HistSpend(h, e), WindowWeight(e.token, t)) <= cap {
      var w := WindowWeight(e.token, t);
      HistSpendSum(h, e, w);
      assert Sum(h, w) <= cap;
      if t - WINDOW_MS < e.at <= t {
        SumMono(h, w, LiveWeight(TokenWeight(e.token), e.at));
      }
    }
    forall x | x in HistSpend(h, e) ensures x.at <= e.at {
      HistSpendMembers(h, e, x);
    }
  }

  predicate SameTag(x: Entry, e: Entry) {
    e.ref.Some? && Tagged(x, e.ref.value, e.token)
  }

  /** A spend keeps every entry but the one it replaces. */
  lemma HistSpendMembers(h: seq<Entry>, e: Entry, x: Entry)
    requires Unique(h)
    ensures x in HistSpend(h, e) <==> x == e || (x in h && !SameTag(x, e))
  {
    var i := Slot(h, e);
    if i < |h| {
      OthersKept(h, i, e, x);
    }
  }

  lemma OthersKept(h: seq<Entry>, i: nat, e: Entry, x: Entry)
    requires Unique(h) && i < |h| && Slot(h, e) == i
    ensures x in h[i := e] <==> x == e || (x in h && !SameTag(x, e))
    ensures x in Removed(h, i) <==> x in h && !SameTag(x, e)
  {
    if n :| 0 <= n < |h| && h[n] == x && SameTag(x, e) {
      FindAt(h, n, e.ref.value, e.token);
    }
    MembersAround(h, i, h[i], x);
    MembersAround(h, i, e, x);
    assert h[i := h[i]] == h;
  }

  lemma MembersAround(h: seq<Entry>, i: nat, e: Entry, x: Entry)
    requires i < |h|
    ensures x in h[i := e] <==> x == e || x in Removed(h, i)
    ensures x in Removed(h, i) <==> exists n :: 0 <= n < |h| && n != i && h[n] == x
  {
    assert h[i := e] == h[..i] + [e] + h[i + 1..];
  }

  lemma SettleMembers(h: seq<Entry>, tx: SignedTx, token: string, amount: nat, x: Entry)
    requires !Tagged(x, tx, token)
    ensures x in Settle(h, tx, token, amount) <==> x in h
  {
    var i := Find(h, tx, token);
    if i < |h| {
      var u := h[i := h[i].(amount := amount)];
      assert Removed(u, i) == Removed(h, i);
    }
  }

  lemma HistSpendSum(h: seq<Entry>, e: Entry, w: Entry -> nat)
    ensures Sum(HistSpend(h, e), w) <= Sum(h, w) + w(e)
  {
    var i := Slot(h, e);
    assert Sum([e], w) == w(e);
    if i == |h| {
      SumConcat(h, [e], w);
    } else {
      SumSplit(h, i, w);
      SumUpdate(h, i, e, w);
      SumConcat(Removed(h, i), [e], w);
    }
  }

  // ------------------------------------------------------------ reserved amounts

  /** Two unique ledgers that hold the same entries for a tag agree on its amount. */
  lemma AmountStable(h: seq<Entry>, k: seq<Entry>, tx: SignedTx, token: string)
    requires Unique(h) && Unique(k)
    requires forall e | Tagged(e, tx, token) :: e in h <==> e in k
    ensures Amount(h, tx, token) == Amount(k, tx, token)
  {
    var i, j := Find(h, tx, token), Find(k, tx, token);
    if i < |h| {
      assert h[i] in h;
      var n :| 0 <= n < |k| && k[n] == h[i];
      FindAt(k, n, tx, token);
    }
  }

  lemma AmountOfOther(h: seq<Entry>, e: Entry, tx: SignedTx, token: string)
    requires Unique(h) && e.ref != Some(tx)
    ensures Amount(HistSpend(h, e), tx, token) == Amount(h, tx, token)
  {
    HistSpendUnique(h, e);
    forall x | Tagged(x, tx, token) ensures x in h <==> x in HistSpend(h, e) {
      HistSpendMembers(h, e, x);
    }
    AmountStable(h, HistSpend(h, e), tx, token);
  }

  lemma AmountOfSpent(h: seq<Entry>, e: Entry)
    requires Unique(h) && e.ref.Some?
    ensures Amount(HistSpend(h, e), e.ref.value, e.token) == e.amount
  {
    HistSpendUnique(h, e);
    HistSpendMembers(h, e, e);
    var k := HistSpend(h, e);
    var n :| 0 <= n < |k| && k[n] == e;
    FindAt(k, n, e.ref.value, e.token);
  }

  lemma AmountOfSettled(h: seq<Entry>, tx: SignedTx, token: string, amount: nat)
    requires Unique(h)
    ensures Amount(Settle(h, tx, token, amount), tx, token) == if Find(h, tx, token) < |h| then amount else 0
  {
    var i := Find(h, tx, token);
    var k := Settle(h, tx, token, amount);
    SettleUnique(h, tx, token, amount);
    if i < |h| {
      if amount == 0 {
        assert forall j | 0 <= j < |h| && j != i :: !Tagged(h[j], tx, token);
      } else {
        FindAt(k, i, tx, token);
      }
    }
  }

  lemma AmountOfOtherSettled(h: seq<Entry>, tx: SignedTx, amount: nat, other: SignedTx, token: string)
    requires Unique(h) && other != tx
    ensures Amount(Settle(h, tx, token, amount), other, token) == Amount(h, other, token)
  {
    SettleUnique(h, tx, token, amount);
    var k := Settle(h, tx, token, amount);
    forall e | Tagged(e, other, token) ensures e in h <==> e in k {
      SettleMembers(h, tx, token, amount, e);
    }
    AmountStable(h, k, other, token);
  }

  /** Settling at no more than what is ledgered keeps every window within the cap. */
  lemma SettleKeepsCap(h: seq<Entry>, tx: SignedTx, token: string, amount: nat, cap: nat)
    requires Unique(h) && WindowCap(h, token, cap)
    requires amount <= Amount(h, tx, token)
    ensures WindowCap(Settle(h, tx, token, amount), token, cap)
  {
    var i := Find(h, tx, token);
    if i < |h| {
      forall t: int ensures Sum(Settle(h, tx, token, amount), WindowWeight(token, t)) <= cap {
        var w := WindowWeight(token, t);
        SumSplit(h, i, w);
        SumUpdate(h, i, h[i].(amount := amount), w);
        assert Sum(h, w) <= cap;
      }
    }
  }

  lemma SettleNoneAfter(h: seq<Entry>, tx: SignedTx, token: string, amount: nat, now: int)
    requires NoneAfter(h, now)
    ensures NoneAfter(Settle(h, tx, token, amount), now)
  {
    var i := Find(h, tx, token);
    if i < |h| {
      assert h[i] in h;
    }
  }
}
