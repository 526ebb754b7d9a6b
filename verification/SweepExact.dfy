/**
 * What one sweep evaluates, over any book and whatever it meets: how far it gets, and why
 * it ends there.
 */
module SweepExact {
  import opened Common
  import opened Sweep
  import opened SweepFairness

  // ---------------------------------------------------------- an entry, by itself

  /** Neither about to expire nor under a hold that still applies. */
  predicate Open(cfg: Config, st: State, e: BookEntry, now: int) {
    && (e.expiry == 0 || e.expiry - now / 1000 >= cfg.expiryMarginS)
    && (e.hash in st.holds ==> now >= st.holds[e.hash].until || st.holds[e.hash].fillable != e.fillable)
  }

  /** The permit read ends it for this pass. */
  predicate Ends(e: BookEntry, a: Answer) {
    e.gasless && a.shapeAccepted && a.stage.Ended?
  }

  /** A dry run went over it a moment ago. */
  predicate Recent(cfg: Config, st: State, e: BookEntry, a: Answer) {
    cfg.dryRun && e.hash in st.dryRunSeen && a.before - st.dryRunSeen[e.hash] < cfg.dryRunRecheckMs
  }

  /** It is evaluated, when its turn comes. */
  predicate Counts(cfg: Config, st: State, e: BookEntry, now: int, a: Answer) {
    Open(cfg, st, e, now) && !Ends(e, a) && a.accepted && !Recent(cfg, st, e, a)
  }

  /** It is dispatched: evaluated, or shown to strategies of which none takes it. */
  predicate Goes(cfg: Config, st: State, e: BookEntry, now: int, a: Answer) {
    Open(cfg, st, e, now) && !Ends(e, a) && (a.accepted ==> !Recent(cfg, st, e, a))
  }

  // ---------------------------------------------------------- the first `m` of an order

  function Evals(cfg: Config, st: State, es: seq<BookEntry>, now: int, ans: nat -> Answer, m: nat): (r: seq<nat>)
    requires m <= |es|
    ensures |r| <= m
  {
    if m == 0 then []
    else
      var before := Evals(cfg, st, es, now, ans, m - 1);
      if Counts(cfg, st, es[m - 1], now, ans(m - 1)) then before + [es[m - 1].hash] else before
  }

  function HeldOf(cfg: Config, st: State, es: seq<BookEntry>, now: int, m: nat): nat
    requires m <= |es|
  {
    if m == 0 then 0 else HeldOf(cfg, st, es, now, m - 1) + if Open(cfg, st, es[m - 1], now) then 0 else 1
  }

  /** The last evaluated order that had been seen before, else the cursor as it was. */
  function CursorOf(cfg: Config, st: State, es: seq<BookEntry>, now: int, ans: nat -> Answer, m: nat): Option<nat>
    requires m <= |es|
  {
    if m == 0 then st.cursor
    else if Counts(cfg, st, es[m - 1], now, ans(m - 1)) && es[m - 1].hash in st.seen then Some(es[m - 1].hash)
    else CursorOf(cfg, st, es, now, ans, m - 1)
  }

  function SeenOf(cfg: Config, st: State, es: seq<BookEntry>, now: int, ans: nat -> Answer, m: nat): set<nat>
    requires m <= |es|
  {
    if m == 0 then st.seen
    else
      var e, a := es[m - 1], ans(m - 1);
      var before := SeenOf(cfg, st, es, now, ans, m - 1);
      if Goes(cfg, st, e, now, a) || (Open(cfg, st, e, now) && Ends(e, a)) then before + {e.hash} else before
  }

  /** The `i`-th entry is where a bound stops the pass. */
  predicate StopsAt(
    cfg: Config, st: State, es: seq<BookEntry>, maxOrders: nat, now: int, ans: nat -> Answer, i: nat)
    requires i < |es|
  {
    || !ans(i).mayContinue
    || (maxOrders > 0 && Counts(cfg, st, es[i], now, ans(i)) && |Evals(cfg, st, es, now, ans, i)| >= maxOrders)
  }

  /** A transaction goes out at the `i`-th entry. */
  predicate SendsAt(cfg: Config, st: State, es: seq<BookEntry>, now: int, ans: nat -> Answer, i: nat)
    requires i < |es|
  {
    Goes(cfg, st, es[i], now, ans(i)) && ans(i).sent
  }

  /** What is recorded after the first `m` entries. */
  ghost predicate Recorded(
    cfg: Config, st: State, es: seq<BookEntry>, now: int, ans: nat -> Answer, m: nat, p: Pass)
    requires m <= |es|
  {
    && p.evaluated == Evals(cfg, st, es, now, ans, m) && p.held == HeldOf(cfg, st, es, now, m)
    && p.st.cursor == CursorOf(cfg, st, es, now, ans, m) && p.st.seen == SeenOf(cfg, st, es, now, ans, m)
  }

  /**
   * The pass got over exactly the first `m` entries: it ends there because a transaction
   * went out at the last of them, because a bound stops it at the next, or because there is
   * no next; and nowhere before did it have a reason to.
   */
  ghost predicate EndsAfter(
    cfg: Config, st: State, es: seq<BookEntry>, maxOrders: nat, now: int, ans: nat -> Answer, m: nat, r: Pass)
  {
    && m <= |es| && Recorded(cfg, st, es, now, ans, m, r)
    && (forall i: nat | i < m :: !StopsAt(cfg, st, es, maxOrders, now, ans, i))
    && (forall i: nat | i + 1 < m :: !SendsAt(cfg, st, es, now, ans, i))
    && (r.sent <==> m > 0 && SendsAt(cfg, st, es, now, ans, m - 1))
    && (r.bounded <==> !r.sent && m < |es|)
    && (r.bounded ==> StopsAt(cfg, st, es, maxOrders, now, ans, m))
  }

  // ------------------------------------------------------------------------- the pass

  /** The entries from `i` on find the state as it was when the pass began. */
  ghost predicate Untouched(st: State, now: State, es: seq<BookEntry>, i: nat) {
    forall j | i <= j < |es| ::
      var h := es[j].hash;
      && (h in now.holds <==> h in st.holds) && (h in st.holds ==> now.holds[h] == st.holds[h])
      && (h in now.dryRunSeen <==> h in st.dryRunSeen) && (h in st.dryRunSeen ==> now.dryRunSeen[h] == st.dryRunSeen[h])
      && (h in now.seen <==> h in st.seen)
  }

  /** A visit touches what is kept of its own order only. */
  ghost predicate OnlyOwn(before: State, after: State, h: nat) {
    && before.holds - {h} == after.holds - {h} && before.dryRunSeen - {h} == after.dryRunSeen - {h}
    && before.seen - {h} == after.seen - {h}
  }

  lemma StillUntouched(st: State, before: State, after: State, es: seq<BookEntry>, i: nat)
    requires DistinctHashes(es) && i < |es|
    requires Untouched(st, before, es, i) && OnlyOwn(before, after, es[i].hash)
    ensures Untouched(st, after, es, i + 1)
  {
    forall j | i + 1 <= j < |es|
      ensures var h := es[j].hash;
        && (h in after.holds <==> h in st.holds) && (h in st.holds ==> after.holds[h] == st.holds[h])
        && (h in after.dryRunSeen <==> h in st.dryRunSeen)
        && (h in st.dryRunSeen ==> after.dryRunSeen[h] == st.dryRunSeen[h])
        && (h in after.seen <==> h in st.seen)
    {
      var h, g := es[j].hash, es[i].hash;
      assert h in after.holds - {g} <==> h in before.holds - {g};
      assert h in after.dryRunSeen - {g} <==> h in before.dryRunSeen - {g};
      assert h in after.seen - {g} <==> h in before.seen - {g};
      assert h in before.holds ==> (after.holds - {g})[h] == (before.holds - {g})[h];
      assert h in before.dryRunSeen ==> (after.dryRunSeen - {g})[h] == (before.dryRunSeen - {g})[h];
    }
  }

  /** What one visit does, in the entry's own terms. */
  ghost predicate VisitIs(cfg: Config, st: State, e: BookEntry, n: nat, maxOrders: nat, now: int, a: Answer, v: Visit) {
    var counts := Counts(cfg, st, e, now, a);
    if !a.mayContinue || (maxOrders > 0 && counts && n >= maxOrders) then
      v.Stop? && v.st.cursor == st.cursor && v.st.seen == st.seen
    else if Goes(cfg, st, e, now, a) then
      && v.Dispatched? && v.evaluated == (if counts then [e.hash] else []) && v.sent == a.sent
      && v.st.seen == st.seen + {e.hash} && OnlyOwn(st, v.st, e.hash)
      && v.st.cursor == if counts && e.hash in st.seen then Some(e.hash) else st.cursor
    else
      && v.Skip? && v.held == (if Open(cfg, st, e, now) then 0 else 1)
      && v.st.cursor == st.cursor && OnlyOwn(st, v.st, e.hash)
      && v.st.seen == if Open(cfg, st, e, now) && Ends(e, a) then st.seen + {e.hash} else st.seen
  }

  lemma OneVisit(cfg: Config, st: State, e: BookEntry, n: nat, maxOrders: nat, now: int, a: Answer)
    ensures VisitIs(cfg, st, e, n, maxOrders, now, a, VisitOne(cfg, st, e, n, maxOrders, now, a))
  {
  }

  /** `until` is the first of the moments at which a resting verdict of `e`, given at `at`, lapses. */
  ghost predicate IsHoldEnd(
    cfg: Config, e: BookEntry, recheckAt: Option<int>, at: int, windowEnd: Option<int>, until: int)
  {
    && until <= at + cfg.restingRecheckMs
    && (!e.fixedPrice ==> until <= at + cfg.auctionRecheckMs)
    && (!e.fixedPrice && recheckAt.Some? ==> until <= at || until <= recheckAt.value)
    && (windowEnd.Some? ==> until <= windowEnd.value)
    && (|| until == at + cfg.restingRecheckMs
        || (!e.fixedPrice && until == at + cfg.auctionRecheckMs)
        || (!e.fixedPrice && recheckAt.Some? && until == Max(recheckAt.value, at))
        || windowEnd == Some(until))
  }

  /**
   * What a visit holds afterwards: a resting verdict until the first moment it lapses, a
   * permit read that rests for the resting time, and nothing else of an entry it went over.
   */
  lemma VisitHolds(cfg: Config, st: State, e: BookEntry, n: nat, maxOrders: nat, now: int, a: Answer)
    requires cfg.restingRecheckMs > 0 && Open(cfg, st, e, now)
    requires !VisitOne(cfg, st, e, n, maxOrders, now, a).Stop?
    ensures var holds := VisitOne(cfg, st, e, n, maxOrders, now, a).st.holds;
      if Goes(cfg, st, e, now, a) && a.outcome.Some? && a.outcome.value.Skipped? && a.outcome.value.rest then
        && e.hash in holds && holds[e.hash].fillable == e.fillable
        && IsHoldEnd(cfg, e, a.outcome.value.recheckAt, a.at, a.windowEnd, holds[e.hash].until)
      else if Ends(e, a) && a.stage.rest then
        e.hash in holds && holds[e.hash] == Hold(a.before + cfg.restingRecheckMs, e.fillable, Passed)
      else e.hash !in holds
  {
  }

  lemma SameTerms(cfg: Config, st: State, now: State, es: seq<BookEntry>, i: nat, t: int, a: Answer)
    requires i < |es| && Untouched(st, now, es, i)
    ensures Open(cfg, now, es[i], t) == Open(cfg, st, es[i], t)
    ensures Counts(cfg, now, es[i], t, a) == Counts(cfg, st, es[i], t, a)
    ensures Goes(cfg, now, es[i], t, a) == Goes(cfg, st, es[i], t, a)
  {
  }

  /** One more visit, from a pass that got over the first `i` entries. */
  lemma Advance(
    cfg: Config, st: State, es: seq<BookEntry>, maxOrders: nat, now: int, ans: nat -> Answer, i: nat, p: Pass)
    requires DistinctHashes(es) && i < |es| && !p.sent && !p.bounded
    requires Recorded(cfg, st, es, now, ans, i, p) && Untouched(st, p.st, es, i)
    ensures var q := Extend(p, VisitOne(cfg, p.st, es[i], |p.evaluated|, maxOrders, now, ans(i)));
      if StopsAt(cfg, st, es, maxOrders, now, ans, i) then
        q.bounded && !q.sent && Recorded(cfg, st, es, now, ans, i, q)
      else
        && !q.bounded && (q.sent <==> SendsAt(cfg, st, es, now, ans, i))
        && Recorded(cfg, st, es, now, ans, i + 1, q) && Untouched(st, q.st, es, i + 1)
  {
    var v := VisitOne(cfg, p.st, es[i], |p.evaluated|, maxOrders, now, ans(i));
    OneVisit(cfg, p.st, es[i], |p.evaluated|, maxOrders, now, ans(i));
    SameTerms(cfg, st, p.st, es, i, now, ans(i));
    if !StopsAt(cfg, st, es, maxOrders, now, ans, i) {
      StillUntouched(st, p.st, v.st, es, i);
    }
  }

  lemma {:induction false} Walk(
    cfg: Config, st: State, es: seq<BookEntry>, maxOrders: nat, now: int, ans: nat -> Answer, i: nat, p: Pass)
    returns (m: nat)
    requires DistinctHashes(es) && i <= |es| && !p.bounded
    requires Recorded(cfg, st, es, now, ans, i, p) && Untouched(st, p.st, es, i)
    requires forall j: nat | j < i :: !StopsAt(cfg, st, es, maxOrders, now, ans, j)
    requires forall j: nat | j + 1 < i :: !SendsAt(cfg, st, es, now, ans, j)
    requires p.sent <==> i > 0 && SendsAt(cfg, st, es, now, ans, i - 1)
    ensures EndsAfter(cfg, st, es, maxOrders, now, ans, m, PassFrom(cfg, p, es, i, maxOrders, now, ans))
    decreases |es| - i
  {
    if i == |es| || p.sent {
      m := i;
    } else {
      var q := Extend(p, VisitOne(cfg, p.st, es[i], |p.evaluated|, maxOrders, now, ans(i)));
      Advance(cfg, st, es, maxOrders, now, ans, i, p);
      if q.bounded {
        m := i;
        assert PassFrom(cfg, q, es, i + 1, maxOrders, now, ans) == q;
      } else {
        m := Walk(cfg, st, es, maxOrders, now, ans, i + 1, q);
      }
    }
  }

  // ------------------------------------------------------------------- the visit order

  /** Older first, ties by hash. */
  ghost predicate OldestFirst(es: seq<BookEntry>) {
    forall j, k | 0 <= j < k < |es| ::
      es[j].addedAt < es[k].addedAt || (es[j].addedAt == es[k].addedAt && es[j].hash < es[k].hash)
  }

  /** By hash, what lies past the cursor before the rest. */
  ghost predicate FromCursor(es: seq<BookEntry>, cursor: Option<nat>) {
    forall j, k | 0 <= j < k < |es| ::
      if cursor.None? || (es[j].hash > cursor.value <==> es[k].hash > cursor.value) then es[j].hash < es[k].hash
      else es[j].hash > cursor.value
  }

  /** The first `n` are new, oldest first; the rest are not, from just past the cursor. */
  ghost predicate SplitAt(order: seq<BookEntry>, n: nat, seen: set<nat>, cursor: Option<nat>) {
    && n <= |order|
    && (forall i | 0 <= i < |order| :: order[i].hash in seen <==> i >= n)
    && OldestFirst(order[..n]) && FromCursor(order[n..], cursor)
  }

  /** New orders first, oldest first; then the rest, from just past the cursor; each once. */
  ghost predicate IsVisitOrder(entries: seq<BookEntry>, seen: set<nat>, cursor: Option<nat>, order: seq<BookEntry>) {
    && DistinctHashes(order) && (forall e :: e in order <==> e in entries)
    && exists n: nat :: SplitAt(order, n, seen, cursor)
  }

  lemma {:induction false} FilterMembers(p: BookEntry -> bool, s: seq<BookEntry>)
    requires DistinctHashes(s)
    ensures forall e :: e in Filter(p, s) <==> e in s && p(e)
    ensures DistinctHashes(Filter(p, s))
  {
    if s != [] {
      FilterMembers(p, s[1..]);
      var t := Filter(p, s[1..]);
      assert forall e :: e in s <==> e == s[0] || e in s[1..];
      forall x | x in t ensures x.hash != s[0].hash {
        assert x in s[1..];
      }
      ConsDistinct(s[0], t);
      assert [] + t == t;
    }
  }

  lemma ConsDistinct(e: BookEntry, t: seq<BookEntry>)
    requires DistinctHashes(t) && forall x | x in t :: x.hash != e.hash
    ensures DistinctHashes([e] + t)
  {
  }

  lemma {:induction false} AgeSorted(s: seq<BookEntry>)
    requires DistinctHashes(s)
    ensures OldestFirst(Sort(ByAge, s)) && DistinctHashes(Sort(ByAge, s))
  {
    if s != [] {
      AgeSorted(s[1..]);
      var t := Sort(ByAge, s[1..]);
      forall x | x in t ensures x.hash != s[0].hash {
        MultisetMembers(t, s[1..], x);
      }
      AgeInserted(s[0], t);
    }
  }

  lemma {:induction false} AgeInserted(e: BookEntry, s: seq<BookEntry>)
    requires OldestFirst(s) && DistinctHashes(s) && forall x | x in s :: x.hash != e.hash
    ensures OldestFirst(Insert(ByAge, e, s)) && DistinctHashes(Insert(ByAge, e, s))
  {
    if s != [] && !ByAge(e, s[0]) {
      AgeInserted(e, s[1..]);
      var t := Insert(ByAge, e, s[1..]);
      assert s[0] in s;
      forall x | x in t ensures ByAge(s[0], x) && x.hash != s[0].hash {
        AgeMember(e, s[1..], x);
      }
      ConsOldest(s[0], t);
      ConsDistinct(s[0], t);
    } else {
      ConsOldest(e, s);
      ConsDistinct(e, s);
    }
  }

  lemma AgeMember(e: BookEntry, s: seq<BookEntry>, x: BookEntry)
    requires x in Insert(ByAge, e, s)
    ensures x in s || x == e
  {
    assert multiset(Insert(ByAge, e, s)) == multiset(s + [e]);
    MultisetMembers(Insert(ByAge, e, s), s + [e], x);
  }

  lemma ConsOldest(e: BookEntry, s: seq<BookEntry>)
    requires OldestFirst(s) && (s == [] || ByAge(e, s[0]) || forall x | x in s :: ByAge(e, x))
    ensures OldestFirst([e] + s)
  {
    forall k | 0 <= k < |s| ensures ByAge(e, s[k]) {
      assert s[k] in s;
      assert k > 0 ==> ByAge(s[0], s[k]);
    }
  }

  lemma RoundRobinIs(entries: seq<BookEntry>, cursor: Option<nat>)
    requires DistinctHashes(entries)
    ensures FromCursor(RoundRobin(entries, cursor), cursor)
  {
    SortSorted(entries);
    var sorted := Sort(ByHash, entries);
    if cursor.Some? {
      var i := FirstAfter(sorted, cursor.value);
      Halves(sorted, i);
      RotatedFromCursor(sorted, i, cursor.value);
      assert RoundRobin(entries, cursor) == if i == |sorted| then sorted else sorted[i..] + sorted[..i];
      assert cursor == Some(cursor.value);
    } else {
      assert RoundRobin(entries, cursor) == sorted;
    }
  }

  lemma PastFrom(s: seq<BookEntry>, i: nat, c: nat)
    requires SortedByHash(s) && i == FirstAfter(s, c)
    ensures forall j | 0 <= j < |s| :: s[j].hash > c <==> j >= i
  {
    forall j | 0 <= j < |s| ensures s[j].hash > c <==> j >= i {
      if j > i {
        assert s[i].hash < s[j].hash;
      }
    }
  }

  lemma RotatedFromCursor(s: seq<BookEntry>, i: nat, c: nat)
    requires SortedByHash(s) && i == FirstAfter(s, c)
    ensures FromCursor(s[i..] + s[..i], Some(c)) && (i == |s| ==> FromCursor(s, Some(c)))
  {
    var hi, t := s[i..], s[i..] + s[..i];
    PastFrom(s, i, c);
    forall j, k | 0 <= j < k < |t|
      ensures if t[j].hash > c <==> t[k].hash > c then t[j].hash < t[k].hash else t[j].hash > c
    {
      RotatedPair(s, i, j, k, c);
    }
  }

  lemma RotatedPair(s: seq<BookEntry>, i: nat, j: nat, k: nat, c: nat)
    requires SortedByHash(s) && i <= |s| && j < k < |s|
    requires forall x | 0 <= x < |s| :: s[x].hash > c <==> x >= i
    ensures var t := s[i..] + s[..i];
      if t[j].hash > c <==> t[k].hash > c then t[j].hash < t[k].hash else t[j].hash > c
  {
    var t, n := s[i..] + s[..i], |s| - i;
    var x, y := if j < n then i + j else j - n, if k < n then i + k else k - n;
    assert t[j] == s[x] && t[k] == s[y];
  }

  lemma VisitOrderIs(entries: seq<BookEntry>, seen: set<nat>, cursor: Option<nat>)
    requires DistinctHashes(entries)
    ensures IsVisitOrder(entries, seen, cursor, VisitOrder(entries, seen, cursor))
  {
    var unseen := Filter((e: BookEntry) => e.hash !in seen, entries);
    var known0 := Filter((e: BookEntry) => e.hash in seen, entries);
    FilterMembers((e: BookEntry) => e.hash !in seen, entries);
    FilterMembers((e: BookEntry) => e.hash in seen, entries);
    AgeSorted(unseen);
    RoundRobinIs(known0, cursor);
    RoundRobinSame(known0, cursor);
    SortMembers(unseen);
    TwoParts(entries, Sort(ByAge, unseen), RoundRobin(known0, cursor), seen, cursor);
  }

  lemma SortMembers(s: seq<BookEntry>)
    ensures forall e :: e in Sort(ByAge, s) <==> e in s
  {
    forall e ensures e in Sort(ByAge, s) <==> e in s {
      MultisetMembers(Sort(ByAge, s), s, e);
    }
  }

  lemma TwoParts(
    entries: seq<BookEntry>, a: seq<BookEntry>, b: seq<BookEntry>, seen: set<nat>, cursor: Option<nat>)
    requires OldestFirst(a) && DistinctHashes(b) && FromCursor(b, cursor) && DistinctHashes(a)
    requires forall e :: e in a <==> e in entries && e.hash !in seen
    requires forall e :: e in b <==> e in entries && e.hash in seen
    ensures IsVisitOrder(entries, seen, cursor, a + b)
  {
    var s := a + b;
    forall i | 0 <= i < |s| ensures s[i].hash in seen <==> i >= |a| {
      assert s[i] == if i < |a| then a[i] else b[i - |a|];
    }
    forall e ensures e in s <==> e in entries {
      assert e in s <==> e in a || e in b;
    }
    assert s[..|a|] == a && s[|a|..] == b;
    assert SplitAt(s, |a|, seen, cursor);
  }

  // ------------------------------------------------------------------------ the sweep

  /**
   * Any sweep of any book, whatever its entries answer: it goes over the visit order - new
   * orders first - up to exactly the entry after which it has a reason to end.
   */
  lemma SweepIs(cfg: Config, st: State, entries: seq<BookEntry>, maxOrders: nat, now: int, ans: nat -> Answer)
    returns (order: seq<BookEntry>, m: nat)
    requires DistinctHashes(entries)
    ensures var kept := Forget(st, entries);
      && IsVisitOrder(entries, kept.seen, st.cursor, order)
      && EndsAfter(cfg, kept, order, maxOrders, now, ans, m, SweepBook(cfg, st, entries, maxOrders, now, ans))
  {
    var kept := Forget(st, entries);
    order := VisitOrder(entries, kept.seen, st.cursor);
    VisitOrderIs(entries, kept.seen, st.cursor);
    m := PassEnds(cfg, kept, order, maxOrders, now, ans);
    BookIsPass(cfg, st, entries, maxOrders, now, ans);
  }

  lemma PassEnds(cfg: Config, st: State, order: seq<BookEntry>, maxOrders: nat, now: int, ans: nat -> Answer)
    returns (m: nat)
    requires DistinctHashes(order)
    ensures EndsAfter(
      cfg, st, order, maxOrders, now, ans, m,
      PassFrom(cfg, Pass(st, [], false, false, 0), order, 0, maxOrders, now, ans))
  {
    m := Walk(cfg, st, order, maxOrders, now, ans, 0, Pass(st, [], false, false, 0));
  }

  /** A pass and its sweep differ in what is remembered of dry runs only. */
  ghost predicate SameButDryRuns(p: Pass, r: Pass) {
    r == p.(st := p.st.(dryRunSeen := r.st.dryRunSeen))
  }

  lemma BookIsPass(cfg: Config, st: State, entries: seq<BookEntry>, maxOrders: nat, now: int, ans: nat -> Answer)
    ensures var kept := Forget(st, entries);
      var order := VisitOrder(entries, kept.seen, st.cursor);
      SameButDryRuns(
        PassFrom(cfg, Pass(kept, [], false, false, 0), order, 0, maxOrders, now, ans),
        SweepBook(cfg, st, entries, maxOrders, now, ans))
  {
  }

  lemma {:induction false} EvalsReady(
    cfg: Config, st: State, es: seq<BookEntry>, now: int, ans: nat -> Answer, acc: nat -> bool, m: nat)
    requires m <= |es| && !cfg.dryRun && Consistent(es, ans, acc) && Ready(cfg, st, es, now)
    ensures Evals(cfg, st, es, now, ans, m) == Accepted(es[..m], acc)
  {
    if m > 0 {
      EvalsReady(cfg, st, es, now, ans, acc, m - 1);
      assert es[..m] == es[..m - 1] + [es[m - 1]];
      AcceptedConcat(es[..m - 1], [es[m - 1]], acc);
      assert Accepted([es[m - 1]], acc) == if acc(es[m - 1].hash) then [es[m - 1].hash] else [];
      assert es[m - 1] in es;
    }
  }

  /**
   * A sweep of a seen, unheld book in which every visit may continue and none sends: it
   * evaluates exactly the first `maxOrders` accepted orders from just past the cursor - all
   * of them without a limit or when there are no more - and is bounded exactly when there
   * are more.
   */
  lemma SweepIsFull(
    cfg: Config, st: State, entries: seq<BookEntry>, maxOrders: nat, now: int, ans: nat -> Answer, acc: nat -> bool)
    requires !cfg.dryRun && DistinctHashes(entries) && Ready(cfg, st, entries, now)
    requires Consistent(RoundRobin(entries, st.cursor), ans, acc)
    requires forall i: nat | i < |entries| :: ans(i).mayContinue && !ans(i).sent
    ensures var a := Accepted(Sort(ByHash, entries), acc);
      var ahead, r := Rotate(a, Position(a, st.cursor)), SweepBook(cfg, st, entries, maxOrders, now, ans);
      && r.evaluated == ahead[..if maxOrders == 0 then |ahead| else Min(maxOrders, |ahead|)]
      && (r.bounded <==> maxOrders > 0 && |ahead| > maxOrders) && !r.sent
  {
    var kept, order := Forget(st, entries), RoundRobin(entries, st.cursor);
    SeenOrder(st, entries);
    RoundRobinSame(entries, st.cursor);
    ReadyOrder(cfg, st, entries, order, now);
    SameSize(entries, order);
    AcceptedRoundRobin(entries, st.cursor, acc);
    BookIsPass(cfg, st, entries, maxOrders, now, ans);
    PassIsFull(cfg, kept, order, maxOrders, now, ans, acc);
  }

  lemma PassIsFull(
    cfg: Config, st: State, order: seq<BookEntry>, maxOrders: nat, now: int, ans: nat -> Answer, acc: nat -> bool)
    requires !cfg.dryRun && DistinctHashes(order) && Consistent(order, ans, acc) && Ready(cfg, st, order, now)
    requires forall i: nat | i < |order| :: ans(i).mayContinue && !ans(i).sent
    ensures var all, r :=
        Accepted(order, acc), PassFrom(cfg, Pass(st, [], false, false, 0), order, 0, maxOrders, now, ans);
      && r.evaluated == all[..if maxOrders == 0 then |all| else Min(maxOrders, |all|)]
      && (r.bounded <==> maxOrders > 0 && |all| > maxOrders) && !r.sent
  {
    var m := PassEnds(cfg, st, order, maxOrders, now, ans);
    EvalsReady(cfg, st, order, now, ans, acc, m);
    FullLength(
      cfg, st, order, maxOrders, now, ans, acc, m,
      PassFrom(cfg, Pass(st, [], false, false, 0), order, 0, maxOrders, now, ans));
  }

  lemma SameSize(entries: seq<BookEntry>, order: seq<BookEntry>)
    requires DistinctHashes(entries) && DistinctHashes(order) && forall e :: e in order <==> e in entries
    ensures |order| == |entries|
  {
    DistinctSize(entries);
    DistinctSize(order);
    assert (set e | e in order :: e.hash) == (set e | e in entries :: e.hash);
  }

  lemma {:induction false} DistinctSize(s: seq<BookEntry>)
    requires DistinctHashes(s)
    ensures |(set e | e in s :: e.hash)| == |s|
  {
    if s != [] {
      DistinctSize(s[1..]);
      var rest := set e | e in s[1..] :: e.hash;
      assert (set e | e in s :: e.hash) == {s[0].hash} + rest;
      assert s[0].hash !in rest;
    }
  }

  lemma FullLength(
    cfg: Config, st: State, order: seq<BookEntry>, maxOrders: nat, now: int, ans: nat -> Answer, acc: nat -> bool,
    m: nat, r: Pass)
    requires !cfg.dryRun && Consistent(order, ans, acc) && Ready(cfg, st, order, now)
    requires forall i: nat | i < |order| :: ans(i).mayContinue && !ans(i).sent
    requires EndsAfter(cfg, st, order, maxOrders, now, ans, m, r) && r.evaluated == Accepted(order[..m], acc)
    ensures var all := Accepted(order, acc);
      && r.evaluated == all[..if maxOrders == 0 then |all| else Min(maxOrders, |all|)]
      && (r.bounded <==> maxOrders > 0 && |all| > maxOrders) && !r.sent
  {
    AtMost(cfg, st, order, maxOrders, now, ans, m);
    if r.bounded {
      MoreComes(cfg, st, order, maxOrders, now, ans, acc, m);
    } else {
      NoneComes(order, acc, m);
    }
    Rejoined(order, acc, m);
    FirstOf(Accepted(order[..m], acc), Accepted(order[m..], acc), maxOrders, r.bounded);
  }

  lemma Rejoined(order: seq<BookEntry>, acc: nat -> bool, m: nat)
    requires m <= |order|
    ensures Accepted(order, acc) == Accepted(order[..m], acc) + Accepted(order[m..], acc)
  {
    assert order == order[..m] + order[m..];
    AcceptedConcat(order[..m], order[m..], acc);
  }

  lemma NoneComes(order: seq<BookEntry>, acc: nat -> bool, m: nat)
    requires m == |order|
    ensures Accepted(order[m..], acc) == []
  {
    assert order[m..] == [];
  }

  /** Where a limit stops a pass that may continue, there is an accepted order left. */
  lemma MoreComes(
    cfg: Config, st: State, order: seq<BookEntry>, maxOrders: nat, now: int, ans: nat -> Answer, acc: nat -> bool,
    m: nat)
    requires Consistent(order, ans, acc) && m < |order| && ans(m).mayContinue
    requires StopsAt(cfg, st, order, maxOrders, now, ans, m)
    ensures Accepted(order[m..], acc) != []
  {
    assert order[m..][0] == order[m];
    assert acc(order[m].hash);
  }

  lemma FirstOf(got: seq<nat>, left: seq<nat>, maxOrders: nat, bounded: bool)
    requires maxOrders > 0 ==> |got| <= maxOrders
    requires if bounded then maxOrders > 0 && |got| >= maxOrders && left != [] else left == []
    ensures var all := got + left;
      && got == all[..if maxOrders == 0 then |all| else Min(maxOrders, |all|)]
      && (bounded <==> maxOrders > 0 && |all| > maxOrders)
  {
  }

  /** Never more than the limit. */
  lemma {:induction false} AtMost(
    cfg: Config, st: State, es: seq<BookEntry>, maxOrders: nat, now: int, ans: nat -> Answer, m: nat)
    requires m <= |es| && forall i: nat | i < m :: !StopsAt(cfg, st, es, maxOrders, now, ans, i)
    ensures maxOrders > 0 ==> |Evals(cfg, st, es, now, ans, m)| <= maxOrders
  {
    if m > 0 {
      AtMost(cfg, st, es, maxOrders, now, ans, m - 1);
      assert !StopsAt(cfg, st, es, maxOrders, now, ans, m - 1);
    }
  }
}
