/**
 * Fairness of the sweep over whole runs: over an unchanged, already-seen book with no hold
 * in force, the accepted orders are evaluated in cyclic hash order, whatever the per-tick
 * bound is and wherever a sweep stops.
 */
module SweepFairness {
  import opened Common
  import opened Arith
  import opened Sweep

  /** Hashes of the accepted entries, in the given order. */
  function Accepted(es: seq<BookEntry>, acc: nat -> bool): seq<nat> {
    if es == [] then []
    else if acc(es[0].hash) then [es[0].hash] + Accepted(es[1..], acc)
    else Accepted(es[1..], acc)
  }

  ghost predicate DistinctHashes(es: seq<BookEntry>) {
    forall i, j | 0 <= i < j < |es| :: es[i].hash != es[j].hash
  }

  ghost predicate Increasing(s: seq<nat>) {
    forall i, j | 0 <= i < j < |s| :: s[i] < s[j]
  }

  ghost predicate SortedByHash(es: seq<BookEntry>) {
    forall i, j | 0 <= i < j < |es| :: es[i].hash < es[j].hash
  }

  // ---------------------------------------------------------------- sorting, filtering

  lemma MultisetMembers(a: seq<BookEntry>, b: seq<BookEntry>, e: BookEntry)
    requires multiset(a) == multiset(b)
    ensures e in a <==> e in b
  {
    assert e in a <==> e in multiset(a);
    assert e in b <==> e in multiset(b);
  }

  lemma {:induction false} InsertSorted(e: BookEntry, s: seq<BookEntry>)
    requires SortedByHash(s) && forall x | x in s :: x.hash != e.hash
    ensures SortedByHash(Insert(ByHash, e, s))
  {
    if s != [] && !ByHash(e, s[0]) {
      InsertSorted(e, s[1..]);
      var t := Insert(ByHash, e, s[1..]);
      assert s[0] in s;
      forall x | x in t ensures s[0].hash < x.hash {
        InsertMember(e, s[1..], x);
      }
      ConsSorted(s[0], t);
    } else {
      ConsSorted(e, s);
    }
  }

  lemma InsertMember(e: BookEntry, s: seq<BookEntry>, x: BookEntry)
    requires x in Insert(ByHash, e, s)
    ensures x in s || x == e
  {
    assert multiset(Insert(ByHash, e, s)) == multiset(s + [e]);
    MultisetMembers(Insert(ByHash, e, s), s + [e], x);
  }

  lemma ConsSorted(e: BookEntry, s: seq<BookEntry>)
    requires SortedByHash(s) && (s == [] || e.hash < s[0].hash || forall x | x in s :: e.hash < x.hash)
    ensures SortedByHash([e] + s)
  {
  }

  lemma {:induction false} SortSorted(s: seq<BookEntry>)
    requires DistinctHashes(s)
    ensures SortedByHash(Sort(ByHash, s))
  {
    if s != [] {
      SortSorted(s[1..]);
      var t := Sort(ByHash, s[1..]);
      forall x | x in t ensures x.hash != s[0].hash {
        MultisetMembers(t, s[1..], x);
      }
      InsertSorted(s[0], t);
    }
  }

  lemma {:induction false} AcceptedConcat(a: seq<BookEntry>, b: seq<BookEntry>, acc: nat -> bool)
    ensures Accepted(a + b, acc) == Accepted(a, acc) + Accepted(b, acc)
  {
    if a == [] {
      assert a + b == b;
    } else {
      assert (a + b)[1..] == a[1..] + b;
      AcceptedConcat(a[1..], b, acc);
    }
  }

  lemma {:induction false} AcceptedMembers(es: seq<BookEntry>, acc: nat -> bool)
    ensures forall h :: h in Accepted(es, acc) <==> acc(h) && exists e :: e in es && e.hash == h
  {
    if es != [] {
      AcceptedMembers(es[1..], acc);
      assert forall e :: e in es <==> e == es[0] || e in es[1..];
    }
  }

  lemma {:induction false} AcceptedIncreasing(es: seq<BookEntry>, acc: nat -> bool)
    requires SortedByHash(es)
    ensures Increasing(Accepted(es, acc))
  {
    if es != [] {
      AcceptedIncreasing(es[1..], acc);
      AcceptedMembers(es[1..], acc);
      var rest := Accepted(es[1..], acc);
      forall j | 0 <= j < |rest| ensures es[0].hash < rest[j] {
        assert rest[j] in rest;
        var e :| e in es[1..] && e.hash == rest[j];
      }
    }
  }

  lemma {:induction false} FilterAll(p: BookEntry -> bool, s: seq<BookEntry>, keep: bool)
    requires forall e | e in s :: p(e) == keep
    ensures Filter(p, s) == if keep then s else []
  {
    if s != [] {
      assert s[0] in s;
      assert forall e | e in s[1..] :: e in s;
      FilterAll(p, s[1..], keep);
    }
  }

  // ------------------------------------------------------------ the cyclic position

  /** How many of an increasing list are at most `c`. */
  function UpTo(s: seq<nat>, c: nat): (i: nat)
    ensures i <= |s|
    ensures forall j | 0 <= j < i :: s[j] <= c
    ensures i < |s| ==> s[i] > c
  {
    if s == [] || s[0] > c then 0 else 1 + UpTo(s[1..], c)
  }

  /** Where the next evaluation starts: just past the cursor, wrapping. */
  function Position(a: seq<nat>, cursor: Option<nat>): (p: nat)
    ensures a != [] ==> p < |a|
    ensures p <= |a|
  {
    if cursor.None? || UpTo(a, cursor.value) == |a| then 0 else UpTo(a, cursor.value)
  }

  lemma {:induction false} UpToIs(s: seq<nat>, c: nat, m: nat)
    requires m <= |s|
    requires forall j | 0 <= j < m :: s[j] <= c
    requires m < |s| ==> s[m] > c
    ensures UpTo(s, c) == m
  {
    if m > 0 {
      UpToIs(s[1..], c, m - 1);
    }
  }

  /** The position in `lo + hi`, when the cursor lies between the two. */
  lemma PositionBetween(lo: seq<nat>, hi: seq<nat>, c: nat)
    requires forall x | x in lo :: x <= c
    requires forall x | x in hi :: x > c
    ensures Rotate(lo + hi, Position(lo + hi, Some(c))) == if hi == [] then lo else hi + lo
  {
    var a := lo + hi;
    forall j | 0 <= j < |lo| ensures a[j] <= c {
      assert lo[j] in lo;
    }
    forall j | |lo| <= j < |a| ensures a[j] > c {
      assert hi[j - |lo|] in hi;
    }
    UpToIs(a, c, |lo|);
    assert a[|lo|..] == hi && a[..|lo|] == lo;
  }

  /** Rotating the whole book rotates its accepted orders. */
  lemma AcceptedRoundRobin(entries: seq<BookEntry>, cursor: Option<nat>, acc: nat -> bool)
    requires DistinctHashes(entries)
    ensures var a := Accepted(Sort(ByHash, entries), acc);
      Accepted(RoundRobin(entries, cursor), acc) == Rotate(a, Position(a, cursor))
  {
    var sorted := Sort(ByHash, entries);
    if cursor.Some? {
      SortSorted(entries);
      var i := FirstAfter(sorted, cursor.value);
      Halves(sorted, i);
      AcceptedRotated(sorted[..i], sorted[i..], cursor.value, acc);
    }
  }

  lemma Halves(s: seq<BookEntry>, i: nat)
    requires i <= |s|
    ensures s == s[..i] + s[i..]
    ensures i == |s| ==> s[i..] == [] && s[..i] == s
  {
  }

  lemma BoundsAround(lo: seq<BookEntry>, hi: seq<BookEntry>, c: nat)
    requires SortedByHash(lo + hi) && FirstAfter(lo + hi, c) == |lo|
    ensures forall e | e in lo :: e.hash <= c
    ensures forall e | e in hi :: e.hash > c
  {
    var s := lo + hi;
    forall e | e in lo ensures e.hash <= c {
      var j :| 0 <= j < |lo| && lo[j] == e;
      assert s[j] == e;
    }
    forall e | e in hi ensures e.hash > c {
      var j :| 0 <= j < |hi| && hi[j] == e;
      assert s[|lo| + j] == e && s[|lo|].hash > c;
    }
  }

  lemma AcceptedRotated(lo: seq<BookEntry>, hi: seq<BookEntry>, c: nat, acc: nat -> bool)
    requires SortedByHash(lo + hi) && FirstAfter(lo + hi, c) == |lo|
    ensures var a := Accepted(lo + hi, acc);
      Rotate(a, Position(a, Some(c))) == if Accepted(hi, acc) == [] then Accepted(lo, acc) else Accepted(hi + lo, acc)
    ensures Accepted(hi, acc) == [] ==> Accepted(hi + lo, acc) == Accepted(lo, acc)
  {
    BoundsAround(lo, hi, c);
    AcceptedConcat(lo, hi, acc);
    AcceptedConcat(hi, lo, acc);
    AcceptedMembers(lo, acc);
    AcceptedMembers(hi, acc);
    PositionBetween(Accepted(lo, acc), Accepted(hi, acc), c);
  }

  /** After evaluating `s[q]`, the next position is the next one round. */
  lemma NextPosition(a: seq<nat>, q: nat)
    requires Increasing(a) && q < |a|
    ensures Position(a, Some(a[q])) == (q + 1) % |a|
  {
    UpToIs(a, a[q], q + 1);
    NextIndex(q, |a|);
  }

  lemma NextIndex(q: nat, n: nat)
    requires q < n
    ensures (q + 1) % n == if q + 1 == n then 0 else q + 1
  {
    if q + 1 == n {
      DivModIs(q + 1, n, 1, 0);
    } else {
      DivModIs(q + 1, n, 0, q + 1);
    }
  }

  // -------------------------------------------------------------------- one pass

  predicate Takes(e: BookEntry, a: Answer) {
    a.accepted && !(e.gasless && a.shapeAccepted && a.stage.Ended?)
  }

  /** Seen, not about to expire, under no hold. */
  ghost predicate Ready(cfg: Config, st: State, es: seq<BookEntry>, now: int) {
    forall e | e in es :: e.hash in st.seen && !ExpiresSoon(cfg, e, now) && !Held(st, e, now)
  }

  /** Acceptance depends on the order only. */
  ghost predicate Consistent(es: seq<BookEntry>, ans: nat -> Answer, acc: nat -> bool) {
    forall i | 0 <= i < |es| :: Takes(es[i], ans(i)) == acc(es[i].hash)
  }

  lemma VisitReady(cfg: Config, st: State, e: BookEntry, n: nat, maxOrders: nat, now: int, a: Answer)
    requires !cfg.dryRun && e.hash in st.seen && !ExpiresSoon(cfg, e, now) && !Held(st, e, now)
    ensures match VisitOne(cfg, st, e, n, maxOrders, now, a)
      case Stop(s) => s.cursor == st.cursor && s.seen == st.seen
      case Skip(s, _) =>
        !Takes(e, a) && s.cursor == st.cursor && s.seen == st.seen && s.holds - {e.hash} == st.holds - {e.hash}
      case Dispatched(s, ev, _) =>
        && ev == (if Takes(e, a) then [e.hash] else [])
        && s.cursor == (if Takes(e, a) then Some(e.hash) else st.cursor)
        && s.seen == st.seen && s.holds - {e.hash} == st.holds - {e.hash}
  {
  }

  /** A visit changes no hold but the visited entry's, so the entries after it stay ready. */
  lemma ReadyAfter(cfg: Config, st: State, after: State, e: BookEntry, rest: seq<BookEntry>, now: int)
    requires Ready(cfg, st, [e] + rest, now) && forall x | x in rest :: x.hash != e.hash
    requires after.seen == st.seen && after.holds - {e.hash} == st.holds - {e.hash}
    ensures Ready(cfg, after, rest, now)
  {
    forall x | x in rest ensures x.hash in after.seen && !ExpiresSoon(cfg, x, now) && !Held(after, x, now) {
      assert x in [e] + rest;
      assert x.hash in after.holds - {e.hash} <==> x.hash in st.holds - {e.hash};
    }
  }

  /** A pass evaluates a prefix of the accepted orders ahead, and leaves the cursor on the last. */
  ghost predicate EvaluatesPrefix(p: Pass, ahead: seq<nat>, r: Pass) {
    && p.evaluated <= r.evaluated
    && r.evaluated[|p.evaluated|..] <= ahead
    && r.st.cursor == (if |r.evaluated| > |p.evaluated| then Some(r.evaluated[|r.evaluated| - 1]) else p.st.cursor)
    && r.st.seen == p.st.seen
  }

  lemma PrefixStep(p: Pass, q: Pass, ev: seq<nat>, ahead: seq<nat>, r: Pass)
    requires q.evaluated == p.evaluated + ev && q.st.seen == p.st.seen && |ev| <= 1
    requires q.st.cursor == if ev == [] then p.st.cursor else Some(ev[0])
    requires EvaluatesPrefix(q, ahead, r)
    ensures EvaluatesPrefix(p, ev + ahead, r)
  {
    assert r.evaluated[|p.evaluated|..] == ev + r.evaluated[|q.evaluated|..];
  }

  lemma {:induction false} PassEvaluates(
    cfg: Config, p: Pass, es: seq<BookEntry>, i: nat, maxOrders: nat, now: int, ans: nat -> Answer, acc: nat -> bool)
    requires i <= |es| && !cfg.dryRun
    requires DistinctHashes(es) && Consistent(es, ans, acc) && Ready(cfg, p.st, es[i..], now)
    ensures EvaluatesPrefix(p, Accepted(es[i..], acc), PassFrom(cfg, p, es, i, maxOrders, now, ans))
    decreases |es| - i
  {
    if i < |es| && !p.sent && !p.bounded {
      var v := VisitOne(cfg, p.st, es[i], |p.evaluated|, maxOrders, now, ans(i));
      var q := Extend(p, v);
      VisitNext(cfg, p, es, i, maxOrders, now, ans, acc);
      if v.Stop? {
        assert PassFrom(cfg, q, es, i + 1, maxOrders, now, ans) == q;
      } else {
        PassEvaluates(cfg, q, es, i + 1, maxOrders, now, ans, acc);
        var ev := if acc(es[i].hash) then [es[i].hash] else [];
        PrefixStep(p, q, ev, Accepted(es[i + 1..], acc), PassFrom(cfg, q, es, i + 1, maxOrders, now, ans));
        AcceptedAhead(es, i, acc);
      }
    }
  }

  lemma AcceptedAhead(es: seq<BookEntry>, i: nat, acc: nat -> bool)
    requires i < |es|
    ensures Accepted(es[i..], acc) == (if acc(es[i].hash) then [es[i].hash] else []) + Accepted(es[i + 1..], acc)
  {
    assert es[i..][1..] == es[i + 1..];
    assert [] + Accepted(es[i + 1..], acc) == Accepted(es[i + 1..], acc);
  }

  /** A visit stops the pass, or adds its order when it is accepted and leaves the rest ready. */
  lemma VisitNext(
    cfg: Config, p: Pass, es: seq<BookEntry>, i: nat, maxOrders: nat, now: int, ans: nat -> Answer, acc: nat -> bool)
    requires i < |es| && !cfg.dryRun
    requires DistinctHashes(es) && Consistent(es, ans, acc) && Ready(cfg, p.st, es[i..], now)
    ensures var v := VisitOne(cfg, p.st, es[i], |p.evaluated|, maxOrders, now, ans(i));
      var q, ev := Extend(p, v), if acc(es[i].hash) then [es[i].hash] else [];
      && q.st.seen == p.st.seen
      && (v.Stop? ==> q.evaluated == p.evaluated && q.st.cursor == p.st.cursor)
      && (!v.Stop? ==>
            && q.evaluated == p.evaluated + ev && Ready(cfg, q.st, es[i + 1..], now)
            && q.st.cursor == if ev == [] then p.st.cursor else Some(ev[0]))
  {
    var e, rest := es[i], es[i + 1..];
    assert es[i..] == [e] + rest;
    assert e in es[i..];
    VisitReady(cfg, p.st, e, |p.evaluated|, maxOrders, now, ans(i));
    var v := VisitOne(cfg, p.st, e, |p.evaluated|, maxOrders, now, ans(i));
    assert p.evaluated + [] == p.evaluated;
    if !v.Stop? {
      ReadyAfter(cfg, p.st, v.st, e, rest, now);
    }
  }

  /** One sweep of an unchanged, seen, unheld book. */
  lemma SweepEvaluates(
    cfg: Config, st: State, entries: seq<BookEntry>, maxOrders: nat, now: int, ans: nat -> Answer, acc: nat -> bool)
    requires !cfg.dryRun && DistinctHashes(entries) && Ready(cfg, st, entries, now)
    requires Consistent(RoundRobin(entries, st.cursor), ans, acc)
    ensures var a := Accepted(Sort(ByHash, entries), acc);
      var r := SweepBook(cfg, st, entries, maxOrders, now, ans);
      && r.evaluated <= Rotate(a, Position(a, st.cursor))
      && r.st.cursor == (if r.evaluated == [] then st.cursor else Some(r.evaluated[|r.evaluated| - 1]))
      && forall e | e in entries :: e.hash in r.st.seen
  {
    var order := RoundRobin(entries, st.cursor);
    SweepIsPass(cfg, st, entries, maxOrders, now, ans);
    RoundRobinSame(entries, st.cursor);
    ReadyOrder(cfg, st, entries, order, now);
    WholePass(cfg, Pass(Forget(st, entries), [], false, false, 0), order, maxOrders, now, ans, acc);
    AcceptedRoundRobin(entries, st.cursor, acc);
  }

  lemma ReadyOrder(cfg: Config, st: State, entries: seq<BookEntry>, order: seq<BookEntry>, now: int)
    requires Ready(cfg, st, entries, now) && forall e :: e in order <==> e in entries
    ensures Ready(cfg, Forget(st, entries), order, now)
    ensures forall e | e in entries :: e.hash in Forget(st, entries).seen
  {
    SeenOrder(st, entries);
  }

  lemma WholePass(
    cfg: Config, p: Pass, order: seq<BookEntry>, maxOrders: nat, now: int, ans: nat -> Answer, acc: nat -> bool)
    requires !cfg.dryRun && p.evaluated == []
    requires DistinctHashes(order) && Consistent(order, ans, acc) && Ready(cfg, p.st, order, now)
    ensures var r := PassFrom(cfg, p, order, 0, maxOrders, now, ans);
      && r.evaluated <= Accepted(order, acc)
      && r.st.cursor == (if r.evaluated == [] then p.st.cursor else Some(r.evaluated[|r.evaluated| - 1]))
      && r.st.seen == p.st.seen
  {
    assert order[0..] == order;
    PassEvaluates(cfg, p, order, 0, maxOrders, now, ans, acc);
    var r := PassFrom(cfg, p, order, 0, maxOrders, now, ans);
    assert r.evaluated[0..] == r.evaluated;
  }

  lemma SweepIsPass(cfg: Config, st: State, entries: seq<BookEntry>, maxOrders: nat, now: int, ans: nat -> Answer)
    requires forall e | e in entries :: e.hash in st.seen
    ensures var r := SweepBook(cfg, st, entries, maxOrders, now, ans);
      var p :=
        PassFrom(cfg, Pass(Forget(st, entries), [], false, false, 0), RoundRobin(entries, st.cursor), 0,
          maxOrders, now, ans);
      r.evaluated == p.evaluated && r.st.cursor == p.st.cursor && r.st.seen == p.st.seen
  {
    SeenOrder(st, entries);
  }

  /** A book seen before is visited round-robin. */
  lemma SeenOrder(st: State, entries: seq<BookEntry>)
    requires forall e | e in entries :: e.hash in st.seen
    ensures var kept := Forget(st, entries);
      && (forall e | e in entries :: e.hash in kept.seen && (e.hash in kept.holds <==> e.hash in st.holds)
            && (e.hash in st.holds ==> kept.holds[e.hash] == st.holds[e.hash]))
      && VisitOrder(entries, kept.seen, kept.cursor) == RoundRobin(entries, st.cursor)
  {
    var kept := Forget(st, entries);
    FilterAll((e: BookEntry) => e.hash !in kept.seen, entries, false);
    FilterAll((e: BookEntry) => e.hash in kept.seen, entries, true);
    assert Sort(ByAge, []) == [];
    assert [] + RoundRobin(entries, st.cursor) == RoundRobin(entries, st.cursor);
  }

  /** The visit order holds the book's entries, each once. */
  lemma RoundRobinSame(entries: seq<BookEntry>, cursor: Option<nat>)
    requires DistinctHashes(entries)
    ensures DistinctHashes(RoundRobin(entries, cursor))
    ensures forall e :: e in RoundRobin(entries, cursor) <==> e in entries
  {
    var sorted := Sort(ByHash, entries);
    SortSorted(entries);
    forall e ensures e in sorted <==> e in entries {
      MultisetMembers(sorted, entries, e);
    }
    if cursor.Some? {
      var i := FirstAfter(sorted, cursor.value);
      Halves(sorted, i);
      DistinctSwapped(sorted[..i], sorted[i..]);
    }
  }

  lemma DistinctSwapped(lo: seq<BookEntry>, hi: seq<BookEntry>)
    requires SortedByHash(lo + hi)
    ensures DistinctHashes(hi + lo)
    ensures forall e :: e in hi + lo <==> e in lo + hi
  {
    var s, t := lo + hi, hi + lo;
    forall i, j | 0 <= i < j < |t| ensures t[i].hash != t[j].hash {
      var x := if i < |hi| then |lo| + i else i - |hi|;
      var y := if j < |hi| then |lo| + j else j - |hi|;
      assert t[i] == s[x] && t[j] == s[y] && x != y;
    }
  }

  // ------------------------------------------------------------------- whole runs

  datatype SweepInput = SweepInput(maxOrders: nat, now: int, ans: nat -> Answer)

  datatype Run = Run(st: State, evaluated: seq<nat>)

  /** Successive sweeps of one book, and everything they evaluated. */
  function Sweeps(cfg: Config, st: State, entries: seq<BookEntry>, inputs: seq<SweepInput>): Run
    decreases |inputs|
  {
    if inputs == [] then Run(st, [])
    else
      var first := SweepBook(cfg, st, entries, inputs[0].maxOrders, inputs[0].now, inputs[0].ans);
      var rest := Sweeps(cfg, first.st, entries, inputs[1..]);
      Run(rest.st, first.evaluated + rest.evaluated)
  }

  /** At every sweep of the run the book is seen and unheld, and acceptance depends on the order only. */
  ghost predicate Steady(cfg: Config, st: State, entries: seq<BookEntry>, inputs: seq<SweepInput>, acc: nat -> bool)
    decreases |inputs|
  {
    inputs != [] ==>
      && Ready(cfg, st, entries, inputs[0].now)
      && Consistent(RoundRobin(entries, st.cursor), inputs[0].ans, acc)
      && Steady(cfg, SweepBook(cfg, st, entries, inputs[0].maxOrders, inputs[0].now, inputs[0].ans).st,
                entries, inputs[1..], acc)
  }

  /** `ev` is the cyclic walk over `a` from position `p`. */
  ghost predicate Cyclic(a: seq<nat>, p: nat, ev: seq<nat>) {
    if a == [] then ev == [] else forall k | 0 <= k < |ev| :: ev[k] == a[(p + k) % |a|]
  }

  lemma RotationIsCyclic(a: seq<nat>, p: nat, ev: seq<nat>)
    requires p <= |a| && (a != [] ==> p < |a|) && ev <= Rotate(a, p)
    ensures Cyclic(a, p, ev)
  {
    forall k: nat | k < |ev| ensures ev[k] == a[(p + k) % |a|] {
      RotatedAt(a, p, k);
      assert ev[k] == Rotate(a, p)[k];
    }
  }

  lemma RotatedAt(a: seq<nat>, p: nat, k: nat)
    requires p < |a| && k < |a|
    ensures |Rotate(a, p)| == |a| && Rotate(a, p)[k] == a[(p + k) % |a|]
  {
    if p + k < |a| {
      DivModIs(p + k, |a|, 0, p + k);
    } else {
      ModOnce(p + k, |a|);
    }
  }

  lemma CyclicConcat(a: seq<nat>, p: nat, ev: seq<nat>, more: seq<nat>)
    requires a != [] && Cyclic(a, p, ev) && Cyclic(a, (p + |ev|) % |a|, more)
    ensures Cyclic(a, p, ev + more)
  {
    forall k | |ev| <= k < |ev + more| ensures (ev + more)[k] == a[(p + k) % |a|] {
      CyclicAt(a, p + |ev|, more, k - |ev|);
      assert p + |ev| + (k - |ev|) == p + k;
    }
  }

  lemma CyclicAt(a: seq<nat>, p: nat, ev: seq<nat>, i: nat)
    requires a != [] && Cyclic(a, p % |a|, ev) && i < |ev|
    ensures ev[i] == a[(p + i) % |a|]
  {
    ModShift(p, i, |a|);
  }

  /**
   * Over any run of sweeps the evaluated orders walk the accepted ones in cyclic hash
   * order from the cursor, whatever each sweep's bound and wherever each stopped.
   */
  lemma {:induction false} SweepsAreCyclic(
    cfg: Config, st: State, entries: seq<BookEntry>, inputs: seq<SweepInput>, acc: nat -> bool)
    requires !cfg.dryRun && DistinctHashes(entries) && Steady(cfg, st, entries, inputs, acc)
    ensures var a := Accepted(Sort(ByHash, entries), acc);
      Cyclic(a, Position(a, st.cursor), Sweeps(cfg, st, entries, inputs).evaluated)
    decreases |inputs|
  {
    if inputs != [] {
      var a := Accepted(Sort(ByHash, entries), acc);
      var p := Position(a, st.cursor);
      var first := SweepBook(cfg, st, entries, inputs[0].maxOrders, inputs[0].now, inputs[0].ans);
      SweepEvaluates(cfg, st, entries, inputs[0].maxOrders, inputs[0].now, inputs[0].ans, acc);
      SweepsAreCyclic(cfg, first.st, entries, inputs[1..], acc);
      SortSorted(entries);
      AcceptedIncreasing(Sort(ByHash, entries), acc);
      CyclicStep(a, st.cursor, first.evaluated, first.st.cursor, Sweeps(cfg, first.st, entries, inputs[1..]).evaluated);
    }
  }

  lemma CyclicStep(a: seq<nat>, cursor: Option<nat>, ev: seq<nat>, after: Option<nat>, more: seq<nat>)
    requires Increasing(a) && ev <= Rotate(a, Position(a, cursor))
    requires after == if ev == [] then cursor else Some(ev[|ev| - 1])
    requires Cyclic(a, Position(a, after), more)
    ensures Cyclic(a, Position(a, cursor), ev + more)
  {
    var p := Position(a, cursor);
    RotationIsCyclic(a, p, ev);
    if a != [] {
      AdvancesBy(a, p, cursor, ev, after);
      CyclicConcat(a, p, ev, more);
    }
  }

  /** The position moves on by as many orders as were evaluated. */
  lemma AdvancesBy(a: seq<nat>, p: nat, cursor: Option<nat>, ev: seq<nat>, after: Option<nat>)
    requires a != [] && Increasing(a) && p == Position(a, cursor) && Cyclic(a, p, ev)
    requires after == if ev == [] then cursor else Some(ev[|ev| - 1])
    ensures Position(a, after) == (p + |ev|) % |a|
  {
    if ev == [] {
      DivModIs(p, |a|, 0, p);
    } else {
      var q := (p + |ev| - 1) % |a|;
      NextPosition(a, q);
      ModShift(p + |ev| - 1, 1, |a|);
    }
  }

  /** So no order is evaluated twice before every other accepted one has been evaluated once. */
  lemma NoneTwiceBeforeAllOnce(
    cfg: Config, st: State, entries: seq<BookEntry>, inputs: seq<SweepInput>, acc: nat -> bool, j: nat, k: nat, h: nat)
    requires !cfg.dryRun && DistinctHashes(entries) && Steady(cfg, st, entries, inputs, acc)
    requires var ev := Sweeps(cfg, st, entries, inputs).evaluated; j < k < |ev| && ev[j] == ev[k]
    requires acc(h) && exists e :: e in entries && e.hash == h
    ensures h in Sweeps(cfg, st, entries, inputs).evaluated[j..k]
  {
    var sorted := Sort(ByHash, entries);
    SweepsAreCyclic(cfg, st, entries, inputs, acc);
    SortSorted(entries);
    AcceptedIncreasing(sorted, acc);
    AcceptedMembers(sorted, acc);
    var e :| e in entries && e.hash == h;
    MultisetMembers(sorted, entries, e);
    var a := Accepted(sorted, acc);
    CyclicFair(a, Position(a, st.cursor), Sweeps(cfg, st, entries, inputs).evaluated, j, k, h);
  }

  /** On a cyclic walk over distinct elements, between two visits of one every other is visited. */
  lemma CyclicFair(a: seq<nat>, p: nat, ev: seq<nat>, j: nat, k: nat, h: nat)
    requires Increasing(a) && Cyclic(a, p, ev)
    requires j < k < |ev| && ev[j] == ev[k] && h in a
    ensures h in ev[j..k]
  {
    var n := |a|;
    assert k - j >= n by {
      var x, y := (p + j) % n, (p + k) % n;
      assert ev[j] == a[x] && ev[k] == a[y];
      assert x == y;
      if k - j < n {
        ModDistinct(p + j, p + k, n);
      }
    }
    var x :| 0 <= x < n && a[x] == h;
    var m := HitRemainder(p + j, n, x);
    assert ev[j..k][m] == ev[j + m];
  }
}
