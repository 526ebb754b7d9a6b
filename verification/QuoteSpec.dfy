/**
 * The registry of issued quotes as a list of records (packages/beta-filler/src/quote.ts):
 * what issuing, matching, pruning and restoring do to it, and what holds of it over every
 * run. Order hashes and addresses are numbers: the source compares them lower-cased.
 */
module QuoteSpec {
  import opened Common
  import opened Arith

  const MAX_QUOTES := 300

  datatype Terms = Terms(
    id: nat, tokenIn: nat, tokenOut: nat, amountIn: nat, amountOut: nat, maker: Option<nat>, direct: bool,
    validUntil: int)

  datatype Record = Record(terms: Terms, order: Option<nat>, orderExpiry: int)

  datatype Leg = Leg(token: nat, start: nat, end: nat)

  datatype Order = Order(legsIn: seq<Leg>, legsOut: seq<Leg>, maker: nat, direct: bool, items: nat, expiry: nat)

  /** Whether `order` was signed from the quote. */
  predicate QuoteMatches(q: Terms, order: Order, nowS: int, graceS: nat) {
    && |order.legsIn| == 1 && |order.legsOut| == 1
    && var legIn, legOut := order.legsIn[0], order.legsOut[0];
    && legIn.token == q.tokenIn && legOut.token == q.tokenOut
    && (q.maker.Some? ==> order.maker == q.maker.value)
    && q.direct == order.direct
    && order.items == 0
    && nowS <= q.validUntil + graceS
    && var inMax := Max(legIn.start, legIn.end);
    && inMax != 0 && inMax <= q.amountIn && legIn.start != 0
    && legOut.start * q.amountIn * 10_000 <= q.amountOut * legIn.start * 10_001
  }

  predicate Keeps(r: Record, nowS: int, graceS: nat) {
    if r.order.Some? then r.orderExpiry >= nowS else r.terms.validUntil + graceS >= nowS
  }

  function Pruned(s: seq<Record>, nowS: int, graceS: nat): seq<Record> {
    if s == [] then []
    else
      var n := |s| - 1;
      if Keeps(s[n], nowS, graceS) then Pruned(s[..n], nowS, graceS) + [s[n]] else Pruned(s[..n], nowS, graceS)
  }

  /** The first unbound quote's index, or the length. */
  function FirstUnbound(s: seq<Record>): (i: nat)
    ensures i <= |s| && (i < |s| ==> s[i].order.None?)
  {
    if s == [] then 0 else if s[0].order.None? then 0 else 1 + FirstUnbound(s[1..])
  }

  function Without<T>(s: seq<T>, i: nat): (r: seq<T>)
    requires i < |s|
    ensures |r| == |s| - 1 && forall k | 0 <= k < |r| :: r[k] == if k < i then s[k] else s[k + 1]
  {
    s[..i] + s[i + 1..]
  }

  /** Unbound quotes go first, the oldest first; then bound ones, the oldest first. */
  function Evicted(s: seq<Record>): (r: seq<Record>)
    ensures |r| == Min(|s|, MAX_QUOTES)
  {
    if |s| <= MAX_QUOTES then s
    else
      var i := FirstUnbound(s);
      Evicted(Without(s, if i < |s| then i else 0))
  }

  function Issued(s: seq<Record>, q: Record, nowS: int, graceS: nat): seq<Record> {
    Evicted(Pruned(s, nowS, graceS) + [q])
  }

  /** The quote bound to order `h`, as an index, or the length. */
  function BoundTo(s: seq<Record>, h: nat): (i: nat)
    ensures i <= |s| && (i < |s| ==> s[i].order == Some(h))
    ensures i == |s| ==> forall k | 0 <= k < |s| :: s[k].order != Some(h)
  {
    if s == [] then 0 else if s[0].order == Some(h) then 0 else 1 + BoundTo(s[1..], h)
  }

  predicate Fits(r: Record, order: Order, nowS: int, graceS: nat) {
    r.order.None? && QuoteMatches(r.terms, order, nowS, graceS)
  }

  /** The newest unbound quote the order fits, as an index, or the length. */
  function NewestFit(s: seq<Record>, order: Order, nowS: int, graceS: nat): (i: nat)
    ensures i <= |s|
    ensures i < |s| ==> Fits(s[i], order, nowS, graceS)
    ensures forall k | (if i < |s| then i < k else 0 <= k) && k < |s| :: !Fits(s[k], order, nowS, graceS)
  {
    if s == [] then 0
    else
      var n := |s| - 1;
      if Fits(s[n], order, nowS, graceS) then n
      else
        var i := NewestFit(s[..n], order, nowS, graceS);
        if i < n then i else n + 1
  }

  /** The quote pricing the order, as an index, or None. */
  function Priced(s: seq<Record>, h: nat, order: Order, nowS: int, graceS: nat): Option<nat> {
    var b := BoundTo(s, h);
    if b < |s| then Some(b)
    else
      var i := NewestFit(s, order, nowS, graceS);
      if i < |s| then Some(i) else None
  }

  /** The list after matching: the found quote carries the order. */
  function Matched(s: seq<Record>, h: nat, order: Order, nowS: int, graceS: nat): seq<Record> {
    if BoundTo(s, h) < |s| then s
    else
      var i := NewestFit(s, order, nowS, graceS);
      if i < |s| then s[i := s[i].(order := Some(h), orderExpiry := order.expiry)] else s
  }

  /** What loading keeps of a saved list. */
  function Restored(s: seq<Record>): seq<Record> {
    if |s| <= MAX_QUOTES then s else s[|s| - MAX_QUOTES..]
  }

  // ------------------------------------------------------------------------- the runs

  datatype Op =
    | Issue(q: Terms, nowS: int, graceS: nat)
    | Match(h: nat, order: Order, nowS: int, graceS: nat)
    | Prune(nowS: int, graceS: nat)
    | SaveAndRestore

  function Apply(s: seq<Record>, op: Op): seq<Record> {
    match op
    case Issue(q, nowS, graceS) => Issued(s, Record(q, None, 0), nowS, graceS)
    case Match(h, order, nowS, graceS) => Matched(s, h, order, nowS, graceS)
    case Prune(nowS, graceS) => Pruned(s, nowS, graceS)
    case SaveAndRestore => Restored(s)
  }

  function Run(s: seq<Record>, ops: seq<Op>): seq<Record>
    decreases |ops|
  {
    if ops == [] then s else Run(Apply(s, ops[0]), ops[1..])
  }

  /** No order is priced by two quotes. */
  ghost predicate OneEach(s: seq<Record>) {
    forall j, k | 0 <= j < k < |s| && s[j].order.Some? :: s[j].order != s[k].order
  }

  /** What every run keeps. */
  ghost predicate Sound(s: seq<Record>) {
    |s| <= MAX_QUOTES && OneEach(s)
  }

  /** A binding the clock of the operation does not expire. */
  predicate Unexpired(r: Record, op: Op) {
    r.order.Some? && match op
      case Issue(_, nowS, _) => r.orderExpiry >= nowS
      case Prune(nowS, _) => r.orderExpiry >= nowS
      case _ => true
  }

  lemma {:induction false} PrunedIs(s: seq<Record>, nowS: int, graceS: nat)
    ensures |Pruned(s, nowS, graceS)| <= |s|
    ensures forall r :: r in Pruned(s, nowS, graceS) <==> r in s && Keeps(r, nowS, graceS)
    ensures OneEach(s) ==> OneEach(Pruned(s, nowS, graceS))
  {
    if s != [] {
      var n := |s| - 1;
      var init := s[..n];
      PrunedIs(init, nowS, graceS);
      assert s == init + [s[n]];
      var p := Pruned(init, nowS, graceS);
      if OneEach(s) {
        forall k | 0 <= k < |p| && p[k].order.Some? ensures p[k].order != s[n].order {
          assert p[k] in p;
          var j :| 0 <= j < n && init[j] == p[k];
          assert s[j] == p[k];
        }
      }
    }
  }

  lemma WithoutIs(s: seq<Record>, i: nat)
    requires i < |s|
    ensures OneEach(s) ==> OneEach(Without(s, i))
    ensures forall r :: r in Without(s, i) ==> r in s
    ensures forall r :: r in s && r != s[i] ==> r in Without(s, i)
  {
    var w := Without(s, i);
    forall r | r in s && r != s[i] ensures r in w {
      var k :| 0 <= k < |s| && s[k] == r;
      assert w[if k < i then k else k - 1] == r;
    }
  }

  /** With an unbound quote among them, one quote too many costs no binding. */
  lemma EvictedKeeps(s: seq<Record>)
    requires |s| <= MAX_QUOTES + 1 && OneEach(s) && exists k :: 0 <= k < |s| && s[k].order.None?
    ensures OneEach(Evicted(s))
    ensures forall r :: r in Evicted(s) ==> r in s
    ensures forall r :: r in s && r.order.Some? ==> r in Evicted(s)
  {
    if |s| > MAX_QUOTES {
      FirstUnboundExists(s);
      var w := Without(s, FirstUnbound(s));
      WithoutIs(s, FirstUnbound(s));
      assert Evicted(s) == w;
    }
  }

  lemma {:induction false} FirstUnboundExists(s: seq<Record>)
    requires exists k :: 0 <= k < |s| && s[k].order.None?
    ensures FirstUnbound(s) < |s|
    ensures forall k | 0 <= k < FirstUnbound(s) :: s[k].order.Some?
  {
    var k :| 0 <= k < |s| && s[k].order.None?;
    if s[0].order.Some? {
      assert s[1..][k - 1].order.None?;
      FirstUnboundExists(s[1..]);
    }
  }

  lemma IssuedKeeps(s: seq<Record>, q: Terms, nowS: int, graceS: nat)
    requires Sound(s)
    ensures Sound(Issued(s, Record(q, None, 0), nowS, graceS))
    ensures forall r :: r in s && r.order.Some? && r.orderExpiry >= nowS ==>
      r in Issued(s, Record(q, None, 0), nowS, graceS)
    ensures forall r :: r in Issued(s, Record(q, None, 0), nowS, graceS) ==> r in s || r == Record(q, None, 0)
  {
    PrunedIs(s, nowS, graceS);
    var p, fresh_ := Pruned(s, nowS, graceS), Record(q, None, 0);
    var more := p + [fresh_];
    assert more[|p|].order.None?;
    EvictedKeeps(more);
    forall r | r in s && r.order.Some? && r.orderExpiry >= nowS ensures r in Evicted(more) {
      assert r in p;
      assert r in more;
    }
  }

  lemma MatchedKeeps(s: seq<Record>, h: nat, order: Order, nowS: int, graceS: nat)
    requires Sound(s)
    ensures Sound(Matched(s, h, order, nowS, graceS))
    ensures forall r :: r in s && r.order.Some? ==> r in Matched(s, h, order, nowS, graceS)
  {
    var i := NewestFit(s, order, nowS, graceS);
    var m := Matched(s, h, order, nowS, graceS);
    if BoundTo(s, h) == |s| && i < |s| {
      forall r | r in s && r.order.Some? ensures r in m {
        var k :| 0 <= k < |s| && s[k] == r;
        assert m[k] == r;
      }
    }
  }

  /** One operation keeps the registry sound and every binding whose order has not expired. */
  lemma StepKeeps(s: seq<Record>, op: Op)
    requires Sound(s)
    ensures Sound(Apply(s, op))
    ensures forall r :: r in s && Unexpired(r, op) ==> r in Apply(s, op)
  {
    match op {
      case Issue(q, nowS, graceS) => IssuedKeeps(s, q, nowS, graceS);
      case Match(h, order, nowS, graceS) => MatchedKeeps(s, h, order, nowS, graceS);
      case Prune(nowS, graceS) => PrunedIs(s, nowS, graceS);
      case SaveAndRestore =>
    }
  }

  /**
   * Over every run: at most MAX_QUOTES quotes, no order priced twice, and a binding stays
   * as it is, on the same quote, as long as no operation's clock is past its order's expiry.
   */
  lemma {:induction false} RunKeeps(s: seq<Record>, ops: seq<Op>)
    requires Sound(s)
    ensures Sound(Run(s, ops))
    ensures forall r :: r in s && (forall op | op in ops :: Unexpired(r, op)) ==> r in Run(s, ops)
    decreases |ops|
  {
    if ops != [] {
      StepKeeps(s, ops[0]);
      RunKeeps(Apply(s, ops[0]), ops[1..]);
      forall r | r in s && (forall op | op in ops :: Unexpired(r, op)) ensures r in Run(s, ops) {
        assert ops[0] in ops;
        assert r in Apply(s, ops[0]);
        assert forall op | op in ops[1..] :: op in ops;
      }
    }
  }

  lemma BoundToFinds(s: seq<Record>, i: nat, h: nat)
    requires OneEach(s) && i < |s| && s[i].order == Some(h)
    ensures BoundTo(s, h) == i
  {
    assert s[BoundTo(s, h)].order == s[i].order;
  }

  /** Asking again about a priced order gives the same quote, whatever the clock and the order's terms. */
  lemma MatchedAgain(
    s: seq<Record>, h: nat, order: Order, nowS: int, graceS: nat, order': Order, nowS': int, graceS': nat)
    requires Sound(s) && Priced(s, h, order, nowS, graceS).Some?
    ensures var m, i := Matched(s, h, order, nowS, graceS), Priced(s, h, order, nowS, graceS).value;
      && i < |m| && m[i].terms == s[i].terms && m[i].order == Some(h)
      && Priced(m, h, order', nowS', graceS') == Some(i) && Matched(m, h, order', nowS', graceS') == m
  {
    var m, i := Matched(s, h, order, nowS, graceS), Priced(s, h, order, nowS, graceS).value;
    MatchedKeeps(s, h, order, nowS, graceS);
    BoundToFinds(m, i, h);
  }

  /** A full book of bound quotes, none of them expired. */
  function FullOfBound(q: Terms, nowS: int): seq<Record> {
    seq(MAX_QUOTES, i requires 0 <= i < MAX_QUOTES => Record(q, Some(i), nowS))
  }

  /** A new quote issued to it is gone at once. */
  lemma IssuedIsLost(q: Terms, nowS: int, graceS: nat)
    ensures Sound(FullOfBound(q, nowS))
    ensures Record(q, None, 0) !in Issued(FullOfBound(q, nowS), Record(q, None, 0), nowS, graceS)
  {
    var s := FullOfBound(q, nowS);
    AllKept(s, nowS, graceS);
    IssuedIsHeldIff(s, q, nowS, graceS);
  }

  lemma {:induction false} AllKept(s: seq<Record>, nowS: int, graceS: nat)
    requires forall r | r in s :: Keeps(r, nowS, graceS)
    ensures Pruned(s, nowS, graceS) == s
  {
    if s != [] {
      var before := s[..|s| - 1];
      assert s == before + [s[|s| - 1]];
      AllKept(before, nowS, graceS);
    }
  }

  /** A new quote is dropped at once exactly when MAX_QUOTES bound ones are left after pruning. */
  lemma IssuedIsHeldIff(s: seq<Record>, q: Terms, nowS: int, graceS: nat)
    requires Sound(s) && Record(q, None, 0) !in s
    ensures Record(q, None, 0) !in Issued(s, Record(q, None, 0), nowS, graceS) <==>
      var p := Pruned(s, nowS, graceS); |p| == MAX_QUOTES && forall r | r in p :: r.order.Some?
  {
    PrunedIs(s, nowS, graceS);
    var p, fresh_ := Pruned(s, nowS, graceS), Record(q, None, 0);
    var more := p + [fresh_];
    assert more[|p|] == fresh_;
    FirstUnboundExists(more);
    var i := FirstUnbound(more);
    if |more| > MAX_QUOTES {
      assert Evicted(more) == Without(more, i);
      WithoutIs(more, i);
      if i < |p| {
        assert more[i] == p[i] && p[i] in p;
        assert Without(more, i)[|more| - 2] == fresh_;
      } else {
        assert Without(more, i) == p;
        forall r | r in p ensures r.order.Some? {
          var k :| 0 <= k < |p| && p[k] == r;
          assert more[k] == r;
        }
      }
    } else {
      assert Evicted(more) == more;
    }
  }

  /**
   * An order a quote matches asks at its start for no more than the quote promised, within
   * a basis point, however the order was resized.
   */
  lemma MatchedAsksNoMore(q: Terms, order: Order, nowS: int, graceS: nat)
    requires QuoteMatches(q, order, nowS, graceS)
    ensures order.legsOut[0].start * 10_000 <= q.amountOut * 10_001
    ensures order.legsIn[0].start <= q.amountIn && order.legsIn[0].end <= q.amountIn
  {
    var legIn, legOut := order.legsIn[0], order.legsOut[0];
    MulMono(legIn.start, q.amountIn, q.amountOut * 10_001);
    assert legIn.start * (q.amountOut * 10_001) == q.amountOut * legIn.start * 10_001;
    assert q.amountIn * (q.amountOut * 10_001) == (q.amountOut * 10_001) * q.amountIn;
    assert legOut.start * q.amountIn * 10_000 == (legOut.start * 10_000) * q.amountIn;
    MulCancel(legOut.start * 10_000, q.amountOut * 10_001, q.amountIn);
  }

  // --------------------------------------------------------- exactly which quote prices

  /** The order is one the quote's terms were given for, and they have not lapsed. */
  ghost predicate SignedFrom(q: Terms, order: Order, nowS: int, graceS: nat) {
    && (exists legIn, legOut ::
          && order.legsIn == [legIn] && order.legsOut == [legOut]
          && legIn.token == q.tokenIn && legOut.token == q.tokenOut
          && legIn.start > 0 && legIn.start <= q.amountIn && legIn.end <= q.amountIn
          // asks no more per unit than quoted, within a basis point
          && legOut.start * (q.amountIn * 10_000) <= (q.amountOut * 10_001) * legIn.start)
    && (q.maker == None || q.maker == Some(order.maker))
    && (q.direct <==> order.direct) && order.items == 0
    && q.validUntil >= nowS - graceS
  }

  lemma SignedFromIs(q: Terms, order: Order, nowS: int, graceS: nat)
    ensures SignedFrom(q, order, nowS, graceS) <==> QuoteMatches(q, order, nowS, graceS)
  {
    if |order.legsIn| == 1 && |order.legsOut| == 1 {
      var i, o := order.legsIn[0], order.legsOut[0];
      assert order.legsIn == [i] && order.legsOut == [o];
      assert o.start * (q.amountIn * 10_000) == o.start * q.amountIn * 10_000;
      assert (q.amountOut * 10_001) * i.start == q.amountOut * i.start * 10_001;
    }
  }

  /** Quote `i` prices order `h`: the one bound to it, else the newest unbound one it was signed from. */
  ghost predicate Prices(s: seq<Record>, h: nat, order: Order, nowS: int, graceS: nat, i: nat) {
    && i < |s|
    && if s[i].order.Some? then s[i].order == Some(h)
       else
         && SignedFrom(s[i].terms, order, nowS, graceS)
         && (forall k | 0 <= k < |s| :: s[k].order != Some(h))
         && (forall k | i < k < |s| && s[k].order.None? :: !SignedFrom(s[k].terms, order, nowS, graceS))
  }

  /**
   * Which quote prices an order: exactly the one `Prices` says, none exactly when none is
   * bound to it and it was signed from no unbound one; matching binds that quote to the
   * order until the order expires, and changes nothing else.
   */
  lemma PricedIff(s: seq<Record>, h: nat, order: Order, nowS: int, graceS: nat)
    requires OneEach(s)
    ensures var p, m := Priced(s, h, order, nowS, graceS), Matched(s, h, order, nowS, graceS);
      && (forall i: nat :: p == Some(i) <==> Prices(s, h, order, nowS, graceS, i))
      && (p.None? ==> m == s)
      && (p.Some? && s[p.value].order.Some? ==> m == s)
      && (p.Some? && s[p.value].order.None? ==>
            m == s[p.value := Record(s[p.value].terms, Some(h), order.expiry)])
  {
    forall k | 0 <= k < |s|
      ensures SignedFrom(s[k].terms, order, nowS, graceS) <==> QuoteMatches(s[k].terms, order, nowS, graceS)
    {
      SignedFromIs(s[k].terms, order, nowS, graceS);
    }
    forall i: nat | i < |s| && s[i].order == Some(h) ensures BoundTo(s, h) == i {
      BoundToFinds(s, i, h);
    }
  }

  /** Pruning drops exactly the unbound quotes past their grace and the bindings of expired orders. */
  lemma LapsedGoIff(s: seq<Record>, nowS: int, graceS: nat, r: Record)
    ensures r in Pruned(s, nowS, graceS) <==>
      r in s && if r.order.Some? then nowS <= r.orderExpiry else nowS <= r.terms.validUntil + graceS
  {
    PrunedIs(s, nowS, graceS);
  }

  /** One quote over the limit of 300: the oldest unbound one goes, the oldest one when all are bound. */
  lemma OldestGoes(s: seq<Record>) returns (i: nat)
    requires |s| == 301
    ensures i < |s| && Evicted(s) == s[..i] + s[i + 1..]
    ensures (s[i].order.None? && forall k | 0 <= k < i :: s[k].order.Some?)
      || (i == 0 && forall k | 0 <= k < |s| :: s[k].order.Some?)
  {
    i := FirstUnbound(s);
    if i < |s| {
      FirstUnboundExists(s);
    } else {
      forall k | 0 <= k < |s| ensures s[k].order.Some? {
        if s[k].order.None? {
          FirstUnboundExists(s);
        }
      }
      i := 0;
    }
    assert Evicted(Without(s, i)) == Without(s, i);
  }
}
