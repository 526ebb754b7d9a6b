/**
 * One quote auction (packages/auction/src/round.ts) with the selection rule it runs
 * (packages/sdk/src/auction.ts): one standing bid per filler, the worst displaced when the
 * round is full, placement re-decided after the asynchronous signature checks.
 */
module AuctionRound {
  import opened Common

  const BPS := 10_000

  /** A submission as received; `bump` is `None` when it is not an integer. */
  datatype RawBid = RawBid(orderHash: nat, filler: nat, bump: Option<int>, closesAt: int, executor: Option<nat>)

  /** The signed fields a round keeps and scores. Fillers compare as their addresses do. */
  datatype Bid = Bid(orderHash: nat, filler: nat, bump: int, closesAt: int, executor: Option<nat>)

  datatype Rule = FirstPrice | SecondPrice

  datatype RoundConfig = RoundConfig(
    orderHash: nat, closesAt: int, rule: Option<Rule>, minBidders: Option<nat>, maxBids: nat)

  // ------------------------------------------------------------------ standing bids

  /** The standing bid of one filler. */
  function Own(s: seq<Bid>, filler: nat): Option<Bid>
  {
    if s == [] then None else if s[0].filler == filler then Some(s[0]) else Own(s[1..], filler)
  }

  function Without(s: seq<Bid>, filler: nat): seq<Bid>
  {
    if s == [] then []
    else if s[0].filler == filler then Without(s[1..], filler)
    else [s[0]] + Without(s[1..], filler)
  }

  ghost predicate OnePerFiller(s: seq<Bid>) {
    forall i, j | 0 <= i < j < |s| :: s[i].filler != s[j].filler
  }

  /** The bid that goes when the round is full: the highest bump, the latest among equals. */
  ghost predicate IsWorst(s: seq<Bid>, k: nat) {
    && k < |s|
    && (forall i | 0 <= i < |s| :: s[i].bump <= s[k].bump)
    && (forall i | k < i < |s| :: s[i].bump < s[k].bump)
  }

  function Worst(s: seq<Bid>): (k: nat)
    requires s != []
    ensures IsWorst(s, k)
  {
    if |s| == 1 then 0
    else
      var k := Worst(s[..|s| - 1]);
      if s[|s| - 1].bump >= s[k].bump then |s| - 1 else k
  }

  datatype Reason =
    | RoundSettled | RoundVoid | RoundClosed | OtherOrder | OtherRound
    | OutOfRange | Duplicate | NoImprovement | AtCapacity | Invalid

  datatype Place = Refuse(why: Reason) | Take(evict: Option<nat>)

  /** Where a bid would go: replace its filler's bid, take a free slot, or displace the worst. */
  function Placement(s: seq<Bid>, cap: nat, b: Bid): Place {
    var own := Own(s, b.filler);
    if own.Some? then
      if own.value.bump == b.bump then Refuse(Duplicate)
      else if b.bump > own.value.bump then Refuse(NoImprovement)
      else Take(None)
    else if |s| < cap then Take(None)
    else if s == [] || b.bump >= s[Worst(s)].bump then Refuse(AtCapacity)
    else Take(Some(s[Worst(s)].filler))
  }

  /** The standing set after a placement decision on `b`. */
  function Offer(s: seq<Bid>, cap: nat, b: Bid): seq<Bid> {
    match Placement(s, cap, b)
    case Refuse(_) => s
    case Take(None) => Without(s, b.filler) + [b]
    case Take(Some(f)) => Without(Without(s, f), b.filler) + [b]
  }

  // ------------------------------------------------------------------ selection rule

  predicate Usable(b: Bid) {
    0 <= b.bump <= BPS
  }

  /** Lower bump first, then the filler. */
  predicate Before(a: Bid, b: Bid) {
    a.bump < b.bump || (a.bump == b.bump && a.filler < b.filler)
  }

  /** Each filler's best bid, the first of equal ones, in order of first appearance. */
  function Upsert(best: seq<Bid>, b: Bid): seq<Bid> {
    if best == [] then [b]
    else if best[0].filler == b.filler then [if Before(b, best[0]) then b else best[0]] + best[1..]
    else [best[0]] + Upsert(best[1..], b)
  }

  function BestPerFiller(bids: seq<Bid>): seq<Bid> {
    if bids == [] then []
    else
      var last := bids[|bids| - 1];
      var best := BestPerFiller(bids[..|bids| - 1]);
      if Usable(last) then Upsert(best, last) else best
  }

  function InsertBid(b: Bid, s: seq<Bid>): (r: seq<Bid>)
    ensures multiset(r) == multiset(s) + multiset{b}
  {
    if s == [] then [b]
    else if Before(b, s[0]) then [b] + s
    else
      assert s == [s[0]] + s[1..];
      [s[0]] + InsertBid(b, s[1..])
  }

  function SortBids(s: seq<Bid>): (r: seq<Bid>)
    ensures multiset(r) == multiset(s)
    ensures |r| == |s|
  {
    if s == [] then []
    else
      assert s == [s[0]] + s[1..];
      var r := InsertBid(s[0], SortBids(s[1..]));
      assert |multiset(r)| == |r|;
      r
  }

  datatype AuctionOutcome = AuctionOutcome(
    winner: nat, bumpBps: int, winningBidBps: int, runnerUpBps: Option<int>, bidders: nat, rule: Rule)

  function RuleOf(rule: Option<Rule>): Rule {
    if rule.Some? then rule.value else SecondPrice
  }

  function QuorumOf(rule: Rule, minBidders: Option<nat>): nat {
    if minBidders.Some? then minBidders.value else if rule == SecondPrice then 2 else 1
  }

  /** The outcome over bids already sorted, one per filler. */
  function OutcomeOf(sorted: seq<Bid>, rule: Rule, quorum: nat): AuctionOutcome
    requires sorted != []
  {
    var runnerUp := if |sorted| > 1 then Some(sorted[1].bump) else None;
    var price :=
      if |sorted| < quorum then 0
      else if rule == SecondPrice && runnerUp.Some? then runnerUp.value
      else sorted[0].bump;
    AuctionOutcome(sorted[0].filler, price, sorted[0].bump, runnerUp, |sorted|, rule)
  }

  /** Run one quote auction over a set of bids; `None` when there is nothing to sign. */
  function SelectQuote(bids: seq<Bid>, rule: Option<Rule>, minBidders: Option<nat>): Option<AuctionOutcome> {
    var sorted := SortBids(BestPerFiller(bids));
    if sorted == [] then None else Some(OutcomeOf(sorted, RuleOf(rule), QuorumOf(RuleOf(rule), minBidders)))
  }

  function VerifyOutcome(bids: seq<Bid>, claimed: AuctionOutcome, rule: Rule, minBidders: Option<nat>): bool {
    match SelectQuote(bids, Some(rule), minBidders)
    case None => false
    case Some(actual) =>
      && actual.winner == claimed.winner && actual.bumpBps == claimed.bumpBps
      && actual.winningBidBps == claimed.winningBidBps && actual.bidders == claimed.bidders
  }

  // ----------------------------------------------------------- the set never bounded

  /** The standing set after any sequence of placement decisions. */
  function Standing(cap: nat, offers: seq<Bid>): seq<Bid> {
    if offers == [] then [] else Offer(Standing(cap, offers[..|offers| - 1]), cap, offers[|offers| - 1])
  }

  /**
   * The standing set against every filler's best bid: it holds best bids only, as many as
   * fit, and none that a bid left out beats.
   */
  ghost predicate KeepsLowest(s: seq<Bid>, best: seq<Bid>, cap: nat) {
    && OnePerFiller(s) && OnePerFiller(best)
    && (forall f :: Own(s, f).Some? ==> Own(best, f) == Own(s, f))
    && |s| == Min(cap, |best|)
    && (forall f, g | Own(s, f).Some? && Own(best, g).Some? && Own(s, g).None? ::
          Own(s, f).value.bump <= Own(best, g).value.bump)
  }

  // ---------------------------------------------------------- one bid per filler

  lemma {:induction false} OwnFound(s: seq<Bid>, f: nat)
    ensures Own(s, f).Some? ==> Own(s, f).value in s && Own(s, f).value.filler == f
    ensures Own(s, f).None? ==> forall b | b in s :: b.filler != f
  {
    if s != [] {
      OwnFound(s[1..], f);
      assert forall b :: b in s <==> b == s[0] || b in s[1..];
    }
  }

  lemma {:induction false} OwnIs(s: seq<Bid>, b: Bid)
    requires OnePerFiller(s) && b in s
    ensures Own(s, b.filler) == Some(b)
  {
    if s[0] != b {
      assert b in s[1..];
      OwnIs(s[1..], b);
    }
  }

  lemma {:induction false} OwnConcat(a: seq<Bid>, c: seq<Bid>, f: nat)
    ensures Own(a + c, f) == if Own(a, f).Some? then Own(a, f) else Own(c, f)
  {
    if a == [] {
      assert a + c == c;
    } else {
      assert (a + c)[1..] == a[1..] + c;
      OwnConcat(a[1..], c, f);
    }
  }

  lemma {:induction false} OwnWithout(s: seq<Bid>, g: nat, f: nat)
    ensures Own(Without(s, g), f) == if f == g then None else Own(s, f)
  {
    if s != [] {
      OwnWithout(s[1..], g, f);
      if s[0].filler != g {
        OwnConcat([s[0]], Without(s[1..], g), f);
      }
    }
  }

  lemma {:induction false} WithoutMembers(s: seq<Bid>, g: nat)
    ensures forall b :: b in Without(s, g) <==> b in s && b.filler != g
    ensures Own(s, g).None? ==> Without(s, g) == s
  {
    if s != [] {
      WithoutMembers(s[1..], g);
      assert forall b :: b in s <==> b == s[0] || b in s[1..];
    }
  }

  lemma {:induction false} OneWithout(s: seq<Bid>, g: nat)
    requires OnePerFiller(s)
    ensures OnePerFiller(Without(s, g))
    ensures |Without(s, g)| == |s| - if Own(s, g).Some? then 1 else 0
  {
    if s != [] {
      OneWithout(s[1..], g);
      var r := Without(s[1..], g);
      WithoutMembers(s[1..], g);
      forall j | 0 <= j < |r| ensures r[j].filler != s[0].filler {
        assert r[j] in r;
      }
      if s[0].filler == g {
        OwnFound(s[1..], g);
      }
    }
  }

  lemma {:induction false} OwnUpsert(best: seq<Bid>, b: Bid, f: nat)
    ensures Own(Upsert(best, b), f) ==
      if f != b.filler then Own(best, f)
      else if Own(best, f).None? || Before(b, Own(best, f).value) then Some(b) else Own(best, f)
  {
    if best != [] && best[0].filler != b.filler {
      OwnUpsert(best[1..], b, f);
    }
  }

  lemma {:induction false} OneUpsert(best: seq<Bid>, b: Bid)
    requires OnePerFiller(best)
    ensures OnePerFiller(Upsert(best, b))
    ensures |Upsert(best, b)| == |best| + if Own(best, b.filler).Some? then 0 else 1
    ensures forall x | x in Upsert(best, b) :: x == b || x in best
  {
    if best != [] && best[0].filler != b.filler {
      OneUpsert(best[1..], b);
      var r := Upsert(best[1..], b);
      forall j | 0 <= j < |r| ensures r[j].filler != best[0].filler {
        assert r[j] in r;
      }
    }
  }

  function Fillers(s: seq<Bid>): set<nat> {
    set b | b in s :: b.filler
  }

  lemma {:induction false} FillersSize(s: seq<Bid>)
    requires OnePerFiller(s)
    ensures |Fillers(s)| == |s|
  {
    if s != [] {
      FillersSize(s[1..]);
      assert Fillers(s) == {s[0].filler} + Fillers(s[1..]);
      assert s[0].filler !in Fillers(s[1..]);
    }
  }

  lemma SameSize(a: set<nat>, b: set<nat>)
    requires a <= b && |a| == |b|
    ensures a == b
  {
    assert |b - a| == |b| - |a|;
    assert b == a + (b - a);
  }

  lemma OwnInFillers(s: seq<Bid>, f: nat)
    ensures f in Fillers(s) <==> Own(s, f).Some?
  {
    OwnFound(s, f);
  }

  /** A standing set as large as the set of best bids leaves nobody out. */
  lemma NobodyLeftOut(s: seq<Bid>, best: seq<Bid>, cap: nat, f: nat)
    requires KeepsLowest(s, best, cap) && |s| == |best|
    ensures Own(best, f) == Own(s, f)
  {
    FillersSize(s);
    FillersSize(best);
    forall g | g in Fillers(s) ensures g in Fillers(best) {
      OwnInFillers(s, g);
      OwnInFillers(best, g);
    }
    SameSize(Fillers(s), Fillers(best));
    OwnInFillers(s, f);
    OwnInFillers(best, f);
  }

  // ------------------------------------------------- a decision keeps the lowest

  lemma TakeOwnSlot(s: seq<Bid>, best: seq<Bid>, cap: nat, b: Bid)
    requires KeepsLowest(s, best, cap)
    requires Own(s, b.filler).Some? || |s| < cap
    requires Own(s, b.filler).Some? ==> b.bump < Own(s, b.filler).value.bump
    ensures KeepsLowest(Without(s, b.filler) + [b], Upsert(best, b), cap)
  {
    var w := Without(s, b.filler);
    var t, u := w + [b], Upsert(best, b);
    if Own(s, b.filler).None? {
      NobodyLeftOut(s, best, cap, b.filler);
    }
    OneWithout(s, b.filler);
    OneUpsert(best, b);
    forall f ensures Own(t, f) == if f == b.filler then Some(b) else Own(s, f) {
      OwnWithout(s, b.filler, f);
      OwnConcat(w, [b], f);
    }
    forall f ensures Own(u, f) == if f == b.filler then Some(b) else Own(best, f) {
      OwnUpsert(best, b, f);
    }
    WithoutMembers(s, b.filler);
    if |s| == |best| && Own(s, b.filler).None? {
      forall g ensures Own(s, g).None? ==> Own(best, g).None? {
        NobodyLeftOut(s, best, cap, g);
      }
    }
  }

  lemma RefusedAtCapacity(s: seq<Bid>, best: seq<Bid>, cap: nat, b: Bid)
    requires KeepsLowest(s, best, cap)
    requires Own(s, b.filler).None? && |s| >= cap
    requires s != [] ==> b.bump >= s[Worst(s)].bump
    ensures KeepsLowest(s, Upsert(best, b), cap)
  {
    OneUpsert(best, b);
    forall f ensures Own(Upsert(best, b), f) ==
      if f != b.filler then Own(best, f)
      else if Own(best, f).None? || b.bump < Own(best, f).value.bump then Some(b) else Own(best, f)
    {
      OwnFound(best, f);
      OwnUpsert(best, b, f);
    }
    forall f | Own(s, f).Some? ensures Own(s, f).value.bump <= b.bump {
      AtMostWorst(s, f);
    }
  }

  /** Displacing one filler's bid by a new filler's. */
  lemma DisplacedShape(s: seq<Bid>, gone: nat, b: Bid)
    requires OnePerFiller(s) && Own(s, gone).Some? && Own(s, b.filler).None?
    ensures var t := Without(Without(s, gone), b.filler) + [b];
      && OnePerFiller(t) && |t| == |s|
      && forall f :: Own(t, f) == if f == b.filler then Some(b) else if f == gone then None else Own(s, f)
  {
    var v := Without(s, gone);
    var w := Without(v, b.filler);
    OneWithout(s, gone);
    OneWithout(v, b.filler);
    OwnWithout(s, gone, b.filler);
    WithoutMembers(v, b.filler);
    forall f ensures Own(w + [b], f) == if f == b.filler then Some(b) else if f == gone then None else Own(s, f) {
      OwnWithout(s, gone, f);
      OwnWithout(v, b.filler, f);
      OwnConcat(w, [b], f);
    }
  }

  lemma AtMostWorst(s: seq<Bid>, f: nat)
    requires Own(s, f).Some?
    ensures Own(s, f).value.bump <= s[Worst(s)].bump
  {
    OwnFound(s, f);
    var k :| 0 <= k < |s| && s[k] == Own(s, f).value;
  }

  lemma Displaced(s: seq<Bid>, best: seq<Bid>, cap: nat, b: Bid)
    requires KeepsLowest(s, best, cap)
    requires Own(s, b.filler).None? && |s| >= cap && s != [] && b.bump < s[Worst(s)].bump
    ensures KeepsLowest(Without(Without(s, s[Worst(s)].filler), b.filler) + [b], Upsert(best, b), cap)
  {
    var worst := s[Worst(s)];
    OwnIs(s, worst);
    DisplacedShape(s, worst.filler, b);
    OneUpsert(best, b);
    assert Own(best, b.filler).Some? ==> worst.bump <= Own(best, b.filler).value.bump;
    forall f ensures Own(Upsert(best, b), f) == if f == b.filler then Some(b) else Own(best, f) {
      OwnUpsert(best, b, f);
    }
    forall f | Own(s, f).Some? ensures Own(s, f).value.bump <= worst.bump {
      AtMostWorst(s, f);
    }
  }

  lemma OfferKeepsLowest(s: seq<Bid>, best: seq<Bid>, cap: nat, b: Bid)
    requires KeepsLowest(s, best, cap)
    ensures KeepsLowest(Offer(s, cap, b), Upsert(best, b), cap)
  {
    var own := Own(s, b.filler);
    if own.Some? {
      if b.bump < own.value.bump {
        TakeOwnSlot(s, best, cap, b);
      } else {
        NoBetter(s, best, cap, b);
      }
    } else if |s| < cap {
      TakeOwnSlot(s, best, cap, b);
    } else if s == [] || b.bump >= s[Worst(s)].bump {
      RefusedAtCapacity(s, best, cap, b);
    } else {
      Displaced(s, best, cap, b);
    }
  }

  lemma NoBetter(s: seq<Bid>, best: seq<Bid>, cap: nat, b: Bid)
    requires KeepsLowest(s, best, cap)
    requires Own(s, b.filler).Some? && b.bump >= Own(s, b.filler).value.bump
    ensures KeepsLowest(s, Upsert(best, b), cap)
  {
    OneUpsert(best, b);
    forall f ensures Own(Upsert(best, b), f) == Own(best, f) {
      OwnFound(best, f);
      OwnUpsert(best, b, f);
    }
  }

  /**
   * After any interleaving of submissions, re-bids and evictions the round keeps exactly
   * the lowest of all fillers' best bids.
   */
  lemma {:induction false} StandingKeepsLowest(cap: nat, offers: seq<Bid>)
    requires forall b | b in offers :: Usable(b)
    ensures KeepsLowest(Standing(cap, offers), BestPerFiller(offers), cap)
  {
    if offers != [] {
      var before, b := offers[..|offers| - 1], offers[|offers| - 1];
      StandingKeepsLowest(cap, before);
      OfferKeepsLowest(Standing(cap, before), BestPerFiller(before), cap, b);
    }
  }

  // ------------------------------------------------------------- what it decides

  function Bumps(s: seq<Bid>): (r: seq<int>)
    ensures |r| == |s|
  {
    if s == [] then [] else [s[0].bump] + Bumps(s[1..])
  }

  ghost predicate SortedInts(s: seq<int>) {
    forall i, j | 0 <= i < j < |s| :: s[i] <= s[j]
  }

  ghost predicate SortedBids(s: seq<Bid>) {
    forall i, j | 0 <= i < j < |s| :: !Before(s[j], s[i])
  }

  lemma {:induction false} BumpsAt(s: seq<Bid>)
    ensures forall i | 0 <= i < |s| :: Bumps(s)[i] == s[i].bump
  {
    if s != [] {
      BumpsAt(s[1..]);
    }
  }

  lemma MultisetTail<T>(s: seq<T>)
    requires s != []
    ensures multiset(s[1..]) == multiset(s) - multiset{s[0]}
  {
    assert s == [s[0]] + s[1..];
  }

  lemma MultisetDrop<T>(t: seq<T>, k: nat)
    requires k < |t|
    ensures multiset(t[..k] + t[k + 1..]) == multiset(t) - multiset{t[k]}
  {
    assert t == t[..k] + [t[k]] + t[k + 1..];
  }

  lemma MultisetIndex<T>(t: seq<T>, x: T) returns (k: nat)
    requires x in multiset(t)
    ensures k < |t| && t[k] == x
  {
    k :| 0 <= k < |t| && t[k] == x;
  }

  lemma BumpsDrop(t: seq<Bid>, k: nat)
    requires k < |t|
    ensures multiset(Bumps(t[..k] + t[k + 1..])) == multiset(Bumps(t)) - multiset{t[k].bump}
  {
    BumpsConcat(t[..k], t[k + 1..]);
    BumpsConcat(t[..k], t[k..]);
    assert t == t[..k] + t[k..];
    var a, b := Bumps(t[..k]), Bumps(t[k + 1..]);
    assert t[k..][1..] == t[k + 1..];
    assert Bumps(t) == a + ([t[k].bump] + b);
  }

  lemma {:induction false} BumpsMultiset(s: seq<Bid>, t: seq<Bid>)
    requires multiset(s) == multiset(t)
    ensures multiset(Bumps(s)) == multiset(Bumps(t))
    decreases |s|
  {
    SameLength(s, t);
    if s != [] {
      assert s[0] in multiset(s);
      var k := MultisetIndex(t, s[0]);
      var u := t[..k] + t[k + 1..];
      MultisetTail(s);
      MultisetDrop(t, k);
      BumpsMultiset(s[1..], u);
      BumpsAt(t);
      BumpsStep(Bumps(s), Bumps(t), k, multiset(Bumps(u))) by {
        BumpsDrop(t, k);
      }
    }
  }

  lemma SameLength<T>(s: seq<T>, t: seq<T>)
    requires multiset(s) == multiset(t)
    ensures |s| == |t|
  {
    assert |multiset(s)| == |s| && |multiset(t)| == |t|;
  }

  lemma BumpsStep(x: seq<int>, y: seq<int>, k: nat, rest: multiset<int>)
    requires x != [] && k < |y| && y[k] == x[0]
    requires multiset(x[1..]) == rest && rest == multiset(y) - multiset{y[k]}
    ensures multiset(x) == multiset(y)
  {
    MultisetTail(x);
    assert x[0] in multiset(x) && y[k] in multiset(y);
    PutBack(multiset(x), multiset(y), x[0]);
  }

  lemma PutBack<T>(m: multiset<T>, n: multiset<T>, x: T)
    requires x in m && x in n && m - multiset{x} == n - multiset{x}
    ensures m == n
  {
    assert m == m - multiset{x} + multiset{x};
    assert n == n - multiset{x} + multiset{x};
  }

  lemma {:induction false} BumpsConcat(a: seq<Bid>, b: seq<Bid>)
    ensures Bumps(a + b) == Bumps(a) + Bumps(b)
  {
    if a == [] {
      assert a + b == b;
    } else {
      assert (a + b)[1..] == a[1..] + b;
      BumpsConcat(a[1..], b);
    }
  }

  lemma {:induction false} InsertSorted(b: Bid, s: seq<Bid>)
    requires SortedBids(s)
    ensures SortedBids(InsertBid(b, s))
  {
    if s != [] && !Before(b, s[0]) {
      InsertSorted(b, s[1..]);
      var r := InsertBid(b, s[1..]);
      forall j | 0 <= j < |r| ensures !Before(r[j], s[0]) {
        assert r[j] in multiset(r);
        assert r[j] == b || r[j] in s[1..];
      }
    }
  }

  lemma {:induction false} SortSorted(s: seq<Bid>)
    ensures SortedBids(SortBids(s))
  {
    if s != [] {
      SortSorted(s[1..]);
      InsertSorted(s[0], SortBids(s[1..]));
    }
  }

  /** A sorted list of integers is determined by its elements. */
  lemma {:induction false} SortedUnique(s: seq<int>, t: seq<int>)
    requires SortedInts(s) && SortedInts(t) && multiset(s) == multiset(t)
    ensures s == t
    decreases |s|
  {
    SameLength(s, t);
    if s != [] {
      SameHead(s, t);
      MultisetTail(s);
      MultisetTail(t);
      SortedUnique(s[1..], t[1..]);
    }
  }

  lemma SameHead(s: seq<int>, t: seq<int>)
    requires s != [] && t != [] && SortedInts(s) && SortedInts(t) && multiset(s) == multiset(t)
    ensures s[0] == t[0]
  {
    assert s[0] in multiset(s) && t[0] in multiset(t);
    var i := MultisetIndex(t, s[0]);
    var j := MultisetIndex(s, t[0]);
  }

  /** The bids of `best` that are not standing. */
  function LeftOut(s: seq<Bid>, best: seq<Bid>): seq<Bid> {
    if best == [] then []
    else if Own(s, best[0].filler).Some? then LeftOut(s, best[1..])
    else [best[0]] + LeftOut(s, best[1..])
  }

  lemma {:induction false} LeftOutMembers(s: seq<Bid>, best: seq<Bid>, b: Bid)
    ensures b in LeftOut(s, best) <==> b in best && Own(s, b.filler).None?
  {
    if best != [] {
      LeftOutMembers(s, best[1..], b);
      assert b in best <==> b == best[0] || b in best[1..];
    }
  }

  /** The best bids are the standing ones and those left out, each once. */
  lemma BestSplits(s: seq<Bid>, best: seq<Bid>)
    requires OnePerFiller(s) && OnePerFiller(best)
    requires forall f :: Own(s, f).Some? ==> Own(best, f) == Own(s, f)
    ensures multiset(best) == multiset(s) + multiset(LeftOut(s, best))
  {
    var out := LeftOut(s, best);
    OneLeftOut(s, best);
    forall b ensures multiset(best)[b] == (multiset(s) + multiset(out))[b] {
      OneCount(s, b);
      OneCount(best, b);
      OneCount(out, b);
      LeftOutMembers(s, best, b);
      OwnFound(s, b.filler);
      OwnFound(best, b.filler);
      if b in s {
        OwnIs(s, b);
      }
      if b in best {
        OwnIs(best, b);
      }
    }
  }

  lemma {:induction false} OneCount(s: seq<Bid>, b: Bid)
    requires OnePerFiller(s)
    ensures multiset(s)[b] == if b in s then 1 else 0
  {
    if s != [] {
      OneCount(s[1..], b);
      MultisetTail(s);
      assert s[0] in multiset(s);
      forall j | 0 <= j < |s[1..]| ensures s[1..][j] != s[0] {
        assert s[1..][j] == s[j + 1];
      }
    }
  }

  lemma {:induction false} OneLeftOut(s: seq<Bid>, best: seq<Bid>)
    requires OnePerFiller(best)
    ensures OnePerFiller(LeftOut(s, best))
  {
    if best != [] {
      OneLeftOut(s, best[1..]);
      var r := LeftOut(s, best[1..]);
      forall j | 0 <= j < |r| ensures r[j].filler != best[0].filler {
        LeftOutMembers(s, best[1..], r[j]);
      }
    }
  }

  lemma SortedBumps(s: seq<Bid>)
    ensures SortedInts(Bumps(SortBids(s)))
  {
    SortSorted(s);
    BumpsAt(SortBids(s));
  }

  /**
   * The standing bumps, sorted, are exactly the first min(cap, n) of the n fillers' best
   * bumps, sorted.
   */
  lemma LowestBumps(s: seq<Bid>, best: seq<Bid>, cap: nat)
    requires KeepsLowest(s, best, cap)
    ensures |s| <= |best| && Bumps(SortBids(s)) == Bumps(SortBids(best))[..|s|]
  {
    var out := LeftOut(s, best);
    var ts, to, tb := SortBids(s), SortBids(out), SortBids(best);
    BestSplits(s, best);
    BumpsAt(ts);
    BumpsAt(to);
    SortedBumps(s);
    SortedBumps(out);
    SortedBumps(best);
    var joined := Bumps(ts) + Bumps(to);
    forall i, j | 0 <= i < |ts| && 0 <= j < |to| ensures ts[i].bump <= to[j].bump {
      StandingBeatsLeftOut(s, best, cap, ts[i], to[j]);
    }
    assert SortedInts(joined);
    BumpsConcat(ts, to);
    BumpsMultiset(ts + to, tb);
    SortedUnique(joined, Bumps(tb));
    assert joined[..|s|] == Bumps(ts);
  }

  lemma StandingBeatsLeftOut(s: seq<Bid>, best: seq<Bid>, cap: nat, b: Bid, r: Bid)
    requires KeepsLowest(s, best, cap)
    requires b in SortBids(s) && r in SortBids(LeftOut(s, best))
    ensures b.bump <= r.bump
  {
    assert b in multiset(SortBids(s)) && r in multiset(SortBids(LeftOut(s, best)));
    LeftOutMembers(s, best, r);
    OwnIs(s, b);
    OwnIs(best, r);
  }

  lemma {:induction false} BestOfUnique(s: seq<Bid>)
    requires OnePerFiller(s) && forall b | b in s :: Usable(b)
    ensures BestPerFiller(s) == s
  {
    if s != [] {
      var before, last := s[..|s| - 1], s[|s| - 1];
      BestOfUnique(before);
      UpsertNew(before, last);
      assert before + [last] == s;
    }
  }

  lemma {:induction false} UpsertNew(best: seq<Bid>, b: Bid)
    requires forall x | x in best :: x.filler != b.filler
    ensures Upsert(best, b) == best + [b]
  {
    if best != [] {
      assert best[0] in best;
      UpsertNew(best[1..], b);
    }
  }

  lemma {:induction false} BestUsable(offers: seq<Bid>)
    ensures forall b | b in BestPerFiller(offers) :: Usable(b)
    ensures OnePerFiller(BestPerFiller(offers))
  {
    if offers != [] {
      BestUsable(offers[..|offers| - 1]);
      OneUpsert(BestPerFiller(offers[..|offers| - 1]), offers[|offers| - 1]);
    }
  }

  /** What the round scores is its standing set as it is. */
  lemma StandingScored(cap: nat, offers: seq<Bid>)
    requires forall b | b in offers :: Usable(b)
    ensures BestPerFiller(Standing(cap, offers)) == Standing(cap, offers)
  {
    var s := Standing(cap, offers);
    StandingKeepsLowest(cap, offers);
    BestUsable(offers);
    forall b | b in s ensures Usable(b) {
      OwnIs(s, b);
      OwnFound(BestPerFiller(offers), b.filler);
    }
    BestOfUnique(s);
  }

  /**
   * A capped round decides as the unbounded one: for a cap of at least two and at least
   * the quorum, the price, the winning bid, the runner-up and the quorum verdict are those
   * of all valid bids ever offered.
   */
  lemma CappedOutcome(cap: nat, offers: seq<Bid>, rule: Option<Rule>, minBidders: Option<nat>)
    requires forall b | b in offers :: Usable(b)
    requires cap >= 2 && cap >= QuorumOf(RuleOf(rule), minBidders)
    ensures var capped := SelectQuote(Standing(cap, offers), rule, minBidders);
      var all := SelectQuote(offers, rule, minBidders);
      && (capped.None? <==> all.None?)
      && (capped.Some? ==>
            && capped.value.bumpBps == all.value.bumpBps
            && capped.value.winningBidBps == all.value.winningBidBps
            && capped.value.runnerUpBps == all.value.runnerUpBps
            && capped.value.bidders == Min(cap, all.value.bidders))
  {
    var s, best := Standing(cap, offers), BestPerFiller(offers);
    StandingKeepsLowest(cap, offers);
    StandingScored(cap, offers);
    LowestBumps(s, best, cap);
    BumpsAt(SortBids(s));
    BumpsAt(SortBids(best));
    SameDecision(SortBids(s), SortBids(best), RuleOf(rule), QuorumOf(RuleOf(rule), minBidders));
  }

  lemma SameDecision(x: seq<Bid>, y: seq<Bid>, rule: Rule, quorum: nat)
    requires |x| <= |y| && Bumps(x) == Bumps(y)[..|x|]
    requires |x| < |y| ==> |x| >= 2 && |x| >= quorum
    ensures x != [] ==>
      var a, b := OutcomeOf(x, rule, quorum), OutcomeOf(y, rule, quorum);
      a.bumpBps == b.bumpBps && a.winningBidBps == b.winningBidBps && a.runnerUpBps == b.runnerUpBps
  {
    BumpsAt(x);
    BumpsAt(y);
    if x != [] {
      assert Bumps(x)[0] == Bumps(y)[0];
      if |x| > 1 {
        assert Bumps(x)[1] == Bumps(y)[1];
      }
    }
  }

  // ------------------------------------------------------------- who it names winner

  /** The fillers whose best bid has the lowest bump of all. */
  ghost function LowFillers(offers: seq<Bid>): set<nat> {
    set b | b in offers && AtMostAll(b, offers) :: b.filler
  }

  ghost predicate AtMostAll(b: Bid, offers: seq<Bid>) {
    forall x | x in offers :: b.bump <= x.bump
  }

  /** Every best bid with the lowest bump is standing. */
  ghost predicate LowestStand(s: seq<Bid>, best: seq<Bid>) {
    forall b | b in best && AtMostAll(b, best) :: b in s
  }

  lemma FirstIsLeast(s: seq<Bid>)
    requires s != []
    ensures SortBids(s)[0] in s && forall x | x in s :: !Before(x, SortBids(s)[0])
  {
    var t := SortBids(s);
    SortSorted(s);
    assert t[0] in multiset(t);
    forall x | x in s ensures !Before(x, t[0]) {
      assert x in multiset(s);
      var k := MultisetIndex(t, x);
    }
  }

  /** The best bids are offered ones, and every filler's is at most any it offered. */
  lemma {:induction false} BestOfOffers(offers: seq<Bid>, b: Bid)
    requires forall x | x in offers :: Usable(x)
    ensures b in BestPerFiller(offers) ==> b in offers
    ensures b in offers ==>
      var own := Own(BestPerFiller(offers), b.filler);
      own.Some? && own.value.bump <= b.bump
  {
    if offers != [] {
      var before, last := offers[..|offers| - 1], offers[|offers| - 1];
      assert offers == before + [last];
      BestOfOffers(before, b);
      BestUsable(before);
      OneUpsert(BestPerFiller(before), last);
      OwnUpsert(BestPerFiller(before), last, b.filler);
    }
  }

  lemma LowOfBest(offers: seq<Bid>)
    requires forall x | x in offers :: Usable(x)
    ensures LowFillers(BestPerFiller(offers)) == LowFillers(offers)
  {
    var best := BestPerFiller(offers);
    forall f ensures f in LowFillers(best) <==> f in LowFillers(offers) {
      if f in LowFillers(best) {
        var b :| b in best && AtMostAll(b, best) && b.filler == f;
        BestOfOffers(offers, b);
        forall x | x in offers ensures b.bump <= x.bump {
          BestOfOffers(offers, x);
          OwnFound(best, x.filler);
        }
      } else if f in LowFillers(offers) {
        var b :| b in offers && AtMostAll(b, offers) && b.filler == f;
        BestOfOffers(offers, b);
        OwnFound(best, f);
        forall x | x in best ensures b.bump <= x.bump {
          BestOfOffers(offers, x);
        }
        assert AtMostAll(Own(best, f).value, best);
      }
    }
  }

  lemma WithinFillers(s: seq<Bid>, fs: set<nat>)
    requires OnePerFiller(s) && fs <= Fillers(s)
    ensures |fs| <= |s|
  {
    FillersSize(s);
    assert |Fillers(s) - fs| == |Fillers(s)| - |fs|;
  }

  /** A left-out lowest bid: the round is full of others just as low. */
  lemma LeftOutLowest(s: seq<Bid>, best: seq<Bid>, cap: nat, b: Bid)
    requires KeepsLowest(s, best, cap)
    requires b in best && AtMostAll(b, best) && b !in s
    ensures |LowFillers(best)| > cap
  {
    OwnIs(best, b);
    OwnFound(s, b.filler);
    if |s| == |best| {
      NobodyLeftOut(s, best, cap, b.filler);
    }
    forall f | f in Fillers(s) ensures f in LowFillers(best) && f != b.filler {
      OwnInFillers(s, f);
      OwnFound(best, f);
      assert AtMostAll(Own(s, f).value, best);
    }
    FillersSize(s);
    var others := LowFillers(best) - {b.filler};
    assert Fillers(s) <= others;
    assert |others - Fillers(s)| == |others| - |Fillers(s)|;
    assert b.filler in LowFillers(best);
  }

  lemma LowestStandOf(s: seq<Bid>, best: seq<Bid>, cap: nat)
    requires KeepsLowest(s, best, cap)
    ensures LowestStand(s, best) <==> |LowFillers(best)| <= cap
  {
    if LowestStand(s, best) {
      WithinFillers(s, LowFillers(best));
    } else {
      var b :| b in best && AtMostAll(b, best) && b !in s;
      LeftOutLowest(s, best, cap, b);
    }
  }

  /**
   * Every best bid with the lowest bump is standing if and only if no more than `cap`
   * fillers bid that low.
   */
  lemma LowestStandIff(cap: nat, offers: seq<Bid>)
    requires forall b | b in offers :: Usable(b)
    ensures LowestStand(Standing(cap, offers), BestPerFiller(offers)) <==> |LowFillers(offers)| <= cap
  {
    StandingKeepsLowest(cap, offers);
    LowOfBest(offers);
    LowestStandOf(Standing(cap, offers), BestPerFiller(offers), cap);
  }

  lemma LowOfStanding(s: seq<Bid>, best: seq<Bid>, cap: nat)
    requires KeepsLowest(s, best, cap) && |LowFillers(best)| <= cap && best != []
    ensures LowFillers(s) == LowFillers(best)
  {
    LowestStandOf(s, best, cap);
    forall x | x in s ensures x in best {
      OwnIs(s, x);
      OwnFound(best, x.filler);
    }
    FirstIsLeast(best);
    var low := SortBids(best)[0];
    assert AtMostAll(low, best) && low in s;
    forall f ensures f in LowFillers(s) <==> f in LowFillers(best) {
      if f in LowFillers(s) {
        var b :| b in s && AtMostAll(b, s) && b.filler == f;
        assert AtMostAll(b, best);
      }
    }
  }

  /** The winner among some bids is the least filler of those that bid the lowest. */
  lemma WinnerIsLeastLow(offers: seq<Bid>, rule: Option<Rule>, minBidders: Option<nat>)
    requires offers != [] && forall b | b in offers :: Usable(b)
    ensures var q := SelectQuote(offers, rule, minBidders);
      q.Some? && q.value.winner in LowFillers(offers) && forall f | f in LowFillers(offers) :: q.value.winner <= f
  {
    var best := BestPerFiller(offers);
    BestOfOffers(offers, offers[0]);
    LowOfBest(offers);
    FirstIsLeast(best);
    assert AtMostAll(SortBids(best)[0], best);
  }

  ghost function Winner(bids: seq<Bid>, rule: Option<Rule>, minBidders: Option<nat>): Option<nat> {
    var q := SelectQuote(bids, rule, minBidders);
    if q.Some? then Some(q.value.winner) else None
  }

  lemma StandingWinner(cap: nat, offers: seq<Bid>, rule: Option<Rule>, minBidders: Option<nat>)
    requires cap >= 1 && |LowFillers(offers)| <= cap && forall b | b in offers :: Usable(b)
    ensures Winner(Standing(cap, offers), rule, minBidders) == Winner(offers, rule, minBidders)
  {
    var s, best := Standing(cap, offers), BestPerFiller(offers);
    StandingKeepsLowest(cap, offers);
    if offers != [] {
      BestOfOffers(offers, offers[0]);
      LowOfBest(offers);
      LowOfStanding(s, best, cap);
      StandingUsable(cap, offers);
      WinnerIsLeastLow(s, rule, minBidders);
      WinnerIsLeastLow(offers, rule, minBidders);
    }
  }

  /** The bids of `offers` that meet `p`, in order. */
  function Those(offers: seq<Bid>, p: Bid -> bool): seq<Bid> {
    if offers == [] then []
    else if p(offers[0]) then [offers[0]] + Those(offers[1..], p)
    else Those(offers[1..], p)
  }

  lemma {:induction false} ThoseMembers(offers: seq<Bid>, p: Bid -> bool, b: Bid)
    ensures b in Those(offers, p) <==> b in offers && p(b)
  {
    if offers != [] {
      ThoseMembers(offers[1..], p, b);
      assert b in offers <==> b == offers[0] || b in offers[1..];
    }
  }

  lemma {:induction false} ThoseSplit(offers: seq<Bid>, p: Bid -> bool, q: Bid -> bool)
    requires forall b :: q(b) <==> !p(b)
    ensures multiset(Those(offers, p) + Those(offers, q)) == multiset(offers)
  {
    if offers != [] {
      ThoseSplit(offers[1..], p, q);
      assert offers == [offers[0]] + offers[1..];
    }
  }

  lemma FullOfLowestRefuses(s: seq<Bid>, cap: nat, b: Bid)
    requires cap >= 1 && |s| == cap && forall x | x in s :: x.bump <= b.bump
    ensures Offer(s, cap, b) == s
  {
    OwnFound(s, b.filler);
    assert s[Worst(s)] in s;
  }

  lemma StandingLast(cap: nat, offers: seq<Bid>, b: Bid)
    ensures Standing(cap, offers + [b]) == Offer(Standing(cap, offers), cap, b)
  {
    assert (offers + [b])[..|offers|] == offers;
  }

  /** A round full of bids nobody undercuts never changes again. */
  lemma {:induction false} FullOfLowestStays(cap: nat, first: seq<Bid>, rest: seq<Bid>, s: seq<Bid>)
    requires cap >= 1 && |s| == cap && s == Standing(cap, first)
    requires forall x, y | x in s && y in rest :: x.bump <= y.bump
    ensures Standing(cap, first + rest) == s
    decreases |rest|
  {
    if rest == [] {
      assert first + rest == first;
    } else {
      var before, b := rest[..|rest| - 1], rest[|rest| - 1];
      assert first + rest == (first + before) + [b];
      FullOfLowestStays(cap, first, before, s);
      StandingLast(cap, first + before, b);
      FullOfLowestRefuses(s, cap, b);
    }
  }

  /** The arrival order that crowds the winner out: first the other fillers' lowest bids. */
  lemma CrowdedOut(cap: nat, offers: seq<Bid>, rule: Option<Rule>, minBidders: Option<nat>) returns (order: seq<Bid>)
    requires cap >= 1 && |LowFillers(offers)| > cap && forall b | b in offers :: Usable(b)
    ensures multiset(order) == multiset(offers)
    ensures Winner(Standing(cap, order), rule, minBidders) != Winner(offers, rule, minBidders)
  {
    WinnerIsLeastLow(offers, rule, minBidders);
    var w := Winner(offers, rule, minBidders).value;
    var low :| low in offers && AtMostAll(low, offers) && low.filler == w;
    var p: Bid -> bool := (b: Bid) => b.bump == low.bump && b.filler != w;
    var q: Bid -> bool := (b: Bid) => !p(b);
    var first, rest := Those(offers, p), Those(offers, q);
    ThoseSplit(offers, p, q);
    forall b ensures b in first <==> b in offers && p(b) {
      ThoseMembers(offers, p, b);
    }
    forall b ensures b in rest ==> b in offers {
      ThoseMembers(offers, q, b);
    }
    FirstFills(cap, offers, first, low);
    StandingUsable(cap, first);
    FullOfLowestStays(cap, first, rest, Standing(cap, first));
    WinnerIsLeastLow(Standing(cap, first), rule, minBidders);
    order := first + rest;
  }

  lemma FirstFills(cap: nat, offers: seq<Bid>, first: seq<Bid>, low: Bid)
    requires |LowFillers(offers)| > cap && low in offers && AtMostAll(low, offers)
    requires forall b | b in offers :: Usable(b)
    requires forall b :: b in first <==> b in offers && b.bump == low.bump && b.filler != low.filler
    ensures |Standing(cap, first)| == cap
  {
    var best := BestPerFiller(first);
    StandingKeepsLowest(cap, first);
    BestUsable(first);
    var others := LowFillers(offers) - {low.filler};
    forall f | f in others ensures f in Fillers(best) {
      var b :| b in offers && AtMostAll(b, offers) && b.filler == f;
      assert b in first;
      BestOfOffers(first, b);
      OwnInFillers(best, f);
    }
    WithinFillers(best, others);
  }

  lemma StandingUsable(cap: nat, offers: seq<Bid>)
    requires forall b | b in offers :: Usable(b)
    ensures forall b | b in Standing(cap, offers) :: b in offers && Usable(b)
  {
    var s := Standing(cap, offers);
    StandingKeepsLowest(cap, offers);
    forall b | b in s ensures b in offers {
      OwnIs(s, b);
      OwnFound(BestPerFiller(offers), b.filler);
      BestOfOffers(offers, b);
    }
  }

  /** The capped winner is the winner of all bids whatever order they arrive in. */
  ghost predicate WinnerIgnoresArrival(cap: nat, offers: seq<Bid>, rule: Option<Rule>, minBidders: Option<nat>) {
    forall order | multiset(order) == multiset(offers) ::
      Winner(Standing(cap, order), rule, minBidders) == Winner(offers, rule, minBidders)
  }

  /** If and only if no more than `cap` fillers bid the lowest. */
  lemma WinnerIgnoresArrivalIff(cap: nat, offers: seq<Bid>, rule: Option<Rule>, minBidders: Option<nat>)
    requires cap >= 1 && forall b | b in offers :: Usable(b)
    ensures WinnerIgnoresArrival(cap, offers, rule, minBidders) <==> |LowFillers(offers)| <= cap
  {
    if |LowFillers(offers)| > cap {
      var order := CrowdedOut(cap, offers, rule, minBidders);
    } else {
      forall order | multiset(order) == multiset(offers)
        ensures Winner(Standing(cap, order), rule, minBidders) == Winner(offers, rule, minBidders)
      {
        SameWinner(cap, order, offers, rule, minBidders);
      }
    }
  }

  lemma SameWinner(cap: nat, order: seq<Bid>, offers: seq<Bid>, rule: Option<Rule>, minBidders: Option<nat>)
    requires cap >= 1 && |LowFillers(offers)| <= cap && forall b | b in offers :: Usable(b)
    requires multiset(order) == multiset(offers)
    ensures Winner(Standing(cap, order), rule, minBidders) == Winner(offers, rule, minBidders)
  {
    SameBids(order, offers);
    assert LowFillers(order) == LowFillers(offers);
    StandingWinner(cap, order, rule, minBidders);
    if offers != [] {
      WinnerIsLeastLow(order, rule, minBidders);
      WinnerIsLeastLow(offers, rule, minBidders);
    }
  }

  lemma SameBids(order: seq<Bid>, offers: seq<Bid>)
    requires multiset(order) == multiset(offers)
    ensures |order| == |offers| && forall b :: b in order <==> b in offers
    ensures forall b :: AtMostAll(b, order) <==> AtMostAll(b, offers)
  {
    SameLength(order, offers);
    forall b ensures b in order <==> b in offers {
      assert b in multiset(order) <==> b in multiset(offers);
    }
  }

  /** No two bids share filler and bump. */
  predicate NoDuplicate(bids: seq<Bid>) {
    forall i, j | 0 <= i < j < |bids| :: (bids[i].filler, bids[i].bump) != (bids[j].filler, bids[j].bump)
  }

  /** Without duplicates a filler's best bid is the same in whatever order the bids come. */
  lemma SameBest(a: seq<Bid>, b: seq<Bid>, f: nat)
    requires multiset(a) == multiset(b) && NoDuplicate(a) && forall x | x in a :: Usable(x)
    ensures Own(BestPerFiller(a), f).Some? ==> Own(BestPerFiller(b), f) == Own(BestPerFiller(a), f)
  {
    SameBids(a, b);
    OwnFound(BestPerFiller(a), f);
    OwnFound(BestPerFiller(b), f);
    if Own(BestPerFiller(a), f).Some? {
      var x := Own(BestPerFiller(a), f).value;
      BestOfOffers(a, x);
      BestOfOffers(b, x);
      var y := Own(BestPerFiller(b), f).value;
      BestOfOffers(b, y);
      BestOfOffers(a, y);
      assert x == y;
    }
  }

  lemma SameOwnKeeps(a: seq<Bid>, b: seq<Bid>)
    requires OnePerFiller(a) && OnePerFiller(b)
    requires forall f :: Own(a, f).Some? ==> Own(b, f) == Own(a, f)
    requires forall f :: Own(b, f).Some? ==> Own(a, f) == Own(b, f)
    ensures KeepsLowest(a, b, |b|) && |a| == |b|
  {
    FillersSize(a);
    FillersSize(b);
    forall f ensures f in Fillers(a) <==> f in Fillers(b) {
      OwnInFillers(a, f);
      OwnInFillers(b, f);
    }
    assert Fillers(a) == Fillers(b);
  }

  /** The outcome of bids without duplicates does not depend on their order. */
  lemma OutcomeIgnoresOrder(a: seq<Bid>, b: seq<Bid>, rule: Option<Rule>, minBidders: Option<nat>)
    requires multiset(a) == multiset(b) && NoDuplicate(a) && NoDuplicate(b) && forall x | x in a :: Usable(x)
    ensures SelectQuote(a, rule, minBidders) == SelectQuote(b, rule, minBidders)
  {
    var x, y := BestPerFiller(a), BestPerFiller(b);
    SameBids(a, b);
    forall f ensures (Own(x, f).Some? ==> Own(y, f) == Own(x, f)) && (Own(y, f).Some? ==> Own(x, f) == Own(y, f)) {
      SameBest(a, b, f);
      SameBest(b, a, f);
    }
    BestUsable(a);
    BestUsable(b);
    SameOwnKeeps(x, y);
    LowestBumps(x, y, |y|);
    SameDecision(SortBids(x), SortBids(y), RuleOf(rule), QuorumOf(RuleOf(rule), minBidders));
    if a != [] {
      WinnerIsLeastLow(a, rule, minBidders);
      WinnerIsLeastLow(b, rule, minBidders);
      assert LowFillers(a) == LowFillers(b);
    }
  }

  /** One of several bids at the same bump. */
  function Tied(orderHash: nat, closesAt: int, filler: nat): Bid {
    Bid(orderHash, filler, 10, closesAt, None)
  }

  /** With a full round of ties the winner depends on who came first: two arrival orders, two winners. */
  lemma FullTieWinnerDependsOnArrival(orderHash: nat, closesAt: int)
    ensures var a, b, c := Tied(orderHash, closesAt, 1), Tied(orderHash, closesAt, 2), Tied(orderHash, closesAt, 3);
      var first := SelectQuote(Standing(2, [a, b, c]), None, None);
      var second := SelectQuote(Standing(2, [b, c, a]), None, None);
      first.Some? && first.value.winner == 1 && second.Some? && second.value.winner == 2
  {
    var a, b, c := Tied(orderHash, closesAt, 1), Tied(orderHash, closesAt, 2), Tied(orderHash, closesAt, 3);
    ThreeTies(a, b, c);
    ThreeTies(b, c, a);
  }

  lemma ThreeTies(a: Bid, b: Bid, c: Bid)
    requires a.filler < b.filler && c.filler !in {a.filler, b.filler} && a.bump == b.bump == c.bump && Usable(a)
    ensures var q := SelectQuote(Standing(2, [a, b, c]), None, None);
      q.Some? && q.value.winner == a.filler
  {
    StandingThree(a, b, c);
    BestOfUnique([a, b]);
    FirstIsLeast([a, b]);
  }

  lemma StandingThree(a: Bid, b: Bid, c: Bid)
    requires a.filler != b.filler && c.filler !in {a.filler, b.filler} && a.bump == b.bump == c.bump
    ensures Standing(2, [a, b, c]) == [a, b]
  {
    StandingTwo(a, b);
    assert [a, b, c][..2] == [a, b];
    OwnFound([a, b], c.filler);
    assert [a, b][Worst([a, b])].bump == c.bump;
  }

  lemma StandingOne(a: Bid)
    ensures Standing(2, [a]) == [a]
  {
    assert [a][..0] == [];
    assert Standing(2, []) == [];
    WithoutMembers([], a.filler);
    assert [] + [a] == [a];
  }

  lemma StandingTwo(a: Bid, b: Bid)
    requires a.filler != b.filler
    ensures Standing(2, [a, b]) == [a, b]
  {
    StandingOne(a);
    assert [a, b][..1] == [a];
    OwnFound([a], b.filler);
    WithoutMembers([a], b.filler);
    assert [a] + [b] == [a, b];
  }
}
