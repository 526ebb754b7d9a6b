/**
 * What the selection rule names and charges, over the bids themselves: no ranking, no best
 * bid per filler; and where a submitted bid goes.
 */
module AuctionPrice {
  import opened Common
  import opened AuctionRound

  /** The fillers with a bid in range. */
  function Bidders(bids: seq<Bid>): set<nat> {
    set b | b in bids && 0 <= b.bump <= 10_000 :: b.filler
  }

  /** `price` is the lowest bump in range, leaving out one filler's bids. */
  ghost predicate LowestBut(bids: seq<Bid>, but: Option<nat>, price: int) {
    && (exists b :: b in bids && 0 <= b.bump <= 10_000 && Some(b.filler) != but && b.bump == price)
    && (forall b | b in bids && 0 <= b.bump <= 10_000 && Some(b.filler) != but :: price <= b.bump)
  }

  /** `f` has a bid in range at `bump`. */
  ghost predicate BidsAt(bids: seq<Bid>, f: nat, bump: int) {
    exists b :: b in bids && 0 <= b.bump <= 10_000 && b.filler == f && b.bump == bump
  }

  /** How many bidders a round needs, unless it says so: two under second price, one under first. */
  function Needed(rule: Rule, minBidders: Option<nat>): nat {
    match minBidders
    case Some(n) => n
    case None => if rule == SecondPrice then 2 else 1
  }

  /**
   * What an outcome must be: the winner is the least filler bidding the lowest bump; below
   * the quorum it is charged nothing, under first price its own bid, under second price the
   * lowest bump of anyone else, and a lone bidder its own.
   */
  ghost predicate PricedBy(bids: seq<Bid>, rule: Option<Rule>, minBidders: Option<nat>, o: AuctionOutcome) {
    && o.rule == (if rule == Some(FirstPrice) then FirstPrice else SecondPrice)
    && o.bidders == |Bidders(bids)|
    && LowestBut(bids, None, o.winningBidBps) && BidsAt(bids, o.winner, o.winningBidBps)
    && (forall f :: BidsAt(bids, f, o.winningBidBps) ==> o.winner <= f)
    && if o.bidders < Needed(o.rule, minBidders) then o.bumpBps == 0
       else if o.rule == SecondPrice && o.bidders >= 2 then LowestBut(bids, Some(o.winner), o.bumpBps)
       else o.bumpBps == o.winningBidBps
  }

  /** The published runner-up is the lowest bump of anyone but the winner. */
  ghost predicate RunnerUpIs(bids: seq<Bid>, o: AuctionOutcome) {
    match o.runnerUpBps
    case Some(bump) => LowestBut(bids, Some(o.winner), bump)
    case None => Bidders(bids) == {o.winner}
  }

  /** A filler's best bid is one of its bids in range, and no higher than any of them. */
  lemma {:induction false} BestCounts(bids: seq<Bid>, b: Bid)
    ensures b in BestPerFiller(bids) ==> b in bids && Usable(b)
    ensures b in bids && Usable(b) ==>
      var own := Own(BestPerFiller(bids), b.filler);
      own.Some? && own.value.bump <= b.bump
  {
    if bids != [] {
      var before, last := bids[..|bids| - 1], bids[|bids| - 1];
      assert bids == before + [last];
      BestCounts(before, b);
      BestUsable(before);
      OneUpsert(BestPerFiller(before), last);
      OwnUpsert(BestPerFiller(before), last, b.filler);
    }
  }

  lemma BestBidders(bids: seq<Bid>)
    ensures Fillers(BestPerFiller(bids)) == Bidders(bids) && |BestPerFiller(bids)| == |Bidders(bids)|
  {
    var best := BestPerFiller(bids);
    BestUsable(bids);
    FillersSize(best);
    forall f ensures f in Fillers(best) <==> f in Bidders(bids) {
      if f in Fillers(best) {
        var b :| b in best && b.filler == f;
        BestCounts(bids, b);
      }
      if f in Bidders(bids) {
        var b :| b in bids && Usable(b) && b.filler == f;
        BestCounts(bids, b);
        OwnInFillers(best, f);
      }
    }
  }

  /** The second of the sorted best bids is the lowest of the others. */
  lemma SecondIs(best: seq<Bid>)
    requires OnePerFiller(best) && |best| >= 2
    ensures var s := SortBids(best);
      && s[1] in best && s[1].filler != s[0].filler
      && forall x | x in best && x.filler != s[0].filler :: s[1].bump <= x.bump
  {
    var s := SortBids(best);
    SortSorted(best);
    assert s[0] in multiset(s) && s[1] in multiset(s);
    if s[0].filler == s[1].filler {
      OwnIs(best, s[0]);
      OwnIs(best, s[1]);
      OneCount(best, s[0]);
      TwiceIn(s);
    }
    forall x | x in best && x.filler != s[0].filler ensures s[1].bump <= x.bump {
      assert x in multiset(s);
      var k := MultisetIndex(s, x);
    }
  }

  lemma TwiceIn(s: seq<Bid>)
    requires |s| >= 2 && s[0] == s[1]
    ensures multiset(s)[s[0]] >= 2
  {
    assert s == [s[0]] + ([s[1]] + s[2..]);
  }

  /** The best bids tell the lowest bump, leaving out anyone. */
  lemma LowestOfBest(bids: seq<Bid>, but: Option<nat>, price: int)
    requires exists b :: b in BestPerFiller(bids) && Some(b.filler) != but && b.bump == price
    requires forall b | b in BestPerFiller(bids) && Some(b.filler) != but :: price <= b.bump
    ensures LowestBut(bids, but, price)
  {
    var best := BestPerFiller(bids);
    var b :| b in best && Some(b.filler) != but && b.bump == price;
    BestCounts(bids, b);
    forall x | x in bids && 0 <= x.bump <= 10_000 && Some(x.filler) != but ensures price <= x.bump {
      BestCounts(bids, x);
      OwnFound(best, x.filler);
    }
  }

  lemma FirstWins(bids: seq<Bid>)
    requires BestPerFiller(bids) != []
    ensures var first := SortBids(BestPerFiller(bids))[0];
      && LowestBut(bids, None, first.bump) && BidsAt(bids, first.filler, first.bump)
      && forall f :: BidsAt(bids, f, first.bump) ==> first.filler <= f
  {
    var best := BestPerFiller(bids);
    var first := SortBids(best)[0];
    FirstIsLeast(best);
    LowestOfBest(bids, None, first.bump);
    BestCounts(bids, first);
    forall f | BidsAt(bids, f, first.bump) ensures first.filler <= f {
      var b :| b in bids && 0 <= b.bump <= 10_000 && b.filler == f && b.bump == first.bump;
      BestCounts(bids, b);
      OwnFound(best, f);
      assert !Before(Own(best, f).value, first);
    }
  }

  lemma SecondPrices(bids: seq<Bid>)
    requires |BestPerFiller(bids)| >= 2
    ensures var s := SortBids(BestPerFiller(bids)); LowestBut(bids, Some(s[0].filler), s[1].bump)
  {
    var best := BestPerFiller(bids);
    BestUsable(bids);
    SecondIs(best);
    LowestOfBest(bids, Some(SortBids(best)[0].filler), SortBids(best)[1].bump);
  }

  /**
   * The rule, on any bids at all: nothing to sign exactly when no bid is in range, else the
   * winner, the price and the runner-up the bids make.
   */
  lemma OutcomeIs(bids: seq<Bid>, rule: Option<Rule>, minBidders: Option<nat>)
    ensures SelectQuote(bids, rule, minBidders).None? <==> Bidders(bids) == {}
    ensures SelectQuote(bids, rule, minBidders).Some? ==>
      var o := SelectQuote(bids, rule, minBidders).value;
      PricedBy(bids, rule, minBidders, o) && RunnerUpIs(bids, o)
  {
    BestBidders(bids);
    if |BestPerFiller(bids)| >= 2 {
      ManyPriced(bids, rule, minBidders);
    } else if BestPerFiller(bids) != [] {
      OnePriced(bids, rule, minBidders);
    }
  }

  lemma ManyPriced(bids: seq<Bid>, rule: Option<Rule>, minBidders: Option<nat>)
    requires |BestPerFiller(bids)| >= 2
    ensures var o := SelectQuote(bids, rule, minBidders).value;
      PricedBy(bids, rule, minBidders, o) && RunnerUpIs(bids, o)
  {
    BestBidders(bids);
    FirstWins(bids);
    SecondPrices(bids);
  }

  lemma OnePriced(bids: seq<Bid>, rule: Option<Rule>, minBidders: Option<nat>)
    requires |BestPerFiller(bids)| == 1
    ensures var o := SelectQuote(bids, rule, minBidders).value;
      PricedBy(bids, rule, minBidders, o) && RunnerUpIs(bids, o)
  {
    var best := BestPerFiller(bids);
    BestBidders(bids);
    FirstWins(bids);
    FirstIsLeast(best);
    assert Fillers(best) == {best[0].filler};
  }

  // ------------------------------------------------------------------- the placement

  /** `f` is whom a full round lets go: its bid is the highest, the last of the equal ones. */
  ghost predicate LetsGo(s: seq<Bid>, f: nat) {
    exists k: nat :: k < |s| && s[k].filler == f
      && (forall i | 0 <= i < |s| :: s[i].bump <= s[k].bump) && (forall i | k < i < |s| :: s[i].bump < s[k].bump)
  }

  /** `b` improves on what its filler has standing. */
  ghost predicate Improves(s: seq<Bid>, b: Bid) {
    exists x :: x in s && x.filler == b.filler && b.bump < x.bump
  }

  /** `b` beats some standing bid. */
  ghost predicate BeatsSome(s: seq<Bid>, b: Bid) {
    exists x :: x in s && b.bump < x.bump
  }

  /**
   * Exactly when a bid is taken and what for: a strictly better one of a filler that has a
   * bid standing, any while there is room, and in a full round one that beats the worst.
   */
  lemma PlacementIff(s: seq<Bid>, cap: nat, b: Bid)
    requires OnePerFiller(s)
    ensures var p, own := Placement(s, cap, b), b.filler in Fillers(s);
      && (p.Take? <==> if own then Improves(s, b) else |s| < cap || BeatsSome(s, b))
      && (p.Take? ==> (p.evict.Some? <==> !own && |s| >= cap) && (p.evict.Some? ==> LetsGo(s, p.evict.value)))
      && (p == Refuse(Duplicate) <==> exists x :: x in s && x.filler == b.filler && x.bump == b.bump)
      && (p == Refuse(NoImprovement) <==> exists x :: x in s && x.filler == b.filler && x.bump < b.bump)
      && (p == Refuse(AtCapacity) <==> !own && |s| >= cap && !BeatsSome(s, b))
  {
    OwnInFillers(s, b.filler);
    OwnFound(s, b.filler);
    forall x | x in s && x.filler == b.filler ensures Own(s, b.filler) == Some(x) {
      OwnIs(s, x);
    }
    if Own(s, b.filler).None? && s != [] {
      assert s[Worst(s)] in s;
    }
  }
}
