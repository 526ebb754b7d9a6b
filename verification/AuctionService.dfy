/**
 * The round as an object (packages/auction/src/round.ts): submissions decided twice, before
 * and after their asynchronous checks, settlement, and the audit of a published round.
 */
module AuctionService {
  import opened Common
  import opened AuctionRound
  import opened AuctionPrice

  datatype SettledRound = SettledRound(
    orderHash: nat, outcome: AuctionOutcome, bids: seq<Bid>, settledAt: int, rule: Rule, minBidders: Option<nat>)

  /** A submission refused at once, or one whose signatures are being checked. */
  datatype Submission = Refused(why: Reason) | Checking(bid: Bid)

  datatype Verdict = Accepted | Rejected(why: Reason)

  /** What signature checks accept: the bid's own, and any executor declaration's. */
  type Genuine = Bid -> bool

  ghost predicate ChecksRange(genuine: Genuine) {
    forall b :: genuine(b) ==> Usable(b)
  }

  /** The published record agrees with the policy the auditor was promised. */
  predicate PolicyMatches(r: SettledRound, rule: Rule, minBidders: Option<nat>) {
    && r.rule == rule
    && r.outcome.rule == rule
    && (minBidders.Some? ==> r.minBidders == minBidders)
  }

  predicate BidsGenuine(r: SettledRound, genuine: Genuine) {
    forall b | b in r.bids :: b.orderHash == r.orderHash && genuine(b)
  }

  /** What the audit of a published round accepts. */
  predicate AuditPasses(r: SettledRound, rule: Rule, minBidders: Option<nat>, genuine: Genuine) {
    && PolicyMatches(r, rule, minBidders)
    && BidsGenuine(r, genuine)
    && NoDuplicate(r.bids)
    && VerifyOutcome(r.bids, r.outcome, rule, minBidders)
  }

  method CheckRound(r: SettledRound, rule: Rule, minBidders: Option<nat>, genuine: Genuine) returns (ok: bool)
    ensures ok <==> AuditPasses(r, rule, minBidders, genuine)
  {
    if r.rule != rule || r.outcome.rule != rule {
      return false;
    }
    if minBidders.Some? && r.minBidders != minBidders {
      return false;
    }
    var seen: set<(nat, int)> := {};
    var i := 0;
    while i < |r.bids|
      invariant 0 <= i <= |r.bids|
      invariant forall j | 0 <= j < i :: r.bids[j].orderHash == r.orderHash && genuine(r.bids[j])
      invariant seen == set j | 0 <= j < i :: (r.bids[j].filler, r.bids[j].bump)
      invariant NoDuplicate(r.bids[..i])
    {
      var bid := r.bids[i];
      if bid.orderHash != r.orderHash || !genuine(bid) {
        assert bid in r.bids;
        return false;
      }
      if (bid.filler, bid.bump) in seen {
        var j :| 0 <= j < i && (r.bids[j].filler, r.bids[j].bump) == (bid.filler, bid.bump);
        assert !NoDuplicate(r.bids);
        return false;
      }
      seen := seen + {(bid.filler, bid.bump)};
      i := i + 1;
    }
    assert r.bids[..i] == r.bids;
    ok := VerifyOutcome(r.bids, r.outcome, rule, minBidders);
  }

  /** Two records of the same bids, in whatever order, that pass the same audit have the same outcome. */
  lemma AuditPinsOutcome(r: SettledRound, q: SettledRound, rule: Rule, minBidders: Option<nat>, genuine: Genuine)
    requires AuditPasses(r, rule, minBidders, genuine) && AuditPasses(q, rule, minBidders, genuine)
    requires ChecksRange(genuine) && multiset(r.bids) == multiset(q.bids)
    ensures r.outcome.winner == q.outcome.winner && r.outcome.bumpBps == q.outcome.bumpBps
    ensures r.outcome.winningBidBps == q.outcome.winningBidBps && r.outcome.bidders == q.outcome.bidders
    ensures r.outcome.winner in LowFillers(r.bids) && forall f | f in LowFillers(r.bids) :: r.outcome.winner <= f
  {
    OutcomeIgnoresOrder(r.bids, q.bids, Some(rule), minBidders);
    assert r.bids != [] by {
      assert r.bids == [] ==> SortBids(BestPerFiller(r.bids)) == [];
    }
    WinnerIsLeastLow(r.bids, Some(rule), minBidders);
  }

  /** What a passing audit vouches for, over the published bids themselves. */
  lemma AuditMeans(r: SettledRound, rule: Rule, minBidders: Option<nat>, genuine: Genuine)
    requires AuditPasses(r, rule, minBidders, genuine)
    ensures PricedBy(r.bids, Some(rule), minBidders, r.outcome)
  {
    OutcomeIs(r.bids, Some(rule), minBidders);
  }

  /** The signed fields of a submission. */
  function Projected(raw: RawBid): Bid
    requires raw.bump.Some?
  {
    Bid(raw.orderHash, raw.filler, raw.bump.value, raw.closesAt, raw.executor)
  }

  class Round {
    const config: RoundConfig
    const genuine: Genuine
    var standing: seq<Bid>
    var settled: Option<SettledRound>
    var voided: bool
    /** Every genuine bid a placement decision was taken on, in order. */
    ghost var offers: seq<Bid>

    ghost predicate ForThisRound(b: Bid) {
      genuine(b) && b.orderHash == config.orderHash && b.closesAt == config.closesAt
    }

    ghost predicate Valid()
      reads this
    {
      && ChecksRange(genuine)
      && (forall b | b in offers :: ForThisRound(b))
      && standing == Standing(config.maxBids, offers)
      && (settled.Some? ==>
            var r := settled.value;
            var outcome := SelectQuote(standing, config.rule, config.minBidders);
            && r.bids == standing && outcome == Some(r.outcome)
            && r.orderHash == config.orderHash && r.rule == r.outcome.rule && r.minBidders == config.minBidders)
    }

    constructor (config: RoundConfig, genuine: Genuine)
      requires ChecksRange(genuine)
      ensures Valid() && this.config == config && this.genuine == genuine
      ensures offers == [] && settled.None? && !voided
    {
      this.config := config;
      this.genuine := genuine;
      this.standing := [];
      this.settled := None;
      this.voided := false;
      this.offers := [];
    }

    /** No earlier reason refuses it: the standing bids decide. */
    predicate ReachesPlacement(raw: RawBid, now: int)
      reads this
    {
      && settled.None? && !voided && now < config.closesAt && raw.bump.Some?
      && raw.orderHash == config.orderHash && raw.closesAt == config.closesAt
    }

    /** The first reason, in the order they are checked, that refuses a submission at once. */
    function EarlyRefusal(raw: RawBid, now: int): Option<Reason>
      reads this
    {
      if settled.Some? then Some(RoundSettled)
      else if voided then Some(RoundVoid)
      else if now >= config.closesAt then Some(RoundClosed)
      else if raw.orderHash != config.orderHash then Some(OtherOrder)
      else if raw.closesAt != config.closesAt then Some(OtherRound)
      else if raw.bump.None? then Some(OutOfRange)
      else match Placement(standing, config.maxBids, Projected(raw))
        case Refuse(why) => Some(why)
        case Take(_) => None
    }

    /** The synchronous part of a submission: cheap refusals before the signature work. */
    method Begin(raw: RawBid, now: int) returns (s: Submission)
      requires Valid()
      modifies this`offers
      ensures Valid() && standing == old(standing)
      ensures s ==
        var why := old(EarlyRefusal(raw, now));
        if why.Some? then Refused(why.value) else Checking(Projected(raw))
      // a genuine bid refused by the placement decision counts as offered
      ensures offers == old(offers) +
        if s.Refused? && old(ReachesPlacement(raw, now)) && genuine(Projected(raw)) then
        [Projected(raw)] else []
    {
      if settled.Some? {
        return Refused(RoundSettled);
      }
      if voided {
        return Refused(RoundVoid);
      }
      if now >= config.closesAt {
        return Refused(RoundClosed);
      }
      if raw.orderHash != config.orderHash {
        return Refused(OtherOrder);
      }
      if raw.closesAt != config.closesAt {
        return Refused(OtherRound);
      }
      if raw.bump.None? {
        return Refused(OutOfRange);
      }
      var bid := Projected(raw);
      var place := Place(bid);
      if place.Refuse? {
        if genuine(bid) {
          offers := offers + [bid];
        }
        return Refused(place.why);
      }
      return Checking(bid);
    }

    /** The first reason that refuses a submission after its signature checks. */
    function LateRefusal(bid: Bid): Option<Reason>
      reads this
    {
      if !genuine(bid) then Some(Invalid)
      else if settled.Some? then Some(RoundSettled)
      else if voided then Some(RoundVoid)
      else match Placement(standing, config.maxBids, bid)
        case Refuse(why) => Some(why)
        case Take(_) => None
    }

    /** The part after the checks: decided afresh on the standing set as it is now. */
    method Finish(bid: Bid) returns (v: Verdict)
      requires Valid() && bid.orderHash == config.orderHash && bid.closesAt == config.closesAt
      modifies this`standing, this`offers
      ensures Valid()
      ensures v == var why := old(LateRefusal(bid)); if why.Some? then Rejected(why.value) else Accepted
      ensures standing == if v == Accepted then Offer(old(standing), config.maxBids, bid) else old(standing)
      ensures v == Accepted ==> bid in standing
      ensures offers == old(offers) + if genuine(bid) && settled.None? && !voided then [bid] else []
    {
      if !genuine(bid) {
        return Rejected(Invalid);
      }
      if settled.Some? {
        return Rejected(RoundSettled);
      }
      if voided {
        return Rejected(RoundVoid);
      }
      var place := Place(bid);
      offers := offers + [bid];
      if place.Refuse? {
        return Rejected(place.why);
      }
      if place.evict.Some? {
        standing := Without(standing, place.evict.value);
      }
      standing := Without(standing, bid.filler);
      standing := standing + [bid];
      return Accepted;
    }

    /** Where `bid` would go. */
    method Place(bid: Bid) returns (p: Place)
      ensures p == Placement(standing, config.maxBids, bid)
    {
      var own := Own(standing, bid.filler);
      if own.Some? {
        if own.value.bump == bid.bump {
          return Refuse(Duplicate);
        }
        if bid.bump > own.value.bump {
          return Refuse(NoImprovement);
        }
        return Take(None);
      }
      if |standing| < config.maxBids {
        return Take(None);
      }
      var worst: Option<nat> := None;
      var i := 0;
      while i < |standing|
        invariant 0 <= i <= |standing|
        invariant worst.None? <==> i == 0
        invariant worst.Some? ==> IsWorst(standing[..i], worst.value)
      {
        if worst.None? || standing[i].bump >= standing[worst.value].bump {
          worst := Some(i);
        }
        i := i + 1;
      }
      assert standing[..i] == standing;
      if worst.None? || bid.bump >= standing[worst.value].bump {
        return Refuse(AtCapacity);
      }
      return Take(Some(standing[worst.value].filler));
    }

    /** Run the selection rule and freeze the round. */
    method Settle(now: int) returns (r: Option<SettledRound>)
      requires Valid()
      modifies this`settled
      ensures Valid()
      ensures old(settled).Some? ==> settled == old(settled) && r == settled
      ensures old(settled).None? && voided ==> r.None? && settled.None?
      ensures old(settled).None? && !voided ==>
        && r == settled
        && (r.None? <==> SelectQuote(standing, config.rule, config.minBidders).None?)
        && (r.Some? ==>
              && r.value.bids == standing && r.value.settledAt == now
              && Some(r.value.outcome) == SelectQuote(standing, config.rule, config.minBidders))
    {
      if settled.Some? {
        return settled;
      }
      if voided {
        return None;
      }
      var outcome := SelectQuote(standing, config.rule, config.minBidders);
      if outcome.None? {
        return None;
      }
      settled := Some(
        SettledRound(config.orderHash, outcome.value, standing, now, outcome.value.rule, config.minBidders));
      return settled;
    }

    /** Abandon the round without settling. */
    method Void()
      requires Valid()
      modifies this`voided
      ensures Valid() && voided == (old(voided) || settled.None?)
    {
      if settled.None? {
        voided := true;
      }
    }

    /**
     * Exactly when a submission goes on to have its signatures checked, and the reason it is
     * refused for otherwise: the first of these that applies.
     */
    lemma EarlyRefusalIff(raw: RawBid, now: int)
      requires Valid()
      ensures var why := EarlyRefusal(raw, now);
        var open, inTime := settled.None? && !voided, now < config.closesAt;
        var own, here := raw.orderHash == config.orderHash, raw.closesAt == config.closesAt;
        && (why == Some(RoundSettled) <==> settled.Some?)
        && (why == Some(RoundVoid) <==> settled.None? && voided)
        && (why == Some(RoundClosed) <==> open && !inTime)
        && (why == Some(OtherOrder) <==> open && inTime && !own)
        && (why == Some(OtherRound) <==> open && inTime && own && !here)
        && (why == Some(OutOfRange) <==> open && inTime && own && here && raw.bump.None?)
        && (why == None <==>
              && open && inTime && own && here && raw.bump.Some?
              && if raw.filler in Fillers(standing) then Improves(standing, Projected(raw))
                 else |standing| < config.maxBids || BeatsSome(standing, Projected(raw)))
    {
      StandingKeepsLowest(config.maxBids, offers);
      if raw.bump.Some? {
        PlacementIff(standing, config.maxBids, Projected(raw));
      }
    }

    /** The settled price and winner are those the standing bids make. */
    lemma SettledPriceIs()
      requires Valid() && settled.Some?
      ensures PricedBy(standing, config.rule, config.minBidders, settled.value.outcome)
      ensures RunnerUpIs(standing, settled.value.outcome)
    {
      OutcomeIs(standing, config.rule, config.minBidders);
    }

    /**
     * A settled round decides as if every genuine bid ever decided on had been kept: price,
     * winning bid, runner-up and whether the quorum is met always, the winner when the
     * lowest bidders fit the round; its published record passes the audit under its own
     * rule and quorum.
     */
    lemma SettledIsUncapped()
      requires Valid() && settled.Some?
      requires config.maxBids >= 2 && config.maxBids >= QuorumOf(RuleOf(config.rule), config.minBidders)
      ensures var all := SelectQuote(offers, config.rule, config.minBidders);
        var quorum, settledAs := QuorumOf(RuleOf(config.rule), config.minBidders), settled.value.outcome;
        && all.Some?
        && settledAs.bumpBps == all.value.bumpBps
        && settledAs.winningBidBps == all.value.winningBidBps
        && settledAs.runnerUpBps == all.value.runnerUpBps
        && (settledAs.bidders >= quorum <==> all.value.bidders >= quorum)
        && settledAs.rule == all.value.rule
        && (|LowFillers(offers)| <= config.maxBids ==> settledAs.winner == all.value.winner)
      ensures AuditPasses(settled.value, RuleOf(config.rule), config.minBidders, genuine)
    {
      CappedOutcome(config.maxBids, offers, config.rule, config.minBidders);
      StandingKeepsLowest(config.maxBids, offers);
      StandingUsable(config.maxBids, offers);
      if |LowFillers(offers)| <= config.maxBids {
        StandingWinner(config.maxBids, offers, config.rule, config.minBidders);
      }
      assert NoDuplicate(standing);
    }
  }
}
