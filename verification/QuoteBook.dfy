/**
 * The registry of issued quotes as the filler runs it (packages/beta-filler/src/quote.ts):
 * quote objects bound in place, an index from order to quote kept beside the list. The
 * records the objects hold are what QuoteSpec speaks about.
 */
module QuoteRegistry {
  import opened Common
  import opened QuoteSpec

  class Quote {
    const terms: Terms
    var order: Option<nat>
    var orderExpiry: int

    constructor (r: Record)
      ensures terms == r.terms && order == r.order && orderExpiry == r.orderExpiry
    {
      terms, order, orderExpiry := r.terms, r.order, r.orderExpiry;
    }

    function Data(): Record
      reads this
    {
      Record(terms, order, orderExpiry)
    }
  }

  // ------------------------------------------------- the list and its index, as values

  ghost predicate Distinct(qs: seq<Quote>) {
    forall j, k | 0 <= j < k < |qs| :: qs[j] != qs[k]
  }

  /** The index maps exactly the orders bound in the list, each to its quote. */
  ghost predicate IndexOk(index: map<nat, Quote>, qs: seq<Quote>, rs: seq<Record>)
    requires |qs| == |rs|
  {
    && (forall k | 0 <= k < |rs| && rs[k].order.Some? ::
         rs[k].order.value in index && index[rs[k].order.value] == qs[k])
    && (forall h | h in index :: BoundTo(rs, h) < |rs| && index[h] == qs[BoundTo(rs, h)])
  }

  /** The index once entry `i` is taken out. */
  ghost function Left(index: map<nat, Quote>, rs: seq<Record>, i: nat): map<nat, Quote>
    requires i < |rs|
  {
    if rs[i].order.Some? then index - {rs[i].order.value} else index
  }

  lemma StillBound(index: map<nat, Quote>, qs: seq<Quote>, rs: seq<Record>, i: nat, h: nat)
    requires |qs| == |rs| && OneEach(rs) && IndexOk(index, qs, rs) && i < |rs| && h in Left(index, rs, i)
    ensures var b := BoundTo(Without(rs, i), h); b < |rs| - 1 && Left(index, rs, i)[h] == Without(qs, i)[b]
  {
    WithoutIs(rs, i);
    var b := BoundTo(rs, h);
    assert b != i;
    BoundToFinds(Without(rs, i), if b < i then b else b - 1, h);
  }

  /** Taking an entry out of the list and its order out of the index keeps the two in step. */
  lemma DropKeepsIndex(index: map<nat, Quote>, qs: seq<Quote>, rs: seq<Record>, i: nat)
    requires |qs| == |rs| && Distinct(qs) && IndexOk(index, qs, rs) && i < |rs|
    ensures Distinct(Without(qs, i)) && IndexOk(Left(index, rs, i), Without(qs, i), Without(rs, i))
  {
    var rs', left := Without(rs, i), Left(index, rs, i);
    forall h | h in left ensures BoundTo(rs', h) < |rs'| && left[h] == Without(qs, i)[BoundTo(rs', h)] {
      StillBound(index, qs, rs, i, h);
    }
  }

  lemma AppendKeepsIndex(index: map<nat, Quote>, qs: seq<Quote>, rs: seq<Record>, q: Quote, r: Record)
    requires |qs| == |rs| && Distinct(qs) && IndexOk(index, qs, rs) && q !in qs && r.order.None?
    ensures Distinct(qs + [q]) && IndexOk(index, qs + [q], rs + [r])
  {
    var rs' := rs + [r];
    forall h | h in index ensures BoundTo(rs', h) == BoundTo(rs, h) {
      BoundToFinds(rs', BoundTo(rs, h), h);
    }
  }

  /** The quotes whose records pruning keeps. */
  function Kept(qs: seq<Quote>, rs: seq<Record>, nowS: int, graceS: nat): seq<Quote>
    requires |qs| == |rs|
  {
    if qs == [] then []
    else
      var n := |qs| - 1;
      if Keeps(rs[n], nowS, graceS) then Kept(qs[..n], rs[..n], nowS, graceS) + [qs[n]]
      else Kept(qs[..n], rs[..n], nowS, graceS)
  }

  /** Where a kept entry comes from. */
  lemma {:induction false} KeptFrom(qs: seq<Quote>, rs: seq<Record>, nowS: int, graceS: nat, j: nat) returns (k: nat)
    requires |qs| == |rs| && j < |Kept(qs, rs, nowS, graceS)|
    ensures |Kept(qs, rs, nowS, graceS)| == |Pruned(rs, nowS, graceS)|
    ensures j <= k < |qs| && Keeps(rs[k], nowS, graceS)
    ensures Kept(qs, rs, nowS, graceS)[j] == qs[k] && Pruned(rs, nowS, graceS)[j] == rs[k]
  {
    var n := |qs| - 1;
    KeptLength(qs, rs, nowS, graceS);
    KeptLength(qs[..n], rs[..n], nowS, graceS);
    if j < |Kept(qs[..n], rs[..n], nowS, graceS)| {
      k := KeptFrom(qs[..n], rs[..n], nowS, graceS, j);
    } else {
      k := n;
    }
  }

  lemma {:induction false} KeptLength(qs: seq<Quote>, rs: seq<Record>, nowS: int, graceS: nat)
    requires |qs| == |rs|
    ensures |Kept(qs, rs, nowS, graceS)| == |Pruned(rs, nowS, graceS)| <= |rs|
  {
    if qs != [] {
      KeptLength(qs[..|qs| - 1], rs[..|qs| - 1], nowS, graceS);
    }
  }

  /** Where an entry that is kept goes. */
  lemma {:induction false} KeptAt(qs: seq<Quote>, rs: seq<Record>, nowS: int, graceS: nat, k: nat) returns (j: nat)
    requires |qs| == |rs| && k < |qs| && Keeps(rs[k], nowS, graceS)
    ensures |Kept(qs, rs, nowS, graceS)| == |Pruned(rs, nowS, graceS)|
    ensures j < |Kept(qs, rs, nowS, graceS)|
    ensures Kept(qs, rs, nowS, graceS)[j] == qs[k] && Pruned(rs, nowS, graceS)[j] == rs[k]
  {
    var n := |qs| - 1;
    KeptLength(qs, rs, nowS, graceS);
    KeptLength(qs[..n], rs[..n], nowS, graceS);
    if k < n {
      j := KeptAt(qs[..n], rs[..n], nowS, graceS, k);
    } else {
      j := |Kept(qs[..n], rs[..n], nowS, graceS)|;
    }
  }

  lemma {:induction false} KeptDistinct(qs: seq<Quote>, rs: seq<Record>, nowS: int, graceS: nat)
    requires |qs| == |rs| && Distinct(qs)
    ensures Distinct(Kept(qs, rs, nowS, graceS))
  {
    if qs != [] {
      var n := |qs| - 1;
      KeptDistinct(qs[..n], rs[..n], nowS, graceS);
      var init := Kept(qs[..n], rs[..n], nowS, graceS);
      forall j | 0 <= j < |init| ensures init[j] != qs[n] {
        var k := KeptFrom(qs[..n], rs[..n], nowS, graceS, j);
      }
    }
  }

  /** The orders of bound records that pruning drops. */
  function Dropped(rs: seq<Record>, nowS: int, graceS: nat): set<nat> {
    set r | r in rs && r.order.Some? && !Keeps(r, nowS, graceS) :: r.order.value
  }

  lemma PruneKeepsIndex(index: map<nat, Quote>, qs: seq<Quote>, rs: seq<Record>, nowS: int, graceS: nat)
    requires |qs| == |rs| && Distinct(qs) && IndexOk(index, qs, rs)
    ensures |Kept(qs, rs, nowS, graceS)| == |Pruned(rs, nowS, graceS)|
    ensures IndexOk(index - Dropped(rs, nowS, graceS), Kept(qs, rs, nowS, graceS), Pruned(rs, nowS, graceS))
  {
    KeptLength(qs, rs, nowS, graceS);
    PrunedIs(rs, nowS, graceS);
    var left, qs', rs' := index - Dropped(rs, nowS, graceS), Kept(qs, rs, nowS, graceS), Pruned(rs, nowS, graceS);
    forall j | 0 <= j < |rs'| && rs'[j].order.Some?
      ensures rs'[j].order.value in left && left[rs'[j].order.value] == qs'[j]
    {
      var k := KeptFrom(qs, rs, nowS, graceS, j);
    }
    forall h | h in left ensures BoundTo(rs', h) < |rs'| && left[h] == qs'[BoundTo(rs', h)] {
      var k := BoundTo(rs, h);
      assert rs[k] in rs;
      var j := KeptAt(qs, rs, nowS, graceS, k);
      BoundToFinds(rs', j, h);
    }
  }

  /** A list pruning does not shorten it leaves alone. */
  lemma {:induction false} PrunedAll(s: seq<Record>, nowS: int, graceS: nat)
    requires |Pruned(s, nowS, graceS)| == |s|
    ensures Pruned(s, nowS, graceS) == s
  {
    if s != [] {
      var init := s[..|s| - 1];
      PrunedIs(init, nowS, graceS);
      PrunedAll(init, nowS, graceS);
      assert s == init + [s[|s| - 1]];
    }
  }

  lemma {:induction false} FirstUnboundIs(s: seq<Record>, i: nat)
    requires i <= |s| && (i < |s| ==> s[i].order.None?) && forall k | 0 <= k < i :: s[k].order.Some?
    ensures FirstUnbound(s) == i
  {
    if s != [] && i > 0 {
      FirstUnboundIs(s[1..], i - 1);
    }
  }

  /** The last record that carries order `h`, as an index, or the length. */
  function LastBound(s: seq<Record>, h: nat): (i: nat)
    ensures i <= |s| && (i < |s| ==> s[i].order == Some(h))
    ensures forall k | (if i < |s| then i < k else 0 <= k) && k < |s| :: s[k].order != Some(h)
  {
    if s == [] then 0
    else
      var n := |s| - 1;
      if s[n].order == Some(h) then n
      else
        var i := LastBound(s[..n], h);
        if i < n then i else n + 1
  }

  /** The index a load leaves: every order some record carries, to the last quote that does. */
  ghost predicate LoadedIndex(index: map<nat, Quote>, qs: seq<Quote>, rs: seq<Record>)
    requires |qs| == |rs|
  {
    forall h :: (h in index <==> LastBound(rs, h) < |rs|) && (h in index ==> index[h] == qs[LastBound(rs, h)])
  }

  lemma LoadedOneMore(index: map<nat, Quote>, qs: seq<Quote>, rs: seq<Record>, q: Quote, r: Record)
    requires |qs| == |rs| && LoadedIndex(index, qs, rs)
    ensures LoadedIndex(if r.order.Some? then index[r.order.value := q] else index, qs + [q], rs + [r])
  {
    assert (rs + [r])[..|rs|] == rs;
  }

  /** With no order priced twice the last carrier is the only one. */
  lemma LoadedInStep(index: map<nat, Quote>, qs: seq<Quote>, rs: seq<Record>)
    requires |qs| == |rs| && LoadedIndex(index, qs, rs) && OneEach(rs)
    ensures IndexOk(index, qs, rs)
  {
    forall k | 0 <= k < |rs| && rs[k].order.Some?
      ensures rs[k].order.value in index && index[rs[k].order.value] == qs[k]
    {
      assert LastBound(rs, rs[k].order.value) == k;
    }
    forall h | h in index ensures BoundTo(rs, h) < |rs| && index[h] == qs[BoundTo(rs, h)] {
      assert BoundTo(rs, h) == LastBound(rs, h);
    }
  }

  // --------------------------------------------------------------------- the registry

  class QuoteBook {
    var quotes: seq<Quote>
    var byOrder: map<nat, Quote>
    /** The records the quotes hold. */
    ghost var contents: seq<Record>

    ghost predicate Holds()
      reads this, quotes
    {
      |contents| == |quotes| && forall k | 0 <= k < |quotes| :: contents[k] == quotes[k].Data()
    }

    /** Quotes and records agree, no quote is listed twice, and the index holds exactly the bound ones. */
    ghost predicate Linked()
      reads this, quotes
    {
      Holds() && Distinct(quotes) && IndexOk(byOrder, quotes, contents)
    }

    ghost predicate Valid()
      reads this, quotes
    {
      |quotes| <= MAX_QUOTES && Linked()
    }

    /**
     * Load a saved list: the last MAX_QUOTES records of it, each bound order indexed to the
     * last quote that carries it. With no order priced twice the book is in step.
     */
    constructor (state: seq<Record>)
      ensures contents == Restored(state) && Holds() && Distinct(quotes) && fresh(quotes)
      ensures LoadedIndex(byOrder, quotes, contents)
      ensures OneEach(contents) ==> Valid()
    {
      quotes, byOrder, contents := [], map[], [];
      new;
      var last := if |state| <= MAX_QUOTES then state else state[|state| - MAX_QUOTES..];
      for i := 0 to |last|
        invariant |quotes| == i && Holds() && Distinct(quotes) && contents == last[..i]
        invariant LoadedIndex(byOrder, quotes, contents)
        invariant fresh(quotes)
      {
        var q := new Quote(last[i]);
        assert contents + [last[i]] == last[..i + 1];
        LoadedOneMore(byOrder, quotes, contents, q, last[i]);
        if last[i].order.Some? {
          byOrder := byOrder[last[i].order.value := q];
        }
        quotes, contents := quotes + [q], contents + [last[i]];
      }
      if OneEach(contents) {
        LoadedInStep(byOrder, quotes, contents);
      }
    }

    /** Drop unbound quotes past their grace and bound ones whose order has expired. */
    method Prune(nowS: int, graceS: nat)
      requires Valid()
      modifies this
      ensures Valid() && contents == Pruned(old(contents), nowS, graceS)
      ensures forall q | q in quotes :: q in old(quotes)
    {
      var keep := Survivors(nowS, graceS);
      ghost var rs := contents;
      KeptLength(quotes, rs, nowS, graceS);
      if |keep| == |quotes| {
        PrunedAll(rs, nowS, graceS);
        return;
      }
      PruneKeepsIndex(byOrder, quotes, rs, nowS, graceS);
      KeptDistinct(quotes, rs, nowS, graceS);
      forall j | 0 <= j < |keep| ensures Pruned(rs, nowS, graceS)[j] == keep[j].Data() && keep[j] in quotes {
        var k := KeptFrom(quotes, rs, nowS, graceS, j);
      }
      Unindex(nowS, graceS, keep);
      quotes, contents := keep, Pruned(rs, nowS, graceS);
    }

    method Survivors(nowS: int, graceS: nat) returns (keep: seq<Quote>)
      requires Holds()
      ensures keep == Kept(quotes, contents, nowS, graceS)
    {
      keep := [];
      for i := 0 to |quotes|
        invariant keep == Kept(quotes[..i], contents[..i], nowS, graceS)
      {
        assert quotes[..i + 1][..i] == quotes[..i] && contents[..i + 1][..i] == contents[..i];
        if Keeps(quotes[i].Data(), nowS, graceS) {
          keep := keep + [quotes[i]];
        }
      }
      assert quotes[..|quotes|] == quotes && contents[..|quotes|] == contents;
    }

    /** Take the orders of the bound quotes that are not kept out of the index. */
    method Unindex(nowS: int, graceS: nat, keep: seq<Quote>)
      requires Linked() && keep == Kept(quotes, contents, nowS, graceS)
      modifies `byOrder
      ensures byOrder == old(byOrder) - Dropped(contents, nowS, graceS)
    {
      for i := 0 to |quotes|
        invariant byOrder == old(byOrder) - Dropped(contents[..i], nowS, graceS)
      {
        var q := quotes[i];
        IncludedIff(quotes, contents, nowS, graceS, i);
        DroppedMore(old(byOrder), contents, nowS, graceS, i);
        if q.order.Some? && q !in keep {
          byOrder := byOrder - {q.order.value};
        }
      }
      assert contents[..|quotes|] == contents;
    }

    method DropAt(i: nat)
      requires Linked() && i < |quotes|
      modifies this
      ensures Linked() && contents == Without(old(contents), i)
      ensures quotes == Without(old(quotes), i)
    {
      DropKeepsIndex(byOrder, quotes, contents, i);
      var gone := quotes[i];
      if gone.order.Some? {
        byOrder := byOrder - {gone.order.value};
      }
      quotes, contents := Without(quotes, i), Without(contents, i);
    }

    /** Quotes over the limit: the first unbound one goes, else the first one. */
    method Evict()
      requires Linked()
      modifies this
      ensures Valid() && contents == Evicted(old(contents))
      ensures forall q | q in quotes :: q in old(quotes)
    {
      while |quotes| > MAX_QUOTES
        invariant Linked() && Evicted(contents) == Evicted(old(contents))
        invariant forall q | q in quotes :: q in old(quotes)
        decreases |quotes|
      {
        var i := OldestUnbound();
        DropAt(if i < |quotes| then i else 0);
      }
    }

    method OldestUnbound() returns (i: nat)
      requires Holds()
      ensures i == FirstUnbound(contents)
    {
      i := 0;
      while i < |quotes| && quotes[i].order.Some?
        invariant i <= |quotes| && forall k | 0 <= k < i :: contents[k].order.Some?
      {
        i := i + 1;
      }
      FirstUnboundIs(contents, i);
    }

    method Issue(q: Quote, nowS: int, graceS: nat)
      requires Valid() && q !in quotes && q.order.None?
      modifies this
      ensures Valid() && contents == Issued(old(contents), q.Data(), nowS, graceS)
      ensures forall x | x in quotes :: x == q || x in old(quotes)
    {
      Prune(nowS, graceS);
      AppendKeepsIndex(byOrder, quotes, contents, q, q.Data());
      quotes, contents := quotes + [q], contents + [q.Data()];
      Evict();
    }

    /** The quote the order was signed from: its binding, else the newest unbound one it fits, bound to it now. */
    method Match(h: nat, order: Order, nowS: int, graceS: nat) returns (found: Quote?)
      requires Valid()
      modifies this, quotes
      ensures Valid() && quotes == old(quotes) && contents == Matched(old(contents), h, order, nowS, graceS)
      ensures var i := Priced(old(contents), h, order, nowS, graceS);
        if i.Some? then found == quotes[i.value] else found == null
    {
      if h in byOrder {
        return byOrder[h];
      }
      var i := NewestFitting(order, nowS, graceS);
      if i == 0 {
        return null;
      }
      found := quotes[i - 1];
      Bind(i - 1, h, order.expiry);
    }

    /** Bind the quote at `i`, in place, to order `h`. */
    method Bind(i: nat, h: nat, expiry: nat)
      requires Linked() && i < |quotes| && contents[i].order.None? && h !in byOrder
      modifies this, quotes[i]
      ensures Linked() && quotes == old(quotes)
      ensures contents == old(contents)[i := old(contents)[i].(order := Some(h), orderExpiry := expiry)]
    {
      var q := quotes[i];
      byOrder := byOrder[h := q];
      contents := contents[i := contents[i].(order := Some(h), orderExpiry := expiry)];
      q.order, q.orderExpiry := Some(h), expiry;
      assert forall k | 0 <= k < |quotes| && k != i :: quotes[k] != q;
    }

    /** One past the newest quote the order fits, or zero. */
    method NewestFitting(order: Order, nowS: int, graceS: nat) returns (i: nat)
      requires Holds()
      ensures i <= |quotes| && NewestFit(contents, order, nowS, graceS) == if i > 0 then i - 1 else |contents|
    {
      i := |quotes|;
      while i > 0 && !Fits(quotes[i - 1].Data(), order, nowS, graceS)
        invariant i <= |quotes| && forall k | i <= k < |quotes| :: !Fits(contents[k], order, nowS, graceS)
      {
        i := i - 1;
      }
    }

    method ToJson() returns (s: seq<Record>)
      requires Valid()
      ensures s == contents
    {
      s := [];
      for i := 0 to |quotes|
        invariant s == contents[..i]
      {
        s := s + [quotes[i].Data()];
      }
    }
  }

  lemma IncludedIff(qs: seq<Quote>, rs: seq<Record>, nowS: int, graceS: nat, i: nat)
    requires |qs| == |rs| && Distinct(qs) && i < |qs|
    ensures qs[i] in Kept(qs, rs, nowS, graceS) <==> Keeps(rs[i], nowS, graceS)
  {
    var keep := Kept(qs, rs, nowS, graceS);
    if Keeps(rs[i], nowS, graceS) {
      var j := KeptAt(qs, rs, nowS, graceS, i);
    }
    if qs[i] in keep {
      var j :| 0 <= j < |keep| && keep[j] == qs[i];
      var k := KeptFrom(qs, rs, nowS, graceS, j);
    }
  }

  lemma DroppedMore(index: map<nat, Quote>, rs: seq<Record>, nowS: int, graceS: nat, i: nat)
    requires i < |rs|
    ensures var before, after := index - Dropped(rs[..i], nowS, graceS), index - Dropped(rs[..i + 1], nowS, graceS);
      after == if rs[i].order.Some? && !Keeps(rs[i], nowS, graceS) then before - {rs[i].order.value} else before
  {
    assert rs[..i + 1] == rs[..i] + [rs[i]];
    assert Dropped(rs[..i + 1], nowS, graceS) == Dropped(rs[..i], nowS, graceS) +
      if rs[i].order.Some? && !Keeps(rs[i], nowS, graceS) then {rs[i].order.value} else {};
  }
}
