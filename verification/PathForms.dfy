/**
 * Every way an entry of ROUTE_PATHS may be written (packages/beta-filler/src/config.ts): a
 * venue on a hop, on the whole entry, or neither; and lists of entries.
 */
module PathForms {
  import opened Common
  import opened PathText

  /** A hop as written: its fee, and a venue of its own or none. */
  function MarkText(fee: nat, mark: Option<nat>): string {
    if mark.Some? then Digits(fee) + [':'] + Digits(mark.value) else Digits(fee)
  }

  function FormFrom(tokens: seq<string>, fees: seq<nat>, marks: seq<Option<nat>>): string
    requires |tokens| == |fees| + 1 && |marks| == |fees|
    decreases |fees|
  {
    if fees == [] then Lower(tokens[0])
    else
      Lower(tokens[0]) + ['>'] + (MarkText(fees[0], marks[0]) + ['>'] + FormFrom(tokens[1..], fees[1..], marks[1..]))
  }

  /** A whole entry, with a venue for every hop or none. */
  function EntryText(tokens: seq<string>, fees: seq<nat>, marks: seq<Option<nat>>, suffix: Option<nat>): string
    requires |tokens| == |fees| + 1 && |marks| == |fees|
  {
    var form := FormFrom(tokens, fees, marks);
    if suffix.Some? then form + ['@'] + Digits(suffix.value) else form
  }

  ghost predicate Wellformed(tokens: seq<string>, fees: seq<nat>, marks: seq<Option<nat>>) {
    && |tokens| == |fees| + 1 && |marks| == |fees|
    && (forall k | 0 <= k < |tokens| :: IsAddress(tokens[k]))
    && (forall k | 0 <= k < |fees| :: 0 < fees[k] < FEE_LIMIT)
    && (forall k | 0 <= k < |marks| && marks[k].Some? :: marks[k].value <= 255)
  }

  /** The venue each hop ends up with: its own, else the entry's, else 0. */
  function VenuesOf(marks: seq<Option<nat>>, venue: nat): (v: seq<nat>)
    ensures |v| == |marks|
  {
    seq(|marks|, k requires 0 <= k < |marks| => if marks[k].Some? then marks[k].value else venue)
  }

  predicate Marked(marks: seq<Option<nat>>) {
    exists k :: 0 <= k < |marks| && marks[k].Some?
  }

  function FormParts(tokens: seq<string>, fees: seq<nat>, marks: seq<Option<nat>>): (parts: seq<string>)
    requires |tokens| == |fees| + 1 && |marks| == |fees|
    ensures |parts| == 2 * |fees| + 1
    decreases |fees|
  {
    if fees == [] then [Lower(tokens[0])]
    else [Lower(tokens[0]), MarkText(fees[0], marks[0])] + FormParts(tokens[1..], fees[1..], marks[1..])
  }

  // ------------------------------------------------------------------------ one hop

  lemma MarkIs(fee: nat, mark: Option<nat>)
    ensures var h := MarkText(fee, mark);
      && Keyed(h) && '>' !in h && h != [] && Plain(h[0]) && Plain(h[|h| - 1]) && Trim(h) == h
      && Split(h, ':') == if mark.Some? then [Digits(fee), Digits(mark.value)] else [Digits(fee)]
  {
    DigitsAre(fee);
    if mark.Some? {
      DigitsAre(mark.value);
      PairIs(Digits(fee), Digits(mark.value));
    } else {
      SplitWhole(Digits(fee), ':');
    }
  }

  lemma PairIs(f: string, v: string)
    requires AllPlain(f) && AllPlain(v) && f != [] && v != []
    ensures var h := f + [':'] + v;
      && Keyed(h) && '>' !in h && Plain(h[0]) && Plain(h[|h| - 1]) && Trim(h) == h && Split(h, ':') == [f, v]
  {
    var h := f + [':'] + v;
    assert h[0] == f[0] && h[|h| - 1] == v[|v| - 1];
    SplitHead(f, ':', v);
    SplitWhole(v, ':');
  }

  /** A hop is read with its own venue, or the entry's; both at once is an error. */
  lemma TakeMark(fee: nat, mark: Option<nat>, suffixed: bool, venue: nat, a: Parsed)
    requires 0 < fee < FEE_LIMIT && (mark.Some? ==> mark.value <= 255)
    ensures var r := TakeHop(MarkText(fee, mark), suffixed, venue, a);
      if mark.Some? && suffixed then r.Thrown?
      else r == Ok(a.(fees := a.fees + [fee], venues := a.venues + [if mark.Some? then mark.value else venue]))
  {
    MarkIs(fee, mark);
    DigitsAre(fee);
    if mark.Some? {
      DigitsAre(mark.value);
      PlainTrim(Digits(mark.value));
    }
    PlainTrim(Digits(fee));
  }

  lemma PlainTrim(s: string)
    requires AllPlain(s)
    ensures Trim(s) == s
  {
  }

  // ---------------------------------------------------------------------- the parts

  lemma {:induction false} FormSplits(tokens: seq<string>, fees: seq<nat>, marks: seq<Option<nat>>)
    requires Wellformed(tokens, fees, marks)
    ensures Split(FormFrom(tokens, fees, marks), '>') == FormParts(tokens, fees, marks)
    ensures '@' !in FormFrom(tokens, fees, marks) && ';' !in FormFrom(tokens, fees, marks)
    ensures var s := FormFrom(tokens, fees, marks); s != [] && Plain(s[0]) && Plain(s[|s| - 1])
    decreases |fees|
  {
    var t := Lower(tokens[0]);
    LowerAddress(tokens[0]);
    if fees == [] {
      SplitWhole(t, '>');
    } else {
      FormSplits(tokens[1..], fees[1..], marks[1..]);
      var h, rest := MarkText(fees[0], marks[0]), FormFrom(tokens[1..], fees[1..], marks[1..]);
      MarkIs(fees[0], marks[0]);
      SplitTwo(t, h, rest);
      Outer(t, h, rest);
    }
  }

  lemma Outer(t: string, h: string, rest: string)
    requires AllPlain(t) && t != [] && Keyed(h) && rest != [] && Plain(rest[|rest| - 1]) && '@' !in rest && ';' !in rest
    ensures var s := t + ['>'] + (h + ['>'] + rest);
      && '@' !in s && ';' !in s && Plain(s[0]) && Plain(s[|s| - 1])
  {
    var s := t + ['>'] + (h + ['>'] + rest);
    assert s[0] == t[0] && s[|s| - 1] == rest[|rest| - 1];
  }

  lemma TakeFirst(x: string, rest: seq<string>, token: bool, suffixed: bool, venue: nat, a: Parsed)
    requires Trim(x) == x
    ensures TakeParts([x] + rest, token, suffixed, venue, a) ==
      match if token then TakeToken(x, a) else TakeHop(x, suffixed, venue, a)
      case Thrown(why) => Thrown(why)
      case Ok(b) => TakeParts(rest, !token, suffixed, venue, b)
  {
    assert ([x] + rest)[1..] == rest;
  }

  /** A token and its hop, read. */
  lemma TakeTwo(
    token: string, fee: nat, mark: Option<nat>, rest: seq<string>, suffixed: bool, venue: nat, a: Parsed)
    requires IsAddress(token) && 0 < fee < FEE_LIMIT && (mark.Some? ==> mark.value <= 255)
    ensures var r := TakeParts([Lower(token), MarkText(fee, mark)] + rest, true, suffixed, venue, a);
      var v := if mark.Some? then mark.value else venue;
      if mark.Some? && suffixed then r.Thrown?
      else r == TakeParts(
        rest, true, suffixed, venue, Parsed(a.tokens + [Lower(token)], a.fees + [fee], a.venues + [v]))
  {
    var t, h := Lower(token), MarkText(fee, mark);
    var b := Parsed(a.tokens + [t], a.fees, a.venues);
    TakeTokenText(token, a);
    MarkIs(fee, mark);
    TakeMark(fee, mark, suffixed, venue, b);
    TakeFirst(t, [h] + rest, true, suffixed, venue, a);
    TakeFirst(h, rest, false, suffixed, venue, b);
    assert [t] + ([h] + rest) == [t, h] + rest;
  }

  lemma TakeOne(token: string, suffixed: bool, venue: nat, a: Parsed)
    requires IsAddress(token)
    ensures TakeParts([Lower(token)], true, suffixed, venue, a) ==
      Ok(Parsed(a.tokens + [Lower(token)], a.fees, a.venues))
  {
    TakeTokenText(token, a);
    TakeFirst(Lower(token), [], true, suffixed, venue, a);
    assert [Lower(token)] + [] == [Lower(token)];
  }

  lemma {:induction false} FormTaken(
    tokens: seq<string>, fees: seq<nat>, marks: seq<Option<nat>>, suffixed: bool, venue: nat, a: Parsed)
    requires Wellformed(tokens, fees, marks)
    ensures var r := TakeParts(FormParts(tokens, fees, marks), true, suffixed, venue, a);
      if suffixed && Marked(marks) then r.Thrown?
      else r == Ok(Parsed(a.tokens + LowerAll(tokens), a.fees + fees, a.venues + VenuesOf(marks, venue)))
    decreases |fees|
  {
    LowerAllOpens(tokens);
    if fees == [] {
      TakeOne(tokens[0], suffixed, venue, a);
      assert LowerAll(tokens) == [Lower(tokens[0])];
      assert a.fees + fees == a.fees && a.venues + VenuesOf(marks, venue) == a.venues;
    } else {
      var v := if marks[0].Some? then marks[0].value else venue;
      var b := Parsed(a.tokens + [Lower(tokens[0])], a.fees + [fees[0]], a.venues + [v]);
      TakeTwo(tokens[0], fees[0], marks[0], FormParts(tokens[1..], fees[1..], marks[1..]), suffixed, venue, a);
      FormTaken(tokens[1..], fees[1..], marks[1..], suffixed, venue, b);
      MarkedOpens(marks);
      FormJoin(tokens, fees, marks, venue, a);
    }
  }

  lemma FormJoin(tokens: seq<string>, fees: seq<nat>, marks: seq<Option<nat>>, venue: nat, a: Parsed)
    requires tokens != [] && fees != [] && marks != []
    ensures var v := if marks[0].Some? then marks[0].value else venue;
      var b := Parsed(a.tokens + [Lower(tokens[0])], a.fees + [fees[0]], a.venues + [v]);
      Parsed(b.tokens + LowerAll(tokens[1..]), b.fees + fees[1..], b.venues + VenuesOf(marks[1..], venue)) ==
        Parsed(a.tokens + LowerAll(tokens), a.fees + fees, a.venues + VenuesOf(marks, venue))
  {
    var v := if marks[0].Some? then marks[0].value else venue;
    LowerAllOpens(tokens);
    VenuesOpen(marks, venue);
    ParsedJoin(a, Lower(tokens[0]), LowerAll(tokens[1..]), fees[0], fees[1..], v, VenuesOf(marks[1..], venue));
    assert fees == [fees[0]] + fees[1..];
  }

  lemma MarkedOpens(marks: seq<Option<nat>>)
    requires marks != []
    ensures Marked(marks) <==> marks[0].Some? || Marked(marks[1..])
  {
    if Marked(marks) && marks[0].None? {
      var k :| 0 <= k < |marks| && marks[k].Some?;
      assert marks[1..][k - 1].Some?;
    }
    if Marked(marks[1..]) {
      var k :| 0 <= k < |marks[1..]| && marks[1..][k].Some?;
      assert marks[k + 1].Some?;
    }
  }

  lemma VenuesOpen(marks: seq<Option<nat>>, venue: nat)
    requires marks != []
    ensures VenuesOf(marks, venue) ==
      [if marks[0].Some? then marks[0].value else venue] + VenuesOf(marks[1..], venue)
  {
  }

  // ---------------------------------------------------------------------- the entry

  lemma {:induction false} NoAt(s: string)
    requires '@' !in s
    ensures LastIndexOf(s, '@') == 0
  {
    if s != [] {
      assert forall c | c in s[..|s| - 1] :: c in s;
      NoAt(s[..|s| - 1]);
    }
  }

  lemma {:induction false} LastAt(s: string, t: string)
    requires '@' !in t
    ensures LastIndexOf(s + ['@'] + t, '@') == |s| + 1
  {
    var whole := s + ['@'] + t;
    if t == [] {
      assert whole == s + ['@'];
    } else {
      var before := t[..|t| - 1];
      assert whole[..|whole| - 1] == s + ['@'] + before;
      assert forall c | c in before :: c in t;
      LastAt(s, before);
      assert whole[|whole| - 1] == t[|t| - 1] && t[|t| - 1] in t;
    }
  }

  /** A number as a venue. */
  lemma VenueParses(v: nat)
    ensures ParseVenue(Digits(v)) == if v <= 255 then Ok(v) else Thrown("bad venue")
  {
    DigitsAre(v);
    PlainTrim(Digits(v));
  }

  /**
   * However a path of legal hops is written, it reads as its tokens in lower case, its fees,
   * and for each hop its own venue, else the entry's, else 0 - unless it gives both, or the
   * entry's is none, or it has more than MAX_POOL_HOPS hops, or none: those are refused.
   */
  lemma FormsParse(tokens: seq<string>, fees: seq<nat>, marks: seq<Option<nat>>, suffix: Option<nat>)
    requires Wellformed(tokens, fees, marks)
    ensures var venue := if suffix.Some? then suffix.value else 0;
      var r := ParseEntry(EntryText(tokens, fees, marks, suffix));
      && (r.Thrown? <==>
            || (suffix.Some? && (suffix.value > 255 || Marked(marks)))
            || fees == [] || |fees| > 4)
      && (r.Ok? ==> r.value == Stored(Parsed(LowerAll(tokens), fees, VenuesOf(marks, venue))))
      && (r.Ok? ==> PathVenues(r.value) == VenuesOf(marks, venue))
  {
    var form, entry := FormFrom(tokens, fees, marks), EntryText(tokens, fees, marks, suffix);
    FormSplits(tokens, fees, marks);
    if suffix.Some? {
      DigitsAre(suffix.value);
      LastAt(form, Digits(suffix.value));
      assert entry[..|form|] == form && entry[|form| + 1..] == Digits(suffix.value);
      VenueParses(suffix.value);
      if suffix.value <= 255 {
        BodyReads(tokens, fees, marks, true, suffix.value);
        EntryReads(entry, form, |form| + 1, suffix.value, FormParts(tokens, fees, marks));
      }
    } else {
      NoAt(form);
      BodyReads(tokens, fees, marks, false, 0);
      EntryReads(entry, form, 0, 0, FormParts(tokens, fees, marks));
    }
  }

  lemma EntryReads(entry: string, form: string, at: nat, venue: nat, parts: seq<string>)
    requires LastIndexOf(entry, '@') == at <= |entry| && Split(form, '>') == parts
    requires form == (if at == 0 then entry else entry[..at - 1])
    requires Ok(venue) == if at == 0 then Ok(0) else ParseVenue(entry[at..])
    ensures ParseEntry(entry) == ParseParts(parts, at != 0, venue)
  {
  }

  /** Of `n` hops only the number matters before they are read. */
  lemma BodyIs(parts: seq<string>, n: nat, suffixed: bool, venue: nat)
    requires |parts| == 2 * n + 1
    ensures n == 0 || n > 4 ==> ParseParts(parts, suffixed, venue).Thrown?
    ensures 1 <= n <= 4 ==>
      var taken := TakeParts(parts, true, suffixed, venue, Parsed([], [], []));
      if taken.Thrown? then ParseParts(parts, suffixed, venue).Thrown?
      else ParseParts(parts, suffixed, venue) == Ok(Stored(taken.value))
  {
  }

  lemma BodyReads(tokens: seq<string>, fees: seq<nat>, marks: seq<Option<nat>>, suffixed: bool, venue: nat)
    requires Wellformed(tokens, fees, marks)
    ensures var r := ParseParts(FormParts(tokens, fees, marks), suffixed, venue);
      && (r.Thrown? <==> (suffixed && Marked(marks)) || fees == [] || |fees| > 4)
      && (r.Ok? ==> r.value == Stored(Parsed(LowerAll(tokens), fees, VenuesOf(marks, venue))))
      && (r.Ok? ==> PathVenues(r.value) == VenuesOf(marks, venue))
  {
    BodyIs(FormParts(tokens, fees, marks), |fees|, suffixed, venue);
    FormTaken(tokens, fees, marks, suffixed, venue, Parsed([], [], []));
    EmptyJoin(LowerAll(tokens), fees, VenuesOf(marks, venue));
    StoredVenues(Parsed(LowerAll(tokens), fees, VenuesOf(marks, venue)));
  }

  lemma EmptyJoin(t: seq<string>, f: seq<nat>, v: seq<nat>)
    ensures Parsed([] + t, [] + f, [] + v) == Parsed(t, f, v)
  {
    assert [] + t == t && [] + f == f && [] + v == v;
  }

  // ----------------------------------------------------------------------- the list

  /** Entries separated by semicolons. */
  function Joined(entries: seq<string>): string {
    if entries == [] then []
    else if |entries| == 1 then entries[0]
    else entries[0] + [';'] + Joined(entries[1..])
  }

  /** An entry without a semicolon and without white space around it, not empty. */
  predicate Bare(s: string) {
    s != [] && ';' !in s && !IsSpace(s[0]) && !IsSpace(s[|s| - 1])
  }

  lemma {:induction false} JoinedSplits(entries: seq<string>)
    requires entries != [] && forall k | 0 <= k < |entries| :: Bare(entries[k])
    ensures Split(Joined(entries), ';') == entries
  {
    if |entries| == 1 {
      SplitWhole(entries[0], ';');
    } else {
      JoinedSplits(entries[1..]);
      SplitHead(entries[0], ';', Joined(entries[1..]));
      assert entries == [entries[0]] + entries[1..];
    }
  }

  lemma {:induction false} AllParse(entries: seq<string>)
    requires forall k | 0 <= k < |entries| :: Bare(entries[k])
    ensures ParseEntries(entries).Ok? <==> forall k | 0 <= k < |entries| :: ParseEntry(entries[k]).Ok?
    ensures ParseEntries(entries).Ok? ==>
      && |ParseEntries(entries).value| == |entries|
      && forall k | 0 <= k < |entries| :: ParseEntry(entries[k]) == Ok(ParseEntries(entries).value[k])
  {
    if entries != [] {
      assert Trim(entries[0]) == entries[0];
      AllParse(entries[1..]);
      forall k | 0 < k < |entries| ensures entries[k] == entries[1..][k - 1] {
      }
      if ParseEntry(entries[0]).Ok? && ParseEntries(entries[1..]).Ok? {
        forall k | 0 <= k < |entries| ensures ParseEntry(entries[k]) == Ok(ParseEntries(entries).value[k]) {
        }
      } else if ParseEntry(entries[0]).Ok? {
        var k :| 0 <= k < |entries[1..]| && !ParseEntry(entries[1..][k]).Ok?;
        assert !ParseEntry(entries[k + 1]).Ok?;
      }
    }
  }

  /** A list reads as its entries do, each once and in order, and is refused when one of them is. */
  lemma ListParses(entries: seq<string>)
    requires entries != [] && forall k | 0 <= k < |entries| :: Bare(entries[k])
    ensures var r := ParsePaths(Joined(entries));
      && (r.Ok? <==> forall k | 0 <= k < |entries| :: ParseEntry(entries[k]).Ok?)
      && (r.Ok? ==> |r.value| == |entries| && forall k | 0 <= k < |entries| :: ParseEntry(entries[k]) == Ok(r.value[k]))
  {
    JoinedSplits(entries);
    AllParse(entries);
  }
}
