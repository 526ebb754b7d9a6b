/**
 * The text of a route path: printed by pathKey (packages/beta-filler/src/poolGraph.ts),
 * parsed by parsePaths (packages/beta-filler/src/config.ts). Addresses are kept lower-case
 * where the source re-checksums them.
 */
module PathText {
  import opened Common

  const MAX_POOL_HOPS := 4
  const FEE_LIMIT: nat := 0x100_0000

  /** A path as it is stored: one venue for every hop, or one each. */
  datatype RoutePath = RoutePath(tokens: seq<string>, fees: seq<nat>, venue: Option<nat>, venues: Option<seq<nat>>)

  function PathVenues(p: RoutePath): (v: seq<nat>)
    ensures |v| == |p.fees|
  {
    if p.venues.Some? && |p.venues.value| == |p.fees| then p.venues.value
    else seq(|p.fees|, i => if p.venue.Some? then p.venue.value else 0)
  }

  // -------------------------------------------------------------------------- strings

  function LowerChar(c: char): char {
    if 'A' <= c <= 'Z' then (c as int + 32) as char else c
  }

  function Lower(s: string): string {
    seq(|s|, i requires 0 <= i < |s| => LowerChar(s[i]))
  }

  predicate IsSpace(c: char) {
    c == ' ' || '\t' <= c <= '\r'
  }

  function TrimEnd(s: string): string {
    if s != [] && IsSpace(s[|s| - 1]) then TrimEnd(s[..|s| - 1]) else s
  }

  function Trim(s: string): string {
    if s != [] && IsSpace(s[0]) then Trim(s[1..]) else TrimEnd(s)
  }

  /** The first index of a character, or the length. */
  function IndexOf(s: string, c: char): (i: nat)
    ensures i <= |s| && (i < |s| ==> s[i] == c)
  {
    if s == [] || s[0] == c then 0 else 1 + IndexOf(s[1..], c)
  }

  /** One past the last index of a character, or zero. */
  function LastIndexOf(s: string, c: char): (i: nat)
    ensures i <= |s| && (i > 0 ==> s[i - 1] == c)
  {
    if s == [] || s[|s| - 1] == c then |s| else LastIndexOf(s[..|s| - 1], c)
  }

  function Split(s: string, sep: char): (parts: seq<string>)
    ensures parts != []
    decreases |s|
  {
    var i := IndexOf(s, sep);
    if i == |s| then [s] else [s[..i]] + Split(s[i + 1..], sep)
  }

  predicate IsDigit(c: char) {
    '0' <= c <= '9'
  }

  predicate IsHex(c: char) {
    IsDigit(c) || 'a' <= c <= 'f' || 'A' <= c <= 'F'
  }

  /** `0x` and forty hexadecimal digits, in either case. */
  predicate IsAddress(s: string) {
    |s| == 42 && s[0] == '0' && s[1] == 'x' && forall k | 2 <= k < 42 :: IsHex(s[k])
  }

  function Digit(d: nat): char
    requires d < 10
  {
    (d + '0' as int) as char
  }

  /** A number in decimal. */
  function Digits(n: nat): string {
    if n < 10 then [Digit(n)] else Digits(n / 10) + [Digit(n % 10)]
  }

  predicate AllDigits(s: string) {
    s != [] && forall k | 0 <= k < |s| :: IsDigit(s[k])
  }

  function Value(s: string): nat
    requires forall k | 0 <= k < |s| :: IsDigit(s[k])
  {
    if s == [] then 0
    else
      assert IsDigit(s[|s| - 1]);
      Value(s[..|s| - 1]) * 10 + (s[|s| - 1] as int - '0' as int)
  }

  // ------------------------------------------------------------------------- printing

  /** A path's identity: lower-case tokens, fee and venue per hop. */
  function KeyFrom(tokens: seq<string>, fees: seq<nat>, venues: seq<nat>): string
    requires |tokens| == |fees| + 1 && |venues| == |fees|
    decreases |fees|
  {
    if fees == [] then Lower(tokens[0])
    else
      Lower(tokens[0]) + ['>'] + (HopText(fees[0], venues[0]) + ['>'] + KeyFrom(tokens[1..], fees[1..], venues[1..]))
  }

  function HopText(fee: nat, venue: nat): string {
    Digits(fee) + ":" + Digits(venue)
  }

  function PathKey(p: RoutePath): string
    requires |p.tokens| == |p.fees| + 1
  {
    KeyFrom(p.tokens, p.fees, PathVenues(p))
  }

  // -------------------------------------------------------------------------- parsing

  /** A Uniswap v3 fee tier: an integer in (0, 2^24). */
  function ParseFee(raw: string): Result<nat> {
    var v := Trim(raw);
    if AllDigits(v) && 0 < Value(v) < FEE_LIMIT then Ok(Value(v)) else Thrown("bad fee")
  }

  /** A venue index: an integer 0..255. */
  function ParseVenue(raw: string): Result<nat> {
    var v := Trim(raw);
    if AllDigits(v) && Value(v) <= 255 then Ok(Value(v)) else Thrown("bad venue")
  }

  /** What the parts read so far come to. */
  datatype Parsed = Parsed(tokens: seq<string>, fees: seq<nat>, venues: seq<nat>)

  /** A token part. */
  function TakeToken(x: string, a: Parsed): Result<Parsed> {
    if IsAddress(x) then Ok(a.(tokens := a.tokens + [Lower(x)])) else Thrown("not an address")
  }

  /** A fee part, with its own venue or the entry's. */
  function TakeHop(x: string, suffixed: bool, venue: nat, a: Parsed): Result<Parsed> {
    var fv := Split(x, ':');
    if |fv| > 1 && suffixed then Thrown("mixes a per-hop venue with an @venue suffix")
    else
      match ParseFee(fv[0])
      case Thrown(why) => Thrown(why)
      case Ok(fee) =>
        match if |fv| > 1 then ParseVenue(fv[1]) else Ok(venue)
        case Thrown(why) => Thrown(why)
        case Ok(v) => Ok(a.(fees := a.fees + [fee], venues := a.venues + [v]))
  }

  /** The parts from the first one on, tokens and hops in turn. */
  function TakeParts(parts: seq<string>, token: bool, suffixed: bool, venue: nat, a: Parsed): Result<Parsed>
    decreases |parts|
  {
    if parts == [] then Ok(a)
    else
      match if token then TakeToken(Trim(parts[0]), a) else TakeHop(Trim(parts[0]), suffixed, venue, a)
      case Thrown(why) => Thrown(why)
      case Ok(b) => TakeParts(parts[1..], !token, suffixed, venue, b)
  }

  predicate AllSame(v: seq<nat>) {
    forall k | 0 <= k < |v| :: v[k] == v[0]
  }

  /** The stored form: one venue when every hop has the same. */
  function Stored(a: Parsed): RoutePath {
    if a.venues != [] && AllSame(a.venues) then RoutePath(a.tokens, a.fees, Some(a.venues[0]), None)
    else RoutePath(a.tokens, a.fees, None, Some(a.venues))
  }

  /** An entry's parts, its venue suffix off: tokens and hops in turn, one hop at least. */
  function ParseParts(parts: seq<string>, suffixed: bool, venue: nat): Result<RoutePath> {
    if |parts| < 3 || |parts| % 2 == 0 then Thrown("bad path")
    else if (|parts| - 1) / 2 > MAX_POOL_HOPS then Thrown("too many hops")
    else
      match TakeParts(parts, true, suffixed, venue, Parsed([], [], []))
      case Thrown(why) => Thrown(why)
      case Ok(a) => Ok(Stored(a))
  }

  function ParseEntry(entry: string): Result<RoutePath> {
    var at := LastIndexOf(entry, '@');
    var p := if at == 0 then entry else entry[..at - 1];
    match if at == 0 then Ok(0) else ParseVenue(entry[at..])
    case Thrown(why) => Thrown(why)
    case Ok(venue) => ParseParts(Split(p, '>'), at != 0, venue)
  }

  /** The entries of a list, blank ones left out, the first bad one thrown. */
  function ParseEntries(entries: seq<string>): Result<seq<RoutePath>> {
    if entries == [] then Ok([])
    else
      var e := Trim(entries[0]);
      if e == [] then ParseEntries(entries[1..])
      else
        match ParseEntry(e)
        case Thrown(why) => Thrown(why)
        case Ok(p) =>
          match ParseEntries(entries[1..])
          case Thrown(why) => Thrown(why)
          case Ok(rest) => Ok([p] + rest)
  }

  function ParsePaths(raw: string): Result<seq<RoutePath>> {
    ParseEntries(Split(raw, ';'))
  }

  /** The parts of an entry pushed one by one onto the lists. */
  method ReadParts(parts: seq<string>, suffixed: bool, venue: nat) returns (r: Result<Parsed>)
    ensures r == TakeParts(parts, true, suffixed, venue, Parsed([], [], []))
  {
    var a := Parsed([], [], []);
    for i := 0 to |parts|
      invariant TakeParts(parts[i..], i % 2 == 0, suffixed, venue, a) ==
        TakeParts(parts, true, suffixed, venue, Parsed([], [], []))
    {
      var b := ReadPart(Trim(parts[i]), i % 2 == 0, suffixed, venue, a);
      OnePart(parts, i, i % 2 == 0, suffixed, venue, a);
      if b.Thrown? {
        return Thrown(b.why);
      }
      a := b.value;
      assert (i + 1) % 2 == 0 <==> i % 2 != 0;
    }
    r := Ok(a);
  }

  /** One part, pushed onto the lists. */
  method ReadPart(x: string, token: bool, suffixed: bool, venue: nat, a: Parsed) returns (b: Result<Parsed>)
    ensures b == if token then TakeToken(x, a) else TakeHop(x, suffixed, venue, a)
  {
    if token {
      if !IsAddress(x) {
        return Thrown("not an address");
      }
      b := Ok(a.(tokens := a.tokens + [Lower(x)]));
    } else {
      b := TakeHop(x, suffixed, venue, a);
    }
  }

  lemma OnePart(parts: seq<string>, i: nat, token: bool, suffixed: bool, venue: nat, a: Parsed)
    requires i < |parts|
    ensures TakeParts(parts[i..], token, suffixed, venue, a) ==
      match if token then TakeToken(Trim(parts[i]), a) else TakeHop(Trim(parts[i]), suffixed, venue, a)
      case Thrown(why) => Thrown(why)
      case Ok(b) => TakeParts(parts[i + 1..], !token, suffixed, venue, b)
  {
    assert parts[i..][1..] == parts[i + 1..];
  }

  // ------------------------------------------------------------------- the round trip

  /** A character of an address or a number: no separator and no white space. */
  predicate Plain(c: char) {
    '0' <= c <= '9' || 'a' <= c <= 'z' || 'A' <= c <= 'Z'
  }

  /** Nothing in the text but plain characters and the separators between hops. */
  predicate Keyed(s: string) {
    forall k | 0 <= k < |s| :: Plain(s[k]) || s[k] == '>' || s[k] == ':'
  }

  predicate AllPlain(s: string) {
    forall k | 0 <= k < |s| :: Plain(s[k])
  }

  lemma {:induction false} DigitsAre(n: nat)
    ensures AllDigits(Digits(n)) && AllPlain(Digits(n)) && Value(Digits(n)) == n
  {
    if n >= 10 {
      DigitsAre(n / 10);
      var s := Digits(n);
      assert s[..|s| - 1] == Digits(n / 10);
    } else {
      assert Digits(n)[..0] == [];
    }
  }

  lemma {:induction false} IndexOfIn(a: string, sep: char, b: string)
    requires sep !in a
    ensures IndexOf(a + [sep] + b, sep) == |a|
  {
    var s := a + [sep] + b;
    if a != [] {
      assert s[0] == a[0] && a[0] in a;
      assert s[1..] == a[1..] + [sep] + b;
      assert forall c | c in a[1..] :: c in a;
      IndexOfIn(a[1..], sep, b);
    }
  }

  lemma SplitHead(a: string, sep: char, b: string)
    requires sep !in a
    ensures Split(a + [sep] + b, sep) == [a] + Split(b, sep)
  {
    var s := a + [sep] + b;
    IndexOfIn(a, sep, b);
    assert s[..|a|] == a && s[|a| + 1..] == b;
  }

  lemma SplitWhole(a: string, sep: char)
    requires sep !in a
    ensures Split(a, sep) == [a]
  {
  }

  lemma LowerAddress(t: string)
    requires IsAddress(t)
    ensures IsAddress(Lower(t)) && AllPlain(Lower(t)) && Lower(Lower(t)) == Lower(t)
  {
    var l := Lower(t);
    assert forall k | 2 <= k < 42 :: IsHex(t[k]) ==> IsHex(LowerChar(t[k]));
    assert forall k | 0 <= k < 42 :: Plain(l[k]);
    assert forall k | 0 <= k < 42 :: LowerChar(l[k]) == l[k];
  }

  /** A path both sides of the text agree on: legal hops, addresses for tokens. */
  ghost predicate Legal(tokens: seq<string>, fees: seq<nat>, venues: seq<nat>) {
    && |tokens| == |fees| + 1 && |venues| == |fees|
    && (forall k | 0 <= k < |tokens| :: IsAddress(tokens[k]))
    && (forall k | 0 <= k < |fees| :: 0 < fees[k] < FEE_LIMIT)
    && (forall k | 0 <= k < |venues| :: venues[k] <= 255)
  }

  function LowerAll(tokens: seq<string>): seq<string> {
    seq(|tokens|, i requires 0 <= i < |tokens| => Lower(tokens[i]))
  }

  /** The parts of a key: tokens and hops in turn. */
  function Parts(tokens: seq<string>, fees: seq<nat>, venues: seq<nat>): seq<string>
    requires |tokens| == |fees| + 1 && |venues| == |fees|
    decreases |fees|
  {
    if fees == [] then [Lower(tokens[0])]
    else [Lower(tokens[0]), HopText(fees[0], venues[0])] + Parts(tokens[1..], fees[1..], venues[1..])
  }

  lemma HopTextIs(fee: nat, venue: nat)
    ensures var h := HopText(fee, venue);
      && Keyed(h) && '>' !in h && |h| > 0 && Plain(h[0]) && Plain(h[|h| - 1])
      && Split(h, ':') == [Digits(fee), Digits(venue)]
  {
    var f, v := Digits(fee), Digits(venue);
    DigitsAre(fee);
    DigitsAre(venue);
    SplitHead(f, ':', v);
    SplitWhole(v, ':');
    assert f + ":" + v == f + [':'] + v;
    assert HopText(fee, venue)[0] == f[0];
  }

  lemma TakeHopText(fee: nat, venue: nat, a: Parsed)
    requires 0 < fee < FEE_LIMIT && venue <= 255
    ensures Trim(HopText(fee, venue)) == HopText(fee, venue)
    ensures TakeHop(HopText(fee, venue), false, 0, a) == Ok(a.(fees := a.fees + [fee], venues := a.venues + [venue]))
  {
    HopTextIs(fee, venue);
    DigitsAre(fee);
    DigitsAre(venue);
  }

  lemma TakeTokenText(t: string, a: Parsed)
    requires IsAddress(t)
    ensures Trim(Lower(t)) == Lower(t)
    ensures TakeToken(Lower(t), a) == Ok(a.(tokens := a.tokens + [Lower(t)]))
  {
    LowerAddress(t);
  }

  /** The key of a path with a hop, as its first token, its first hop and the rest. */
  lemma KeyOpens(tokens: seq<string>, fees: seq<nat>, venues: seq<nat>, t: string, h: string, rest: string)
    requires |tokens| == |fees| + 1 && |venues| == |fees| && fees != []
    requires t == Lower(tokens[0]) && h == HopText(fees[0], venues[0])
    requires rest == KeyFrom(tokens[1..], fees[1..], venues[1..])
    ensures KeyFrom(tokens, fees, venues) == t + ['>'] + (h + ['>'] + rest)
  {
  }

  lemma {:induction false} KeyIsKeyed(tokens: seq<string>, fees: seq<nat>, venues: seq<nat>)
    requires Legal(tokens, fees, venues)
    ensures var key := KeyFrom(tokens, fees, venues);
      Keyed(key) && key != [] && Plain(key[0]) && Plain(key[|key| - 1])
    decreases |fees|
  {
    LowerAddress(tokens[0]);
    if fees != [] {
      KeyIsKeyed(tokens[1..], fees[1..], venues[1..]);
      var t, h, rest := Lower(tokens[0]), HopText(fees[0], venues[0]), KeyFrom(tokens[1..], fees[1..], venues[1..]);
      HopTextIs(fees[0], venues[0]);
      KeyOpens(tokens, fees, venues, t, h, rest);
    }
  }

  lemma {:induction false} KeySplits(tokens: seq<string>, fees: seq<nat>, venues: seq<nat>)
    requires Legal(tokens, fees, venues)
    ensures Split(KeyFrom(tokens, fees, venues), '>') == Parts(tokens, fees, venues)
    decreases |fees|
  {
    var t := Lower(tokens[0]);
    LowerAddress(tokens[0]);
    if fees == [] {
      SplitWhole(t, '>');
    } else {
      KeySplits(tokens[1..], fees[1..], venues[1..]);
      var h, rest := HopText(fees[0], venues[0]), KeyFrom(tokens[1..], fees[1..], venues[1..]);
      HopTextIs(fees[0], venues[0]);
      KeyOpens(tokens, fees, venues, t, h, rest);
      SplitTwo(t, h, rest);
      PartsOpen(tokens, fees, venues);
    }
  }

  lemma SplitTwo(t: string, h: string, rest: string)
    requires '>' !in t && '>' !in h
    ensures Split(t + ['>'] + (h + ['>'] + rest), '>') == [t, h] + Split(rest, '>')
  {
    SplitHead(h, '>', rest);
    SplitHead(t, '>', h + ['>'] + rest);
  }

  lemma PartsOpen(tokens: seq<string>, fees: seq<nat>, venues: seq<nat>)
    requires Legal(tokens, fees, venues) && fees != []
    ensures Parts(tokens, fees, venues) ==
      [Lower(tokens[0]), HopText(fees[0], venues[0])] + Parts(tokens[1..], fees[1..], venues[1..])
  {
  }

  lemma LowerAllOpens(tokens: seq<string>)
    requires tokens != []
    ensures LowerAll(tokens) == [Lower(tokens[0])] + LowerAll(tokens[1..])
  {
  }

  lemma TakePartsStep(x: string, rest: seq<string>, token: bool, a: Parsed, b: Parsed)
    requires Trim(x) == x
    requires (if token then TakeToken(x, a) else TakeHop(x, false, 0, a)) == Ok(b)
    ensures TakeParts([x] + rest, token, false, 0, a) == TakeParts(rest, !token, false, 0, b)
  {
    assert ([x] + rest)[1..] == rest;
  }

  /** A token and its hop, read. */
  lemma TakePair(token: string, fee: nat, venue: nat, rest: seq<string>, a: Parsed)
    requires IsAddress(token) && 0 < fee < FEE_LIMIT && venue <= 255
    ensures TakeParts([Lower(token), HopText(fee, venue)] + rest, true, false, 0, a) ==
      TakeParts(rest, true, false, 0, Parsed(a.tokens + [Lower(token)], a.fees + [fee], a.venues + [venue]))
  {
    var t, h := Lower(token), HopText(fee, venue);
    var b := Parsed(a.tokens + [t], a.fees, a.venues);
    TakeTokenText(token, a);
    TakeHopText(fee, venue, b);
    TakePartsStep(t, [h] + rest, true, a, b);
    TakePartsStep(h, rest, false, b, Parsed(b.tokens, b.fees + [fee], b.venues + [venue]));
    assert [t] + ([h] + rest) == [t, h] + rest;
  }

  /** What is read after a head and a tail of lists is what is read after the lists. */
  lemma ParsedJoin(a: Parsed, t: string, ts: seq<string>, f: nat, fs: seq<nat>, v: nat, vs: seq<nat>)
    ensures Parsed((a.tokens + [t]) + ts, (a.fees + [f]) + fs, (a.venues + [v]) + vs) ==
      Parsed(a.tokens + ([t] + ts), a.fees + ([f] + fs), a.venues + ([v] + vs))
  {
    assert (a.tokens + [t]) + ts == a.tokens + ([t] + ts);
    assert (a.fees + [f]) + fs == a.fees + ([f] + fs);
    assert (a.venues + [v]) + vs == a.venues + ([v] + vs);
  }

  lemma LastPartParses(token: string, a: Parsed)
    requires IsAddress(token)
    ensures TakeParts([Lower(token)], true, false, 0, a) == Ok(Parsed(a.tokens + [Lower(token)], a.fees, a.venues))
  {
    var b := Parsed(a.tokens + [Lower(token)], a.fees, a.venues);
    TakeTokenText(token, a);
    TakePartsStep(Lower(token), [], true, a, b);
    assert [Lower(token)] + [] == [Lower(token)];
  }

  lemma {:induction false} PartsParse(tokens: seq<string>, fees: seq<nat>, venues: seq<nat>, a: Parsed)
    requires Legal(tokens, fees, venues)
    ensures TakeParts(Parts(tokens, fees, venues), true, false, 0, a) ==
      Ok(Parsed(a.tokens + LowerAll(tokens), a.fees + fees, a.venues + venues))
    decreases |fees|
  {
    LowerAllOpens(tokens);
    if fees == [] {
      LastPartParses(tokens[0], a);
      assert LowerAll(tokens) == [Lower(tokens[0])];
      assert a.fees + fees == a.fees && a.venues + venues == a.venues;
    } else {
      TakePair(tokens[0], fees[0], venues[0], Parts(tokens[1..], fees[1..], venues[1..]), a);
      var c := Parsed(a.tokens + [Lower(tokens[0])], a.fees + [fees[0]], a.venues + [venues[0]]);
      PartsParse(tokens[1..], fees[1..], venues[1..], c);
      ParsedJoin(a, Lower(tokens[0]), LowerAll(tokens[1..]), fees[0], fees[1..], venues[0], venues[1..]);
      assert fees == [fees[0]] + fees[1..] && venues == [venues[0]] + venues[1..];
    }
  }

  lemma {:induction false} PartsLength(tokens: seq<string>, fees: seq<nat>, venues: seq<nat>)
    requires |tokens| == |fees| + 1 && |venues| == |fees|
    ensures |Parts(tokens, fees, venues)| == 2 * |fees| + 1
    decreases |fees|
  {
    if fees != [] {
      PartsLength(tokens[1..], fees[1..], venues[1..]);
    }
  }

  lemma StoredVenues(a: Parsed)
    requires |a.venues| == |a.fees|
    ensures PathVenues(Stored(a)) == a.venues
  {
    assert PathVenues(Stored(a)) == a.venues;
  }

  lemma EntryIs(entry: string, parts: seq<string>, hops: nat, a: Parsed)
    requires LastIndexOf(entry, '@') == 0 && Split(entry, '>') == parts && |parts| == 2 * hops + 1
    requires 1 <= hops <= MAX_POOL_HOPS && TakeParts(parts, true, false, 0, Parsed([], [], [])) == Ok(a)
    ensures ParseEntry(entry) == Ok(Stored(a))
  {
  }

  /** A key reads as the path it was printed from. */
  lemma EntryParses(tokens: seq<string>, fees: seq<nat>, venues: seq<nat>)
    requires Legal(tokens, fees, venues) && 1 <= |fees| <= MAX_POOL_HOPS
    ensures ParseEntry(KeyFrom(tokens, fees, venues)) == Ok(Stored(Parsed(LowerAll(tokens), fees, venues)))
  {
    var key := KeyFrom(tokens, fees, venues);
    KeyIsKeyed(tokens, fees, venues);
    KeySplits(tokens, fees, venues);
    PartsLength(tokens, fees, venues);
    PartsParse(tokens, fees, venues, Parsed([], [], []));
    assert [] + LowerAll(tokens) == LowerAll(tokens) && [] + fees == fees && [] + venues == venues;
    EntryIs(key, Parts(tokens, fees, venues), |fees|, Parsed(LowerAll(tokens), fees, venues));
  }

  /**
   * The round trip: for 1..MAX_POOL_HOPS hops with addresses for tokens and legal fees and
   * venues, parsing a printed path gives that one path back, its tokens lower-case, its fees
   * and its venue of every hop the same.
   */
  lemma ParsesBack(p: RoutePath)
    requires Legal(p.tokens, p.fees, PathVenues(p)) && 1 <= |p.fees| <= MAX_POOL_HOPS
    ensures var r := ParsePaths(PathKey(p));
      && r.Ok? && |r.value| == 1
      && r.value[0].tokens == LowerAll(p.tokens) && r.value[0].fees == p.fees && PathVenues(r.value[0]) == PathVenues(p)
  {
    KeyIsKeyed(p.tokens, p.fees, PathVenues(p));
    EntryParses(p.tokens, p.fees, PathVenues(p));
    StoredVenues(Parsed(LowerAll(p.tokens), p.fees, PathVenues(p)));
    OneEntry(PathKey(p), Stored(Parsed(LowerAll(p.tokens), p.fees, PathVenues(p))));
  }

  /** Hence a key identifies its path: tokens up to case, fees and venues. */
  lemma KeyIsInjective(p: RoutePath, q: RoutePath)
    requires Legal(p.tokens, p.fees, PathVenues(p)) && 1 <= |p.fees| <= MAX_POOL_HOPS
    requires Legal(q.tokens, q.fees, PathVenues(q)) && 1 <= |q.fees| <= MAX_POOL_HOPS
    ensures PathKey(p) == PathKey(q) <==>
      LowerAll(p.tokens) == LowerAll(q.tokens) && p.fees == q.fees && PathVenues(p) == PathVenues(q)
  {
    if PathKey(p) == PathKey(q) {
      ParsesBack(p);
      ParsesBack(q);
    }
    if LowerAll(p.tokens) == LowerAll(q.tokens) && p.fees == q.fees && PathVenues(p) == PathVenues(q) {
      SameKey(p.tokens, q.tokens, p.fees, PathVenues(p));
    }
  }

  lemma {:induction false} SameKey(a: seq<string>, b: seq<string>, fees: seq<nat>, venues: seq<nat>)
    requires |a| == |fees| + 1 && |b| == |a| && |venues| == |fees| && LowerAll(a) == LowerAll(b)
    ensures KeyFrom(a, fees, venues) == KeyFrom(b, fees, venues)
    decreases |fees|
  {
    assert LowerAll(a)[0] == Lower(a[0]) && LowerAll(b)[0] == Lower(b[0]);
    if fees != [] {
      LowerAllOpens(a);
      LowerAllOpens(b);
      assert LowerAll(a)[1..] == LowerAll(a[1..]) && LowerAll(b)[1..] == LowerAll(b[1..]);
      SameKey(a[1..], b[1..], fees[1..], venues[1..]);
    }
  }

  /** What has been read is legal so far, with a token more than hops unless a token comes next. */
  ghost predicate LegalSoFar(a: Parsed, token: bool) {
    && |a.venues| == |a.fees| && |a.tokens| == |a.fees| + (if token then 0 else 1)
    && (forall k | 0 <= k < |a.tokens| :: IsAddress(a.tokens[k]) && Lower(a.tokens[k]) == a.tokens[k])
    && (forall k | 0 <= k < |a.fees| :: 0 < a.fees[k] < FEE_LIMIT)
    && (forall k | 0 <= k < |a.venues| :: a.venues[k] <= 255)
  }

  lemma TokenLegal(x: string, a: Parsed)
    requires LegalSoFar(a, true) && IsAddress(x)
    ensures LegalSoFar(a.(tokens := a.tokens + [Lower(x)]), false)
  {
    LowerAddress(x);
  }

  lemma HopLegal(x: string, suffixed: bool, venue: nat, a: Parsed)
    requires venue <= 255 && LegalSoFar(a, false) && TakeHop(x, suffixed, venue, a).Ok?
    ensures var b := TakeHop(x, suffixed, venue, a).value;
      LegalSoFar(b, true) && |b.fees| == |a.fees| + 1 && b.tokens == a.tokens
  {
  }

  lemma {:induction false} TakePartsLegal(parts: seq<string>, token: bool, suffixed: bool, venue: nat, a: Parsed)
    requires venue <= 255 && LegalSoFar(a, token) && TakeParts(parts, token, suffixed, venue, a).Ok?
    ensures var b := TakeParts(parts, token, suffixed, venue, a).value;
      LegalSoFar(b, token == (|parts| % 2 == 0)) && |b.tokens| + |b.fees| == |a.tokens| + |a.fees| + |parts|
    decreases |parts|
  {
    if parts != [] {
      var x := Trim(parts[0]);
      var b := (if token then TakeToken(x, a) else TakeHop(x, suffixed, venue, a)).value;
      if token {
        TokenLegal(x, a);
      } else {
        HopLegal(x, suffixed, venue, a);
      }
      assert TakeParts(parts, token, suffixed, venue, a) == TakeParts(parts[1..], !token, suffixed, venue, b);
      TakePartsLegal(parts[1..], !token, suffixed, venue, b);
    }
  }

  /** What an accepted entry was read as. */
  lemma AcceptedIs(entry: string) returns (a: Parsed)
    requires ParseEntry(entry).Ok?
    ensures ParseEntry(entry).value == Stored(a)
    ensures LegalSoFar(a, false) && 1 <= |a.fees| <= MAX_POOL_HOPS
  {
    var at := LastIndexOf(entry, '@');
    var parts := Split(if at == 0 then entry else entry[..at - 1], '>');
    var venue := if at == 0 then 0 else ParseVenue(entry[at..]).value;
    a := TakeParts(parts, true, at != 0, venue, Parsed([], [], [])).value;
    TakePartsLegal(parts, true, at != 0, venue, Parsed([], [], []));
  }

  lemma OneEntry(key: string, p: RoutePath)
    requires key != [] && !IsSpace(key[0]) && !IsSpace(key[|key| - 1]) && ';' !in key && ParseEntry(key) == Ok(p)
    ensures ParsePaths(key) == Ok([p])
  {
    SplitWhole(key, ';');
    assert ParseEntries([key][1..]) == Ok([]);
    assert [p] + [] == [p];
  }

  lemma ReadsBack(a: Parsed)
    requires LegalSoFar(a, false) && 1 <= |a.fees| <= MAX_POOL_HOPS
    ensures PathVenues(Stored(a)) == a.venues
    ensures ParsePaths(KeyFrom(a.tokens, a.fees, a.venues)) == Ok([Stored(a)])
  {
    StoredVenues(a);
    assert Legal(a.tokens, a.fees, a.venues);
    EntryParses(a.tokens, a.fees, a.venues);
    assert LowerAll(a.tokens) == a.tokens;
    KeyIsKeyed(a.tokens, a.fees, a.venues);
    OneEntry(KeyFrom(a.tokens, a.fees, a.venues), Stored(a));
  }

  /**
   * Whatever the parser accepts is a legal path of 1..MAX_POOL_HOPS hops in canonical form:
   * printing and parsing it again gives the same path.
   */
  lemma AcceptedIsCanonical(entry: string)
    requires ParseEntry(entry).Ok?
    ensures var p := ParseEntry(entry).value;
      && Legal(p.tokens, p.fees, PathVenues(p)) && 1 <= |p.fees| <= MAX_POOL_HOPS
      && ParsePaths(PathKey(p)) == Ok([p])
  {
    var a := AcceptedIs(entry);
    ReadsBack(a);
  }
}
