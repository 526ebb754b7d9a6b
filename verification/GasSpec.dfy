/**
 * Learned receipt/estimate gas ratios (packages/beta-filler/src/gasRatio.ts): a windowed
 * maximum per fill shape, a bounded number of shapes, the least recently updated evicted.
 * The shapes are a list in the insertion order of the source's Map.
 */
module GasSpec {
  import opened Common
  import opened Arith

  const PPM: nat := 1_000_000
  const WINDOW := 20
  const RECENT := 5
  const MAX_SHAPES := 64
  const MIN_PPM: nat := 600_000
  const MAX_PPM: nat := 1_000_000
  const MAX_ESTIMATE := 30_000_000

  /** A shape's recent ratios and estimates, oldest first, and when it last changed. */
  datatype Entry = Entry(shape: string, s: seq<nat>, e: seq<nat>, at: int)

  datatype Receipt = Receipt(shape: string, estimate: int, gasUsed: int, now: int)

  function Last<T>(s: seq<T>, n: nat): seq<T> {
    if |s| <= n then s else s[|s| - n..]
  }

  function MaxOf(s: seq<nat>): nat {
    if s == [] then 0 else Max(MaxOf(s[..|s| - 1]), s[|s| - 1])
  }

  function Clamp(v: nat): nat {
    if v < MIN_PPM then MIN_PPM else if v > MAX_PPM then MAX_PPM else v
  }

  /** The shape's entry. */
  function Find(l: seq<Entry>, shape: string): Option<Entry> {
    if l == [] then None
    else if l[|l| - 1].shape == shape then Some(l[|l| - 1])
    else Find(l[..|l| - 1], shape)
  }

  function Ratio(l: seq<Entry>, default_: nat, shape: string): nat {
    var x := Find(l, shape);
    if x.None? || x.value.s == [] then default_ else Clamp(MaxOf(Last(x.value.s, RECENT)))
  }

  function TypicalEstimate(l: seq<Entry>, shape: string): Option<nat> {
    var x := Find(l, shape);
    if x.None? || x.value.e == [] then None else Some(MaxOf(Last(x.value.e, RECENT)))
  }

  function Priced(l: seq<Entry>, default_: nat, shape: string, estimate: nat): nat {
    CeilDiv(estimate * Ratio(l, default_, shape), PPM)
  }

  function RawPpm(estimate: nat, gasUsed: nat): nat
    requires estimate > 0
  {
    Min(CeilDiv(gasUsed * PPM, estimate), 10 * PPM)
  }

  function Without(l: seq<Entry>, shape: string): seq<Entry> {
    if l == [] then []
    else
      var init, x := l[..|l| - 1], l[|l| - 1];
      if x.shape == shape then Without(init, shape) else Without(init, shape) + [x]
  }

  /** Stable insertion by age: after the older and equally old ones. */
  function InsertByAge(x: Entry, l: seq<Entry>): (r: seq<Entry>)
    ensures |r| == |l| + 1
  {
    if l == [] || l[|l| - 1].at <= x.at then l + [x] else InsertByAge(x, l[..|l| - 1]) + [l[|l| - 1]]
  }

  function SortByAge(l: seq<Entry>): (r: seq<Entry>)
    ensures |r| == |l|
  {
    if l == [] then [] else InsertByAge(l[|l| - 1], SortByAge(l[..|l| - 1]))
  }

  function WithoutAll(l: seq<Entry>, gone: seq<Entry>): seq<Entry> {
    if gone == [] then l else Without(WithoutAll(l, gone[..|gone| - 1]), gone[|gone| - 1].shape)
  }

  /** The oldest shapes over the limit go. */
  function Evicted(l: seq<Entry>): seq<Entry> {
    if |l| <= MAX_SHAPES then l else WithoutAll(l, SortByAge(l)[..|l| - MAX_SHAPES])
  }

  /** The shape's entry after a receipt. */
  function Updated(l: seq<Entry>, r: Receipt): Entry
    requires r.estimate > 0 && r.gasUsed > 0
  {
    var x := Find(l, r.shape);
    var s, e := if x.Some? then x.value.s else [], if x.Some? then x.value.e else [];
    Entry(r.shape, Last(s + [RawPpm(r.estimate, r.gasUsed)], WINDOW),
          if r.estimate <= MAX_ESTIMATE then Last(e + [r.estimate], WINDOW) else e, r.now)
  }

  /** The list with the updated entry last, before any eviction. */
  function Moved(l: seq<Entry>, r: Receipt): seq<Entry>
    requires r.estimate > 0 && r.gasUsed > 0
  {
    Without(l, r.shape) + [Updated(l, r)]
  }

  function Learn(l: seq<Entry>, r: Receipt): seq<Entry> {
    if r.estimate <= 0 || r.gasUsed <= 0 then l else Evicted(Moved(l, r))
  }

  // --------------------------------------------------------------------- loading

  function Positive(s: seq<int>, limit: int): seq<nat> {
    if s == [] then []
    else if 0 < s[|s| - 1] <= limit then Positive(s[..|s| - 1], limit) + [s[|s| - 1]]
    else Positive(s[..|s| - 1], limit)
  }

  const MAX_SAFE_INTEGER := 9_007_199_254_740_991

  function Cleaned(x: Entry): Entry {
    x.(s := Last(Positive(x.s, MAX_SAFE_INTEGER), WINDOW), e := Last(Positive(x.e, MAX_ESTIMATE), WINDOW))
  }

  function CleanedAll(l: seq<Entry>): seq<Entry> {
    if l == [] then []
    else
      var x := Cleaned(l[|l| - 1]);
      if x.s == [] then CleanedAll(l[..|l| - 1]) else CleanedAll(l[..|l| - 1]) + [x]
  }

  /** What a restart makes of a saved list. */
  function Loaded(l: seq<Entry>): seq<Entry> {
    Evicted(CleanedAll(l))
  }

  // ----------------------------------------------------------------- what every run keeps

  /** Every figure is in 1..limit. */
  ghost predicate Within(s: seq<nat>, limit: nat) {
    s == [] || (0 < s[|s| - 1] <= limit && Within(s[..|s| - 1], limit))
  }

  /** Bounded windows of usable figures. */
  ghost predicate Shaped(x: Entry) {
    1 <= |x.s| <= WINDOW && |x.e| <= WINDOW && Within(x.s, 10 * PPM) && Within(x.e, MAX_ESTIMATE)
  }

  /** Each shape once, in the order of their last change, none after `clock`. */
  ghost predicate InOrder(l: seq<Entry>, clock: int)
    decreases |l|
  {
    l == [] ||
    var init, x := l[..|l| - 1], l[|l| - 1];
    x.at <= clock && Shaped(x) && Find(init, x.shape).None? && InOrder(init, x.at)
  }

  ghost predicate Sound(l: seq<Entry>, clock: int) {
    |l| <= MAX_SHAPES && InOrder(l, clock)
  }

  lemma {:induction false} FoundIsShaped(l: seq<Entry>, clock: int, shape: string)
    requires InOrder(l, clock) && Find(l, shape).Some?
    ensures Shaped(Find(l, shape).value) && Find(l, shape).value.at <= clock
  {
    if l[|l| - 1].shape != shape {
      FoundIsShaped(l[..|l| - 1], l[|l| - 1].at, shape);
    }
  }

  lemma {:induction false} SortedAlready(l: seq<Entry>, clock: int)
    requires InOrder(l, clock)
    ensures SortByAge(l) == l
  {
    if l != [] {
      SortedAlready(l[..|l| - 1], l[|l| - 1].at);
    }
  }

  lemma {:induction false} WithoutKeeps(l: seq<Entry>, shape: string, clock: int)
    requires InOrder(l, clock)
    ensures var w := Without(l, shape);
      |w| <= |l| && InOrder(w, clock) && Find(w, shape).None?
    ensures Find(l, shape).Some? ==> |Without(l, shape)| < |l|
    decreases |l|
  {
    if l != [] {
      var init, x := l[..|l| - 1], l[|l| - 1];
      WithoutKeeps(init, shape, x.at);
      if x.shape != shape {
        WithoutFinds(init, shape, x.shape);
        assert Without(l, shape)[..|Without(l, shape)| - 1] == Without(init, shape);
      }
    }
  }

  /** Taking a shape out leaves every other one as it was. */
  lemma {:induction false} WithoutFinds(l: seq<Entry>, shape: string, other: string)
    requires other != shape
    ensures Find(Without(l, shape), other) == Find(l, other)
  {
    if l != [] {
      var init, x := l[..|l| - 1], l[|l| - 1];
      WithoutFinds(init, shape, other);
      if x.shape != shape {
        assert Without(l, shape)[..|Without(l, shape)| - 1] == Without(init, shape);
      }
    }
  }

  lemma {:induction false} FirstIsFound(l: seq<Entry>)
    requires l != []
    ensures Find(l, l[0].shape).Some?
  {
    if |l| > 1 {
      FirstIsFound(l[..|l| - 1]);
    }
  }

  lemma {:induction false} WithoutAbsent(l: seq<Entry>, shape: string)
    requires Find(l, shape).None?
    ensures Without(l, shape) == l
  {
    if l != [] {
      WithoutAbsent(l[..|l| - 1], shape);
    }
  }

  /** Taking the first entry's shape out takes out just that entry. */
  lemma {:induction false} WithoutFirst(l: seq<Entry>, clock: int)
    requires l != [] && InOrder(l, clock)
    ensures Without(l, l[0].shape) == l[1..]
    decreases |l|
  {
    var init, x := l[..|l| - 1], l[|l| - 1];
    if |l| > 1 {
      WithoutFirst(init, x.at);
      FirstIsFound(init);
      assert l[1..] == init[1..] + [x];
    } else {
      assert init == [];
    }
  }

  /** One shape too many, in order of last change: the least recently updated one goes. */
  lemma EvictsLeastRecent(l: seq<Entry>, clock: int)
    requires |l| <= MAX_SHAPES + 1 && InOrder(l, clock)
    ensures Evicted(l) == if |l| <= MAX_SHAPES then l else Without(l, l[0].shape)
    ensures Sound(Evicted(l), clock)
  {
    if |l| > MAX_SHAPES {
      SortedAlready(l, clock);
      var gone := l[..1];
      assert gone[..0] == [];
      assert WithoutAll(l, gone[..0]) == l;
      WithoutKeeps(l, l[0].shape, clock);
      FirstIsFound(l);
    }
  }

  lemma MovedKeeps(l: seq<Entry>, r: Receipt, clock: int)
    requires r.estimate > 0 && r.gasUsed > 0 && Sound(l, clock) && clock <= r.now
    ensures |Moved(l, r)| <= MAX_SHAPES + 1 && InOrder(Moved(l, r), r.now)
  {
    UpdatedIsShaped(l, r, clock);
    WithoutKeeps(l, r.shape, clock);
    assert Moved(l, r)[..|Moved(l, r)| - 1] == Without(l, r.shape);
  }

  lemma {:induction false} WithinTail(s: seq<nat>, limit: nat)
    requires s != [] && Within(s, limit)
    ensures Within(s[1..], limit)
  {
    if |s| > 1 {
      WithinTail(s[..|s| - 1], limit);
      assert s[1..][..|s| - 2] == s[..|s| - 1][1..];
    }
  }

  /** A figure pushed on a window shifts it by one, dropping the oldest when it is full. */
  lemma LastKeepsBounds(s: seq<nat>, x: nat, limit: nat)
    requires 0 < x <= limit && |s| <= WINDOW && Within(s, limit)
    ensures var r := Last(s + [x], WINDOW); 1 <= |r| <= WINDOW && r[|r| - 1] == x && Within(r, limit)
  {
    var more := s + [x];
    assert more[..|s|] == s;
    assert Within(more, limit);
    if |s| == WINDOW {
      WithinTail(more, limit);
      assert Last(more, WINDOW) == more[1..];
    }
  }

  lemma UpdatedIsShaped(l: seq<Entry>, r: Receipt, clock: int)
    requires r.estimate > 0 && r.gasUsed > 0 && Sound(l, clock)
    ensures Shaped(Updated(l, r))
  {
    var ppm := RawPpm(r.estimate, r.gasUsed);
    CeilIs(r.gasUsed * PPM, r.estimate, 0);
    var x := Find(l, r.shape);
    if x.Some? {
      FoundIsShaped(l, clock, r.shape);
    }
    var s, e := if x.Some? then x.value.s else [], if x.Some? then x.value.e else [];
    LastKeepsBounds(s, ppm, 10 * PPM);
    if r.estimate <= MAX_ESTIMATE {
      LastKeepsBounds(e, r.estimate, MAX_ESTIMATE);
    }
  }

  /**
   * Learning keeps every bound and the order of last change. Under a clock that does not go
   * back the shape just learned is kept, and the only shape that can go is the least
   * recently updated one, when there is one too many.
   */
  lemma LearnKeeps(l: seq<Entry>, r: Receipt, clock: int)
    requires Sound(l, clock) && clock <= r.now
    ensures Sound(Learn(l, r), r.now)
    ensures r.estimate > 0 && r.gasUsed > 0 ==>
      && Find(Learn(l, r), r.shape) == Some(Updated(l, r))
      && Learn(l, r) == if |Moved(l, r)| <= MAX_SHAPES then Moved(l, r) else Without(Moved(l, r), Moved(l, r)[0].shape)
  {
    if r.estimate > 0 && r.gasUsed > 0 {
      var m := Moved(l, r);
      MovedKeeps(l, r, clock);
      EvictsLeastRecent(m, r.now);
      if |m| > MAX_SHAPES {
        FirstIsFound(m[..|m| - 1]);
        WithoutFinds(m, m[0].shape, r.shape);
      }
    }
  }

  lemma {:induction false} PositiveAll(s: seq<nat>, limit: nat, bound: int)
    requires Within(s, limit) && limit <= bound
    ensures Positive(s, bound) == s
  {
    if s != [] {
      PositiveAll(s[..|s| - 1], limit, bound);
    }
  }

  lemma CleanedSame(x: Entry)
    requires Shaped(x)
    ensures Cleaned(x) == x
  {
    PositiveAll(x.s, 10 * PPM, MAX_SAFE_INTEGER);
    PositiveAll(x.e, MAX_ESTIMATE, MAX_ESTIMATE);
  }

  lemma {:induction false} CleanedAllSame(l: seq<Entry>, clock: int)
    requires InOrder(l, clock)
    ensures CleanedAll(l) == l
    decreases |l|
  {
    if l != [] {
      var x := l[|l| - 1];
      CleanedAllSame(l[..|l| - 1], x.at);
      CleanedSame(x);
    }
  }

  /** A restart changes nothing. */
  lemma RestartIsIdentity(l: seq<Entry>, clock: int)
    requires Sound(l, clock)
    ensures Loaded(l) == l
  {
    CleanedAllSame(l, clock);
  }

  // ------------------------------------------------------------------- what is priced

  lemma {:induction false} MaxOfIs(s: seq<nat>, k: nat)
    requires k < |s|
    ensures s[k] <= MaxOf(s)
  {
    if k < |s| - 1 {
      MaxOfIs(s[..|s| - 1], k);
    }
  }

  /** The priced gas is between 0.6 and 1.0 of the estimate, whatever was learned. */
  lemma PricedBounds(l: seq<Entry>, default_: nat, shape: string, estimate: nat)
    requires MIN_PPM <= default_ <= MAX_PPM
    ensures 6 * estimate <= 10 * Priced(l, default_, shape, estimate)
    ensures Priced(l, default_, shape, estimate) <= estimate
  {
    var r, p := Ratio(l, default_, shape), Priced(l, default_, shape, estimate);
    MulMono(MIN_PPM, r, estimate);
    MulMono(r, MAX_PPM, estimate);
    assert r * estimate == estimate * r;
    CeilIs(estimate * r, PPM, p);
    CeilIs(estimate * r, PPM, estimate);
  }

  /** The shape's window holds the ratio at `back` from its newest end. */
  ghost predicate Remembers(l: seq<Entry>, shape: string, ppm: nat, back: nat) {
    var x := Find(l, shape);
    x.Some? && back < |x.value.s| && x.value.s[|x.value.s| - 1 - back] == ppm
  }

  /** A ratio among the recent ones covers its receipt's gas at every estimate. */
  lemma RememberedIsCovered(l: seq<Entry>, default_: nat, shape: string, estimate: nat, gasUsed: nat, back: nat, e: nat)
    requires 0 < gasUsed <= estimate && back < RECENT && Remembers(l, shape, RawPpm(estimate, gasUsed), back)
    ensures Priced(l, default_, shape, e) * estimate >= gasUsed * e
    ensures Priced(l, default_, shape, estimate) >= gasUsed
  {
    var s, ppm := Find(l, shape).value.s, RawPpm(estimate, gasUsed);
    var recent := Last(s, RECENT);
    MaxOfIs(recent, |recent| - 1 - back);
    CeilIs(gasUsed * PPM, estimate, PPM);
    CeilIs(gasUsed * PPM, estimate, ppm);
    MulMono(gasUsed, estimate, PPM);
    assert Ratio(l, default_, shape) >= ppm;
    Covers(Ratio(l, default_, shape), ppm, estimate, gasUsed, e);
    Covers(Ratio(l, default_, shape), ppm, estimate, gasUsed, estimate);
    MulCancel(gasUsed, Priced(l, default_, shape, estimate), estimate);
  }

  lemma Covers(ratio: nat, ppm: nat, estimate: nat, gasUsed: nat, e: nat)
    requires estimate > 0 && ppm <= ratio && ppm * estimate >= gasUsed * PPM
    ensures CeilDiv(e * ratio, PPM) * estimate >= gasUsed * e
  {
    var p := CeilDiv(e * ratio, PPM);
    CeilIs(e * ratio, PPM, p);
    MulMono(e * ratio, p * PPM, estimate);
    MulMono(ppm, ratio, e * estimate);
    assert ppm * (e * estimate) == (ppm * estimate) * e;
    assert ratio * (e * estimate) == e * ratio * estimate;
    MulMono(gasUsed * PPM, ppm * estimate, e);
    assert gasUsed * PPM * e == (gasUsed * e) * PPM;
    assert p * PPM * estimate == (p * estimate) * PPM;
    MulCancel(gasUsed * e, p * estimate, PPM);
  }

  // ------------------------------------------------------------------------- the runs

  datatype Op = Record(r: Receipt) | Restart

  function Apply(l: seq<Entry>, op: Op): seq<Entry> {
    match op
    case Record(r) => Learn(l, r)
    case Restart => Loaded(l)
  }

  function Run(l: seq<Entry>, ops: seq<Op>): seq<Entry>
    decreases |ops|
  {
    if ops == [] then l else Run(Apply(l, ops[0]), ops[1..])
  }

  function NextClock(clock: int, op: Op): int {
    if op.Record? then op.r.now else clock
  }

  /** Receipts come with a clock that does not go back. */
  ghost predicate Timely(ops: seq<Op>, clock: int)
    decreases |ops|
  {
    ops != [] ==> clock <= NextClock(clock, ops[0]) && Timely(ops[1..], NextClock(clock, ops[0]))
  }

  /** The shape is in the list after every operation. */
  ghost predicate Retained(l: seq<Entry>, ops: seq<Op>, shape: string)
    decreases |ops|
  {
    Find(l, shape).Some? && (ops != [] ==> Retained(Apply(l, ops[0]), ops[1..], shape))
  }

  /** Whether the operation is a usable receipt of the shape. */
  function Hit(op: Op, shape: string): nat {
    if op.Record? && op.r.shape == shape && op.r.estimate > 0 && op.r.gasUsed > 0 then 1 else 0
  }

  function Count(ops: seq<Op>, shape: string): nat {
    if ops == [] then 0 else Hit(ops[0], shape) + Count(ops[1..], shape)
  }

  lemma StepKeeps(l: seq<Entry>, op: Op, clock: int)
    requires Sound(l, clock) && clock <= NextClock(clock, op)
    ensures Sound(Apply(l, op), NextClock(clock, op))
  {
    match op {
      case Record(r) => LearnKeeps(l, r, clock);
      case Restart => RestartIsIdentity(l, clock);
    }
  }

  /** Over every run with a clock that does not go back, restarts included, the bounds hold. */
  lemma {:induction false} RunKeeps(l: seq<Entry>, ops: seq<Op>, clock: int, shape: string)
    requires Sound(l, clock) && Timely(ops, clock)
    ensures |Run(l, ops)| <= MAX_SHAPES
    ensures Find(Run(l, ops), shape).Some? ==> Shaped(Find(Run(l, ops), shape).value)
    decreases |ops|
  {
    if ops != [] {
      StepKeeps(l, ops[0], clock);
      RunKeeps(Apply(l, ops[0]), ops[1..], NextClock(clock, ops[0]), shape);
    } else if Find(l, shape).Some? {
      FoundIsShaped(l, clock, shape);
    }
  }

  /** A shape that is still there and did not change keeps its entry. */
  lemma OthersKept(l: seq<Entry>, r: Receipt, clock: int, shape: string)
    requires Sound(l, clock) && clock <= r.now && r.estimate > 0 && r.gasUsed > 0 && r.shape != shape
    requires Find(Learn(l, r), shape).Some?
    ensures Find(Learn(l, r), shape) == Find(l, shape)
  {
    var m := Moved(l, r);
    LearnKeeps(l, r, clock);
    MovedKeeps(l, r, clock);
    WithoutFinds(l, r.shape, shape);
    assert m[..|m| - 1] == Without(l, r.shape);
    if |m| > MAX_SHAPES {
      if m[0].shape == shape {
        WithoutKeeps(m, shape, r.now);
      } else {
        WithoutFinds(m, m[0].shape, shape);
      }
    }
  }

  lemma OwnRemembers(l: seq<Entry>, r: Receipt, clock: int, ppm: nat, back: nat)
    requires Sound(l, clock) && clock <= r.now && r.estimate > 0 && r.gasUsed > 0
    requires Remembers(l, r.shape, ppm, back) && back < RECENT
    ensures Remembers(Learn(l, r), r.shape, ppm, back + 1)
  {
    LearnKeeps(l, r, clock);
    FoundIsShaped(l, clock, r.shape);
    WindowShifts(Find(l, r.shape).value.s, RawPpm(r.estimate, r.gasUsed), back);
  }

  /** A figure pushed on a window moves the recent ones back by one. */
  lemma WindowShifts(s: seq<nat>, x: nat, back: nat)
    requires |s| <= WINDOW && back < |s| && back < RECENT
    ensures var t := Last(s + [x], WINDOW); back + 1 < |t| && t[|t| - 1 - (back + 1)] == s[|s| - 1 - back]
  {
  }

  /** A receipt of the shape moves a remembered ratio back by one, any other leaves it. */
  lemma StepRemembers(l: seq<Entry>, op: Op, clock: int, shape: string, ppm: nat, back: nat)
    requires Sound(l, clock) && clock <= NextClock(clock, op)
    requires Remembers(l, shape, ppm, back) && back < RECENT && Find(Apply(l, op), shape).Some?
    ensures Remembers(Apply(l, op), shape, ppm, back + Hit(op, shape))
  {
    if op.Restart? {
      RestartIsIdentity(l, clock);
    } else if Hit(op, shape) == 1 {
      OwnRemembers(l, op.r, clock, ppm, back);
    } else if op.r.estimate > 0 && op.r.gasUsed > 0 {
      OthersKept(l, op.r, clock, shape);
    }
  }

  lemma RetainedNext(l: seq<Entry>, ops: seq<Op>, shape: string)
    requires Retained(l, ops, shape)
    ensures Find(l, shape).Some?
  {
  }

  lemma {:induction false} RunRemembers(l: seq<Entry>, ops: seq<Op>, clock: int, shape: string, ppm: nat, back: nat)
    requires Sound(l, clock) && Timely(ops, clock) && Retained(l, ops, shape)
    requires Remembers(l, shape, ppm, back) && back + Count(ops, shape) < RECENT
    ensures Remembers(Run(l, ops), shape, ppm, back + Count(ops, shape))
    decreases |ops|
  {
    if ops != [] {
      var k, now, hit := Apply(l, ops[0]), NextClock(clock, ops[0]), Hit(ops[0], shape);
      StepKeeps(l, ops[0], clock);
      RetainedNext(k, ops[1..], shape);
      StepRemembers(l, ops[0], clock, shape, ppm, back);
      RunRemembers(k, ops[1..], now, shape, ppm, back + hit);
    }
  }

  /**
   * Priced gas covers what was learned: after a receipt within its estimate, for as long as
   * its shape is retained and fewer than RECENT further receipts of it arrive, every
   * estimate of that shape is priced at no less than that receipt's rate, and the receipt's
   * own estimate at no less than the gas it used.
   */
  lemma LearnedIsCovered(l: seq<Entry>, default_: nat, r: Receipt, ops: seq<Op>, clock: int, e: nat)
    requires Sound(l, clock) && clock <= r.now && 0 < r.gasUsed <= r.estimate
    requires Timely(ops, r.now) && Retained(Learn(l, r), ops, r.shape) && Count(ops, r.shape) < RECENT
    ensures var after := Run(Learn(l, r), ops);
      && Priced(after, default_, r.shape, e) * r.estimate >= r.gasUsed * e
      && Priced(after, default_, r.shape, r.estimate) >= r.gasUsed
  {
    var learned, ppm := Learn(l, r), RawPpm(r.estimate, r.gasUsed);
    JustLearned(l, r, clock);
    RunRemembers(learned, ops, r.now, r.shape, ppm, 0);
    RememberedIsCovered(Run(learned, ops), default_, r.shape, r.estimate, r.gasUsed, Count(ops, r.shape), e);
  }

  lemma JustLearned(l: seq<Entry>, r: Receipt, clock: int)
    requires Sound(l, clock) && clock <= r.now && 0 < r.gasUsed && 0 < r.estimate
    ensures Sound(Learn(l, r), r.now) && Remembers(Learn(l, r), r.shape, RawPpm(r.estimate, r.gasUsed), 0)
  {
    LearnKeeps(l, r, clock);
  }

  // ------------------------------------------------------------ exactly what is learned

  /** `m` is the largest of the last five figures. */
  ghost predicate LargestOfRecent(s: seq<nat>, m: nat) {
    && (exists k :: 0 <= k < |s| && k >= |s| - 5 && s[k] == m)
    && (forall k | 0 <= k < |s| && k >= |s| - 5 :: s[k] <= m)
  }

  lemma {:induction false} MaxOfFound(s: seq<nat>) returns (k: nat)
    requires s != []
    ensures k < |s| && s[k] == MaxOf(s)
  {
    var init := s[..|s| - 1];
    if init == [] || MaxOf(init) <= s[|s| - 1] {
      k := |s| - 1;
    } else {
      k := MaxOfFound(init);
    }
  }

  lemma RecentIs(s: seq<nat>)
    requires s != []
    ensures LargestOfRecent(s, MaxOf(Last(s, RECENT)))
  {
    var recent := Last(s, RECENT);
    var k := MaxOfFound(recent);
    assert s[|s| - |recent| + k] == MaxOf(recent);
    forall j | 0 <= j < |s| && j >= |s| - 5 ensures s[j] <= MaxOf(recent) {
      MaxOfIs(recent, j - (|s| - |recent|));
    }
  }

  /**
   * The ratio of a shape with learned figures is the largest of its last five, brought into
   * 0.6 to 1.0; of any other shape the default. The typical estimate is the largest of the
   * last five, and the priced gas the least amount at that ratio.
   */
  lemma RatioIs(l: seq<Entry>, default_: nat, shape: string, estimate: nat)
    ensures var x, r := Find(l, shape), Ratio(l, default_, shape);
      && (x.None? || x.value.s == [] ==> r == default_)
      && (x.Some? && x.value.s != [] ==> exists m: nat :: (
            && LargestOfRecent(x.value.s, m)
            && r == if m < 600_000 then 600_000 else if m > 1_000_000 then 1_000_000 else m))
    ensures var x, t := Find(l, shape), TypicalEstimate(l, shape);
      && (t.None? <==> x.None? || x.value.e == [])
      && (t.Some? ==> LargestOfRecent(x.value.e, t.value))
    ensures var g, v := Priced(l, default_, shape, estimate), estimate * Ratio(l, default_, shape);
      g * 1_000_000 >= v && (g > 0 ==> (g - 1) * 1_000_000 < v)
  {
    var x := Find(l, shape);
    if x.Some? && x.value.s != [] {
      RecentIs(x.value.s);
    }
    if x.Some? && x.value.e != [] {
      RecentIs(x.value.e);
    }
    var g, v := Priced(l, default_, shape, estimate), estimate * Ratio(l, default_, shape);
    CeilIs(v, PPM, g);
    if g > 0 {
      CeilIs(v, PPM, g - 1);
    }
  }

  /** What a usable receipt is worth, in millionths of its estimate: rounded up, ten times at most. */
  ghost predicate IsPpm(r: Receipt, ppm: nat)
    requires r.estimate > 0 && r.gasUsed > 0
  {
    if r.gasUsed > 10 * r.estimate then ppm == 10_000_000
    else ppm * r.estimate >= r.gasUsed * 1_000_000 && (ppm - 1) * r.estimate < r.gasUsed * 1_000_000
  }

  lemma PpmIs(r: Receipt)
    requires r.estimate > 0 && r.gasUsed > 0
    ensures IsPpm(r, RawPpm(r.estimate, r.gasUsed))
  {
    var up := CeilDiv(r.gasUsed * PPM, r.estimate);
    CeilIs(r.gasUsed * PPM, r.estimate, up);
    CeilIs(r.gasUsed * PPM, r.estimate, up - 1);
    CeilIs(r.gasUsed * PPM, r.estimate, 10 * PPM);
    assert 10 * PPM * r.estimate == (10 * r.estimate) * PPM;
    if r.gasUsed > 10 * r.estimate {
      MulMono(10 * r.estimate + 1, r.gasUsed, PPM);
    } else {
      MulMono(r.gasUsed, 10 * r.estimate, PPM);
    }
  }

  /** The ratio a step adds to a shape's window, if any. */
  function PpmOf(op: Op, shape: string): seq<nat> {
    if Hit(op, shape) == 1 then [RawPpm(op.r.estimate, op.r.gasUsed)] else []
  }

  /** The estimate it adds; absurd ones are left out. */
  function EstimateOf(op: Op, shape: string): seq<nat> {
    if Hit(op, shape) == 1 && op.r.estimate <= 30_000_000 then [op.r.estimate] else []
  }

  function Ppms(ops: seq<Op>, shape: string): seq<nat> {
    if ops == [] then [] else PpmOf(ops[0], shape) + Ppms(ops[1..], shape)
  }

  function Estimates(ops: seq<Op>, shape: string): seq<nat> {
    if ops == [] then [] else EstimateOf(ops[0], shape) + Estimates(ops[1..], shape)
  }

  /** The figures held of a shape, none when it is not there. */
  function HeldPpms(l: seq<Entry>, shape: string): seq<nat> {
    var x := Find(l, shape);
    if x.Some? then x.value.s else []
  }

  function HeldEstimates(l: seq<Entry>, shape: string): seq<nat> {
    var x := Find(l, shape);
    if x.Some? then x.value.e else []
  }

  /** Two steps of a window are one. */
  lemma WindowChain(a: seq<nat>, b: seq<nat>, c: seq<nat>)
    ensures Last(Last(a + b, WINDOW) + c, WINDOW) == Last(a + (b + c), WINDOW)
  {
    var ab := a + b;
    var t := Last(ab, WINDOW);
    assert t == ab[|ab| - |t|..];
    assert a + (b + c) == ab[..|ab| - |t|] + (t + c);
  }

  lemma OwnStep(l: seq<Entry>, r: Receipt, clock: int)
    requires Sound(l, clock) && clock <= r.now && r.estimate > 0 && r.gasUsed > 0
    ensures HeldPpms(Learn(l, r), r.shape) == Last(HeldPpms(l, r.shape) + PpmOf(Record(r), r.shape), WINDOW)
    ensures |HeldEstimates(l, r.shape)| <= WINDOW ==>
      HeldEstimates(Learn(l, r), r.shape) == Last(HeldEstimates(l, r.shape) + EstimateOf(Record(r), r.shape), WINDOW)
  {
    LearnKeeps(l, r, clock);
    assert HeldEstimates(l, r.shape) + [] == HeldEstimates(l, r.shape);
  }

  lemma HeldBounds(l: seq<Entry>, clock: int, shape: string)
    requires InOrder(l, clock)
    ensures |HeldPpms(l, shape)| <= WINDOW && |HeldEstimates(l, shape)| <= WINDOW
  {
    if Find(l, shape).Some? {
      FoundIsShaped(l, clock, shape);
    }
  }

  /** One operation that leaves the shape there moves its windows on by what it adds. */
  lemma StepWindow(l: seq<Entry>, op: Op, clock: int, shape: string)
    requires Sound(l, clock) && clock <= NextClock(clock, op) && Find(Apply(l, op), shape).Some?
    ensures HeldPpms(Apply(l, op), shape) == Last(HeldPpms(l, shape) + PpmOf(op, shape), WINDOW)
    ensures HeldEstimates(Apply(l, op), shape) == Last(HeldEstimates(l, shape) + EstimateOf(op, shape), WINDOW)
  {
    HeldBounds(l, clock, shape);
    if Hit(op, shape) == 1 {
      OwnStep(l, op.r, clock);
    } else {
      SameEntry(l, op, clock, shape);
      assert HeldPpms(l, shape) + [] == HeldPpms(l, shape) && HeldEstimates(l, shape) + [] == HeldEstimates(l, shape);
    }
  }

  lemma SameEntry(l: seq<Entry>, op: Op, clock: int, shape: string)
    requires Sound(l, clock) && clock <= NextClock(clock, op) && Find(Apply(l, op), shape).Some? && Hit(op, shape) == 0
    ensures Find(Apply(l, op), shape) == Find(l, shape)
  {
    if op.Restart? {
      RestartIsIdentity(l, clock);
    } else if op.r.estimate > 0 && op.r.gasUsed > 0 {
      OthersKept(l, op.r, clock, shape);
    }
  }

  /**
   * Over every run in which a shape stays once it is there, restarts included, its windows
   * are exactly the last twenty ratios, and the last twenty estimates, of what was held of it
   * and what it received.
   */
  lemma {:induction false} WindowIs(l: seq<Entry>, ops: seq<Op>, clock: int, shape: string)
    requires Sound(l, clock) && Timely(ops, clock)
    requires if ops == [] then Find(l, shape).Some? else Retained(Apply(l, ops[0]), ops[1..], shape)
    ensures HeldPpms(Run(l, ops), shape) == Last(HeldPpms(l, shape) + Ppms(ops, shape), 20)
    ensures HeldEstimates(Run(l, ops), shape) == Last(HeldEstimates(l, shape) + Estimates(ops, shape), 20)
    decreases |ops|
  {
    if ops == [] {
      HeldBounds(l, clock, shape);
      assert HeldPpms(l, shape) + [] == HeldPpms(l, shape) && HeldEstimates(l, shape) + [] == HeldEstimates(l, shape);
    } else {
      var op, rest := ops[0], ops[1..];
      var k := Apply(l, op);
      StepKeeps(l, op, clock);
      StepWindow(l, op, clock, shape);
      WindowIs(k, rest, NextClock(clock, op), shape);
      WindowChain(HeldPpms(l, shape), PpmOf(op, shape), Ppms(rest, shape));
      WindowChain(HeldEstimates(l, shape), EstimateOf(op, shape), Estimates(rest, shape));
    }
  }
}
