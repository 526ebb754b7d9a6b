/**
 * The learned gas ratios as the filler keeps them (packages/beta-filler/src/gasRatio.ts): an
 * object whose methods push, splice, re-insert and evict. GasSpec says what they come to.
 */
module GasLearning {
  import opened Common
  import opened GasSpec

  /** The largest of the last RECENT figures. */
  method MaxRecent(s: seq<nat>) returns (m: nat)
    ensures m == MaxOf(Last(s, RECENT))
  {
    var recent := Last(s, RECENT);
    m := 0;
    for i := 0 to |recent|
      invariant m == MaxOf(recent[..i])
    {
      assert recent[..i + 1][..i] == recent[..i];
      if recent[i] > m {
        m := recent[i];
      }
    }
    assert recent[..|recent|] == recent;
  }

  /** Push a figure and drop the oldest ones past the window. */
  method Push(s0: seq<nat>, x: nat) returns (s: seq<nat>)
    ensures s == Last(s0 + [x], WINDOW)
  {
    s := s0 + [x];
    if |s| > WINDOW {
      s := s[|s| - WINDOW..];
    }
  }

  /** The stored ratio: rounded up, raw, capped at ten. */
  method RatioOf(estimate: nat, gasUsed: nat) returns (ppm: nat)
    requires estimate > 0
    ensures ppm == RawPpm(estimate, gasUsed)
  {
    var raw := (gasUsed * PPM + estimate - 1) / estimate;
    ppm := if raw > 10 * PPM then 10 * PPM else raw;
  }

  class GasRatios {
    const defaultPpm: nat
    var shapes: seq<Entry>

    /** Load a saved list, dropping unusable figures and shapes over the limit. */
    constructor (default_: nat, state: seq<Entry>)
      ensures defaultPpm == Clamp(default_) && shapes == Loaded(state)
    {
      defaultPpm, shapes := Clamp(default_), [];
      new;
      for i := 0 to |state|
        invariant shapes == CleanedAll(state[..i])
      {
        assert state[..i + 1][..i] == state[..i];
        var x := Cleaned(state[i]);
        if x.s != [] {
          shapes := shapes + [x];
        }
      }
      assert state[..|state|] == state;
      Evict();
    }

    method RatioPpm(shape: string) returns (r: nat)
      ensures r == Ratio(shapes, defaultPpm, shape)
    {
      var x := Find(shapes, shape);
      if x.None? || |x.value.s| == 0 {
        return defaultPpm;
      }
      var m := MaxRecent(x.value.s);
      r := Clamp(m);
    }

    method Typical(shape: string) returns (r: Option<nat>)
      ensures r == TypicalEstimate(shapes, shape)
    {
      var x := Find(shapes, shape);
      if x.None? || |x.value.e| == 0 {
        return None;
      }
      var m := MaxRecent(x.value.e);
      r := Some(m);
    }

    method PricedGas(shape: string, estimate: nat) returns (p: nat)
      ensures p == Priced(shapes, defaultPpm, shape, estimate)
    {
      var r := RatioPpm(shape);
      p := (estimate * r + PPM - 1) / PPM;
    }

    method Record(shape: string, estimate: int, gasUsed: int, now: int)
      modifies this
      ensures shapes == Learn(old(shapes), Receipt(shape, estimate, gasUsed, now))
    {
      if estimate <= 0 || gasUsed <= 0 {
        return;
      }
      var ppm := RatioOf(estimate, gasUsed);
      var x := Find(shapes, shape);
      var s, e := [], [];
      if x.Some? {
        s, e := x.value.s, x.value.e;
      }
      s := Push(s, ppm);
      if estimate <= MAX_ESTIMATE {
        e := Push(e, estimate);
      }
      shapes := Without(shapes, shape);
      shapes := shapes + [Entry(shape, s, e, now)];
      Evict();
    }

    method Evict()
      modifies this
      ensures shapes == Evicted(old(shapes))
    {
      if |shapes| <= MAX_SHAPES {
        return;
      }
      var byAge := SortByAge(shapes);
      var gone := byAge[..|shapes| - MAX_SHAPES];
      for i := 0 to |gone|
        invariant shapes == WithoutAll(old(shapes), gone[..i])
      {
        assert gone[..i + 1][..i] == gone[..i];
        shapes := Without(shapes, gone[i].shape);
      }
      assert gone[..|gone|] == gone;
    }
  }
}
