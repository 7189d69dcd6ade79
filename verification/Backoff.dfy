/** Exponential backoff with jitter (internal/httpcm/upstream.go, backoffWithJitter). Durations are nanoseconds. */
module Backoff {
  import opened Prelude

  const DEFAULT_BASE: int := 50_000_000
  const DEFAULT_MAX: int := 500_000_000

  function EffectiveBase(base: int): (b: int) {
    if base <= 0 then DEFAULT_BASE else base
  }

  function EffectiveMax(max: int): (m: int) {
    if max <= 0 then DEFAULT_MAX else max
  }

  /** `base << attempt` in an `int64`. */
  function Shifted(base: int, attempt: nat): (d: int) {
    Wrap64(EffectiveBase(base) * Pow2(attempt))
  }

  /** The longest delay the jitter can produce without overflowing the shift. */
  function Ceiling(max: int): (c: int) {
    EffectiveMax(max) + EffectiveMax(max) / 4
  }

  /** The delay; `None` when `rand.Int63n` panics on a non-positive bound. `draw` is the random source. */
  function Delay(base: int, max: int, attempt: nat, draw: nat): (delay: Option<int>) {
    var d := Min(Shifted(base, attempt), EffectiveMax(max));
    var bound := GoDiv(d, 4) + 1;
    if bound <= 0 then None else Some(Wrap64(d + draw % bound))
  }

  /** The jitter call panics exactly when the shift overflows to -4 or less. */
  lemma PanicsExactly(base: int, max: int, attempt: nat, draw: nat)
    ensures Delay(base, max, attempt, draw).None? <==> Shifted(base, attempt) <= -4
  {
  }

  /** No other delay exceeds the ceiling. */
  lemma DelayBounded(base: int, max: int, attempt: nat, draw: nat)
    requires Ceiling(max) < TWO_63
    ensures Delay(base, max, attempt, draw).None? <==> Shifted(base, attempt) <= -4
    ensures Delay(base, max, attempt, draw).Some? ==> -3 <= Delay(base, max, attempt, draw).value <= Ceiling(max)
  {
    var d := Min(Shifted(base, attempt), EffectiveMax(max));
    var bound := GoDiv(d, 4) + 1;
    if bound > 0 {
      assert 0 <= draw % bound < bound;
    }
  }

  /** The exponential in attempt `k`, clamped, with the defaults of the source. */
  function Clamped(base: int, max: int, k: nat): (d: int) {
    var grown, cap := (if base > 0 then base else 50_000_000) * Pow2(k), if max > 0 then max else 500_000_000;
    if grown > cap then cap else grown
  }

  lemma DelayInPlain(base: int, max: int, k: nat, draw: nat)
    requires (if base > 0 then base else 50_000_000) * Pow2(k) < TWO_63
    requires (if max > 0 then max else 500_000_000) * 5 / 4 < TWO_63
    ensures var d := Clamped(base, max, k); d > 0 && Delay(base, max, k, draw) == Some(d + draw % (d / 4 + 1))
  {
    ClampedFits(base, max, k);
    hide Shifted, Pow2, Clamped, EffectiveMax, GoDiv;
    var d := Clamped(base, max, k);
    QuarterOf(d);
    JitterRange(d, draw);
    assert Wrap64(d + draw % (d / 4 + 1)) == d + draw % (d / 4 + 1);
  }

  lemma ClampedFits(base: int, max: int, k: nat)
    requires (if base > 0 then base else 50_000_000) * Pow2(k) < TWO_63
    requires (if max > 0 then max else 500_000_000) * 5 / 4 < TWO_63
    ensures var d := Clamped(base, max, k);
            d > 0 && d + d / 4 < TWO_63 && Min(Shifted(base, k), EffectiveMax(max)) == d
  {
    var b, p := if base > 0 then base else 50_000_000, Pow2(k);
    Positive(b, p);
    assert Shifted(base, k) == b * p;
  }

  lemma QuarterOf(d: int)
    requires d > 0
    ensures GoDiv(d, 4) == d / 4
  {
  }

  /** Without overflow the delays are exactly the values from the clamped exponential to a quarter above it. */
  lemma DelaysAreTheRange(base: int, max: int, k: nat, v: int)
    requires (if base > 0 then base else 50_000_000) * Pow2(k) < TWO_63
    requires (if max > 0 then max else 500_000_000) * 5 / 4 < TWO_63
    ensures var d := Clamped(base, max, k);
            (exists draw: nat :: Delay(base, max, k, draw) == Some(v)) <==> d <= v <= d + d / 4
  {
    var d := Clamped(base, max, k);
    DelayInPlain(base, max, k, 0);
    forall draw: nat
      ensures Delay(base, max, k, draw).Some? && d <= Delay(base, max, k, draw).value <= d + d / 4
      ensures draw <= d / 4 ==> Delay(base, max, k, draw).value == d + draw
    {
      DelayInPlain(base, max, k, draw);
      hide Delay, Clamped, Pow2;
      JitterRange(d, draw);
    }
    hide Delay, Clamped, Pow2;
    if d <= v <= d + d / 4 {
      var draw: nat := v - d;
      assert Delay(base, max, k, draw) == Some(v);
    }
  }

  lemma JitterRange(d: int, draw: nat)
    requires d > 0
    ensures 0 <= draw % (d / 4 + 1) <= d / 4
    ensures draw <= d / 4 ==> draw % (d / 4 + 1) == draw
  {
  }

  /** The ceiling is a quarter above the cap, whose default is half a second. */
  lemma CeilingIs(max: int)
    ensures Ceiling(max) == if max > 0 then max + max / 4 else 625_000_000
  {
  }

  /** What the comment on the function promises: between the clamped exponential and 25% above it. */
  ghost predicate KeepsPromise(base: int, max: int, attempt: nat) {
    var d := Min(EffectiveBase(base) * Pow2(attempt), EffectiveMax(max));
    forall draw: nat ::
      Delay(base, max, attempt, draw).Some? && d <= Delay(base, max, attempt, draw).value <= d + d / 4
  }

  /** The promise is kept exactly when the shift does not overflow, or overflows to `max` or more. */
  lemma PromiseKeptExactly(base: int, max: int, attempt: nat)
    requires Ceiling(max) < TWO_63
    ensures KeepsPromise(base, max, attempt) <==>
            (EffectiveBase(base) * Pow2(attempt) < TWO_63 || Shifted(base, attempt) >= EffectiveMax(max))
  {
    var exact := EffectiveBase(base) * Pow2(attempt);
    assert exact > 0 by { Positive(EffectiveBase(base), Pow2(attempt)); }
    var d := Min(exact, EffectiveMax(max));
    if exact < TWO_63 || Shifted(base, attempt) >= EffectiveMax(max) {
      forall draw: nat
        ensures Delay(base, max, attempt, draw).Some? && d <= Delay(base, max, attempt, draw).value <= d + d / 4
      {
        assert Min(Shifted(base, attempt), EffectiveMax(max)) == d;
        assert 0 <= draw % (d / 4 + 1) <= d / 4;
      }
    } else {
      DelayBounded(base, max, attempt, 0);
      assert Delay(base, max, attempt, 0).None? || Delay(base, max, attempt, 0).value < d;
    }
  }

  lemma Positive(x: int, y: int)
    requires x > 0 && y > 0
    ensures x * y > 0
  {
  }

  lemma Pow2At37()
    ensures Pow2(37) == 0x20_0000_0000
  {
    assert Pow2(8) == 256;
    Pow2Add(8, 8);
    Pow2Add(16, 16);
    assert Pow2(5) == 32;
    Pow2Add(32, 5);
  }

  /** The thirty-ninth shift of the default base is the first to leave an `int64`. */
  lemma DefaultShift(base: int)
    requires EffectiveBase(base) == DEFAULT_BASE
    ensures Shifted(base, 38) == DEFAULT_BASE * 0x40_0000_0000 - TWO_64 <= -4
  {
    Pow2At37();
    assert Pow2(38) == 2 * Pow2(37);
  }

  lemma DefaultShiftFits(base: int, k: nat)
    requires EffectiveBase(base) == DEFAULT_BASE && k <= 37
    ensures Shifted(base, k) > 0
  {
    Pow2At37();
    Pow2Add(k, 37 - k);
    AtLeast(Pow2(k), Pow2(37 - k));
  }

  lemma AtLeast(x: int, y: int)
    requires x > 0 && y > 0
    ensures x <= x * y
  {
  }

  /** With the default base the thirty-ninth attempt's backoff panics whatever the cap and the random source. */
  lemma DefaultBackoffPanics(base: int, max: int, draw: nat)
    requires EffectiveBase(base) == DEFAULT_BASE
    ensures Delay(base, max, 38, draw).None? && !KeepsPromise(base, max, 38)
  {
    hide Delay, Shifted;
    DefaultShift(base);
    PanicsExactly(base, max, 38, draw);
  }

  lemma {:induction false} Pow2Add(m: nat, n: nat)
    ensures Pow2(m + n) == Pow2(m) * Pow2(n)
  {
    if m > 0 {
      Pow2Add(m - 1, n);
      assert Pow2(m) * Pow2(n) == 2 * (Pow2(m - 1) * Pow2(n));
    }
  }
}
