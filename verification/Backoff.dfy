/** Capped exponential backoff with full jitter (internal/publisher/backoff.go). Durations are
    integer nanoseconds; the float64 arithmetic in between is done over the reals. */
module Backoff {
  import opened Common

  function Power(b: real, n: nat): real { if n == 0 then 1.0 else Power(b, n - 1) * b }

  /** The capped exponential after `attempt` failures. */
  function Envelope(base: int, max: int, attempt: nat): real {
    var exp := base as real * Power(2.0, attempt);
    if exp > max as real then max as real else exp
  }

  function Scaled(jitter: real, envelope: real): int { (jitter * envelope).Floor }

  function Wait(base: int, max: int, attempt: nat, jitter: real): int {
    var d := Scaled(jitter, Envelope(base, max, attempt));
    var atLeast := if d < base then base else d;
    if atLeast > max then max else atLeast
  }

  class Backoff {
    const base: int
    const max: int
    var attempt: nat

    /** Non-positive bounds fall back to 1s and 5m, and max is never below base. */
    constructor (base: int, max: int)
      ensures 0 < this.base <= this.max && attempt == 0
      ensures base > 0 ==> this.base == base
      ensures base <= 0 ==> this.base == 1_000_000_000
      ensures max <= 0 ==> this.max == Max(300_000_000_000, this.base)
      ensures 0 < max < this.base ==> this.max == this.base
      ensures this.max >= max && (max >= base > 0 ==> this.max == max)
    {
      var b := if base <= 0 then SECOND else base;
      var m := if max <= 0 then 5 * 60 * SECOND else max;
      this.base := b;
      this.max := if m < b then b else m;
      attempt := 0;
    }

    method Pow(b: real, exp: nat) returns (out: real)
      ensures out == Power(b, exp)
    {
      out := 1.0;
      for i := 0 to exp
        invariant out == Power(b, i)
      {
        out := out * b;
      }
    }

    method Next(jitter: real) returns (d: int)
      requires base <= max
      modifies this
      ensures attempt == old(attempt) + 1
      ensures d == Wait(base, max, old(attempt), jitter) && base <= d <= max
    {
      var power := Pow(2.0, attempt);
      var capped := base as real * power;
      if capped > max as real { capped := max as real; }
      attempt := attempt + 1;
      d := (jitter * capped).Floor;
      if d < base { d := base; }
      if d > max { d := max; }
    }

    method Reset()
      modifies this
      ensures attempt == 0
    {
      attempt := 0;
    }
  }

  // ---------------------------------------------------------------- laws

  lemma {:induction false} PowerOutgrows(n: nat)
    ensures Power(2.0, n) >= (n + 1) as real
  {
    if n > 0 { PowerOutgrows(n - 1); }
  }

  lemma TimesMonotone(x: real, a: real, b: real)
    requires x >= 0.0 && a <= b
    ensures x * a <= x * b
  {
    assert x * (b - a) >= 0.0;
  }

  lemma ScaledFloor(x: real, e: real)
    requires 0.0 <= x < 1.0 && e >= 0.0
    ensures Scaled(x, e) as real <= e
  {
    TimesMonotone(e, x, 1.0);
    assert x * e == e * x;
    var y := x * e;
    assert y.Floor as real <= y;
  }

  lemma EnvelopeBounds(base: int, max: int, attempt: nat)
    requires 0 < base <= max
    ensures base as real <= Envelope(base, max, attempt) <= max as real
  {
    PowerOutgrows(attempt);
    var p := Power(2.0, attempt);
    TimesMonotone(base as real, 1.0, p);
    assert base as real * 1.0 == base as real;
    assert base as real * p >= base as real;
  }

  /** A retry is never instant and never later than max, it stays within the envelope, and it is the jittered
      part of the envelope to the nanosecond, unless that part is below base. */
  lemma WaitBounds(base: int, max: int, attempt: nat, jitter: real)
    requires 0 < base <= max && 0.0 <= jitter < 1.0
    ensures base <= Wait(base, max, attempt, jitter) <= max
    ensures Wait(base, max, attempt, jitter) as real <= Envelope(base, max, attempt)
    ensures Wait(base, max, attempt, jitter) as real > jitter * Envelope(base, max, attempt) - 1.0
    ensures Wait(base, max, attempt, jitter) == base
            || Wait(base, max, attempt, jitter) as real <= jitter * Envelope(base, max, attempt)
  {
    var e := Envelope(base, max, attempt);
    EnvelopeBounds(base, max, attempt);
    ScaledFloor(jitter, e);
    FloorClose(jitter * e);
    hide Envelope;
    assert Scaled(jitter, e) == (jitter * e).Floor;
    hide Scaled;
  }

  lemma FloorClose(y: real)
    ensures y - 1.0 < y.Floor as real <= y
  {
  }

  /** The envelope begins at base and doubles with every failure until it reaches max. */
  lemma EnvelopeDoubles(base: int, max: int, attempt: nat)
    requires 0 < base <= max
    ensures Envelope(base, max, 0) == base as real
    ensures Envelope(base, max, attempt + 1)
         == if 2.0 * Envelope(base, max, attempt) > max as real then max as real else 2.0 * Envelope(base, max, attempt)
  {
    var p := Power(2.0, attempt);
    assert Power(2.0, attempt + 1) == p * 2.0;
    assert base as real * (p * 2.0) == 2.0 * (base as real * p);
  }

  lemma EnvelopeStep(base: int, max: int, a: nat)
    requires 0 < base <= max
    ensures Envelope(base, max, a) <= Envelope(base, max, a + 1)
  {
    PowerOutgrows(a);
    var p := Power(2.0, a);
    assert Power(2.0, a + 1) == p * 2.0;
    TimesMonotone(base as real, p, p * 2.0);
  }

  lemma {:induction false} EnvelopeGrows(base: int, max: int, a: nat, b: nat)
    requires 0 < base <= max && a <= b
    ensures Envelope(base, max, a) <= Envelope(base, max, b)
  {
    if a < b {
      EnvelopeGrows(base, max, a, b - 1);
      EnvelopeStep(base, max, b - 1);
    }
  }

  /** After finitely many failures in a row the envelope is the cap, and stays there. */
  lemma EnvelopeReachesMax(base: int, max: int, attempt: nat)
    requires 0 < base <= max && attempt >= max
    ensures Envelope(base, max, attempt) == max as real
  {
    PowerOutgrows(attempt);
    var p := Power(2.0, attempt);
    assert p >= max as real;
    TimesMonotone(p, 1.0, base as real);
    assert base as real * p == p * base as real;
  }
}
