// The content scale: logical client pixels on one side, host pixels on the other.
// src/output.c, wlx_scale_size and wlx_unscale_size. The scale is taken as a real number.

module Scale {

  function Abs(x: int): nat {
    if x < 0 then -x else x
  }

  // C's lround: to the nearest integer, halves away from zero.
  function Round(x: real): (r: int)
    ensures r as real - 0.5 <= x <= r as real + 0.5
    ensures x >= 0.0 ==> x < r as real + 0.5
    ensures x <= 0.0 ==> r as real - 0.5 < x
  {
    if x >= 0.0 then (x + 0.5).Floor else -((0.5 - x).Floor)
  }

  // A scale that is not positive means "no scaling"; any other result is at least 1.
  function ScaleSize(scale: real, logical: int): (px: int)
    ensures scale > 0.0 ==> px >= 1
  {
    if scale <= 0.0 then logical else
      var v := Round(logical as real * scale);
      if v < 1 then 1 else v
  }

  function UnscaleSize(scale: real, px: int): (logical: int)
    ensures scale > 0.0 ==> logical >= 1
  {
    if scale <= 0.0 then px else
      var v := Round(px as real / scale);
      if v < 1 then 1 else v
  }

  // ---- What the sizes mean ----

  // px is n logical pixels to the nearest host pixel, but at least 1.
  predicate IsScaled(scale: real, n: int, px: int) {
    if scale <= 0.0 then px == n
    else (px as real - 0.5 <= n as real * scale <= px as real + 0.5 && px >= 1) || (px == 1 && n as real * scale < 0.5)
  }

  predicate IsUnscaled(scale: real, px: int, n: int) {
    if scale <= 0.0 then n == px
    else (n as real - 0.5 <= px as real / scale <= n as real + 0.5 && n >= 1) || (n == 1 && px as real / scale < 0.5)
  }

  lemma ScalesToNearest(scale: real, n: int)
    ensures IsScaled(scale, n, ScaleSize(scale, n)) && IsUnscaled(scale, n, UnscaleSize(scale, n))
  {
  }

  // ---- Rounding ----

  // The rounded value is the only integer that close.
  lemma RoundUnique(x: real, n: int)
    requires n as real - 0.5 < x < n as real + 0.5
    ensures Round(x) == n
  {
    var r := Round(x);
    assert (r - n) as real < 1.0 && (n - r) as real < 1.0;
  }

  lemma RoundMonotone(x: real, y: real)
    requires x <= y
    ensures Round(x) <= Round(y)
  {
  }

  // The products are named so that each nonlinear fact is met only once.
  lemma MulMonotone(a: real, b: real, s: real, pa: real, pb: real)
    requires a <= b && s >= 0.0
    requires pa == a * s && pb == b * s
    ensures pa <= pb
  {
    assert (b - a) * s >= 0.0;
  }

  lemma DivThenMul(p: real, s: real)
    requires s > 0.0
    ensures p / s * s == p
  {
  }

  // The error d of a rounded logical size costs d * s host pixels.
  lemma ErrorScaled(d: real, s: real, p: real)
    requires s > 0.0 && p == d * s
    requires -0.5 <= d <= 0.5
    ensures -0.5 * s <= p <= 0.5 * s
  {
    MulMonotone(d, 0.5, s, p, 0.5 * s);
    MulMonotone(-0.5, d, s, -0.5 * s, p);
  }

  lemma ScaleMonotone(scale: real, a: int, b: int)
    requires a <= b
    ensures ScaleSize(scale, a) <= ScaleSize(scale, b)
  {
    hide Round;
    if scale > 0.0 {
      var x, y := a as real * scale, b as real * scale;
      MulMonotone(a as real, b as real, scale, x, y);
      RoundMonotone(x, y);
    }
  }

  // ---- Round trip from the client's side: logical -> host -> logical ----

  predicate RoundTrips(scale: real, n: int) {
    UnscaleSize(scale, ScaleSize(scale, n)) == n
  }

  lemma RoundTripsWhenEnlarging(scale: real, n: int)
    requires scale >= 1.0 || scale <= 0.0
    requires n >= 1
    ensures RoundTrips(scale, n)
  {
    hide Round;
    if scale > 0.0 {
      var x := n as real * scale;
      var v := Round(x);
      MulMonotone(1.0, n as real, scale, scale, x);
      ScaleIs(scale, n, x);
      if scale == 1.0 { RoundUnique(x, n); }
      NearAfterDivision(n as real, scale, x, v as real);
      RoundUnique(v as real / scale, n);
    }
  }

  lemma ScaleIs(scale: real, n: int, x: real)
    requires scale > 0.0 && x == n as real * scale && x >= 1.0
    ensures ScaleSize(scale, n) == Round(x)
  {
  }

  lemma NearAfterDivision(n: real, s: real, x: real, v: real)
    requires s >= 1.0 && x == n * s
    requires v - 0.5 <= x <= v + 0.5
    requires s == 1.0 ==> v == x
    ensures n - 0.5 < v / s < n + 0.5
  {
    var q := v / s;
    DivThenMul(v, s);
    var d := q - n;
    assert d * s == v - x;
    if d >= 0.5 {
      MulMonotone(0.5, d, s, 0.5 * s, v - x);
    } else if d <= -0.5 {
      MulMonotone(d, -0.5, s, v - x, -0.5 * s);
    }
  }

  // Injectivity forces growth: k steps up in the logical size are k host pixels.
  lemma {:induction false} GrowsByOne(scale: real, k: nat)
    requires forall n: int :: n >= 1 ==> RoundTrips(scale, n)
    ensures ScaleSize(scale, 1 + k) >= ScaleSize(scale, 1) + k
  {
    if k > 0 {
      GrowsByOne(scale, k - 1);
      ScaleMonotone(scale, k, 1 + k);
      assert RoundTrips(scale, k) && RoundTrips(scale, k + 1);
    }
  }

  // Enough steps of e pass 2.
  lemma Archimedes(e: real) returns (n: nat, p: real)
    requires e > 0.0
    ensures p == n as real * e && p > 2.0
  {
    var q := 2.0 / e;
    DivThenMul(2.0, e);
    assert q > 0.0;
    n := q.Floor + 1;
    p := n as real * e;
    StrictProduct(q, n as real, e, 2.0, p);
  }

  lemma StrictProduct(a: real, b: real, s: real, pa: real, pb: real)
    requires a < b && s > 0.0
    requires pa == a * s && pb == b * s
    ensures pa < pb
  {
    assert (b - a) * s > 0.0;
  }

  // Steps of s and steps of t drift apart by the steps of their difference.
  lemma StepsApart(n: real, s: real, t: real, a: real, e: real, p: real)
    requires e == t - s && p == n * e
    ensures (a + n) * s == a * s + n * t - p
  {
    assert n * (t - s) == n * t - n * s;
  }

  lemma ShrinkingLosesSizes(scale: real)
    requires 0.0 < scale < 1.0
    ensures exists n: int :: n >= 1 && !RoundTrips(scale, n)
  {
    var e := 1.0 - scale;
    var k, p := Archimedes(e);
    StepsApart(k as real, scale, 1.0, 1.0, e, p);
    ScaleBelow(scale, 1 + k, k - 1);
    if forall n: int :: n >= 1 ==> RoundTrips(scale, n) {
      GrowsByOne(scale, k);
      assert false;
    }
  }

  lemma ScaleBelow(scale: real, n: int, bound: int)
    requires scale > 0.0 && n as real * scale < bound as real
    ensures ScaleSize(scale, n) <= bound || ScaleSize(scale, n) == 1
  {
  }

  // Unscale undoes scale on every size exactly when the scale does not shrink.
  lemma RoundTripExactly(scale: real)
    ensures (forall n: int :: n >= 1 ==> RoundTrips(scale, n)) <==> (scale >= 1.0 || scale <= 0.0)
  {
    if scale >= 1.0 || scale <= 0.0 {
      forall n: int | n >= 1
        ensures RoundTrips(scale, n)
      {
        RoundTripsWhenEnlarging(scale, n);
      }
    } else {
      ShrinkingLosesSizes(scale);
    }
  }

  // ---- Round trip from the host's side: host -> logical -> host ----

  const MIN_OUTPUT_SIZE: int := 32

  // The host size survives a round trip up to the 1px that surface_commit tolerates.
  predicate HostSizeStable(scale: real, px: int) {
    Abs(ScaleSize(scale, UnscaleSize(scale, px)) - px) <= 1
  }

  lemma StableUpToThree(scale: real, px: int)
    requires scale <= 3.0
    requires px >= MIN_OUTPUT_SIZE
    ensures HostSizeStable(scale, px)
  {
    if scale > 0.0 {
      var v := Round(px as real / scale);
      HostError(scale, px as real, px as real / scale, v as real, v as real * scale);
      if scale == 3.0 { RoundOfWhole(v as real * scale, 3 * v); }
      RoundWithin(v as real * scale, px);
    }
  }

  lemma HostError(s: real, host: real, q: real, v: real, x: real)
    requires 0.0 < s <= 3.0 && host >= 32.0 && q == host / s && x == v * s
    requires v - 0.5 <= q <= v + 0.5
    ensures q >= 1.0 && host - 0.5 * s <= x <= host + 0.5 * s
  {
    DivThenMul(host, s);
    if q < 1.0 { MulMonotone(q, 1.0, s, host, s); }
    assert (v - q) * s == x - host;
    ErrorScaled(v - q, s, x - host);
  }

  // An error below 1.5, or a whole number at most 1.5 away, rounds to a neighbour.
  lemma RoundWithin(x: real, px: int)
    requires px as real - 1.5 < x < px as real + 1.5 || (x == Round(x) as real && px as real - 1.5 <= x <= px as real + 1.5)
    ensures Abs(Round(x) - px) <= 1
  {
  }

  lemma RoundOfWhole(x: real, n: int)
    requires x == n as real
    ensures Round(x) == n
  {
  }

  // Stability bounds every gap between two neighbouring host sizes that scale reaches.
  lemma NoWideGap(scale: real, v: int)
    requires scale > 0.0
    requires forall px: int :: px >= MIN_OUTPUT_SIZE ==> HostSizeStable(scale, px)
    requires v >= 1 && ScaleSize(scale, v) >= MIN_OUTPUT_SIZE
    ensures ScaleSize(scale, v + 1) <= ScaleSize(scale, v) + 3
  {
    var lo, hi := ScaleSize(scale, v), ScaleSize(scale, v + 1);
    if hi > lo + 3 {
      var m := lo + 2;
      assert HostSizeStable(scale, m);
      var u := UnscaleSize(scale, m);
      if u <= v {
        ScaleMonotone(scale, u, v);
      } else {
        ScaleMonotone(scale, v + 1, u);
      }
      assert false;
    }
  }

  lemma {:induction false} GrowsByThreeAtMost(scale: real, v: int, k: nat)
    requires scale > 0.0
    requires forall px: int :: px >= MIN_OUTPUT_SIZE ==> HostSizeStable(scale, px)
    requires v >= 1 && ScaleSize(scale, v) >= MIN_OUTPUT_SIZE
    ensures ScaleSize(scale, v + k) <= ScaleSize(scale, v) + 3 * k
  {
    if k > 0 {
      GrowsByThreeAtMost(scale, v, k - 1);
      ScaleMonotone(scale, v, v + k - 1);
      NoWideGap(scale, v + k - 1);
    }
  }

  lemma UnstableBeyondThree(scale: real)
    requires scale > 3.0
    ensures exists px: int :: px >= MIN_OUTPUT_SIZE && !HostSizeStable(scale, px)
  {
    var v, e := 32, 3.0 - scale;
    var k, p := Archimedes(-e);
    StepsApart(k as real, scale, 3.0, v as real, e, -p);
    ScaleApart(scale, v, v + k, 3 * k);
    if forall px: int :: px >= MIN_OUTPUT_SIZE ==> HostSizeStable(scale, px) {
      GrowsByThreeAtMost(scale, v, k);
      assert false;
    }
  }

  lemma ScaleApart(scale: real, a: int, b: int, d: nat)
    requires scale > 3.0 && a >= 32
    requires b as real * scale > a as real * scale + d as real + 2.0
    ensures 32 <= ScaleSize(scale, a) < ScaleSize(scale, b) - d
  {
    MulMonotone(3.0, scale, a as real, 3.0 * a as real, a as real * scale);
  }

  // The hysteresis of surface_commit covers every host size exactly up to scale 3.
  lemma HysteresisCoversRounding(scale: real)
    ensures (forall px: int :: px >= MIN_OUTPUT_SIZE ==> HostSizeStable(scale, px)) <==> scale <= 3.0
  {
    if scale <= 3.0 {
      forall px: int | px >= MIN_OUTPUT_SIZE
        ensures HostSizeStable(scale, px)
      {
        StableUpToThree(scale, px);
      }
    } else {
      UnstableBeyondThree(scale);
    }
  }

  // A host window 34 pixels wide at scale 4 comes back as 36.
  lemma ScaleFourWitness()
    ensures ScaleSize(4.0, UnscaleSize(4.0, 34)) == 36
  {
    assert 34 as real / 4.0 == 8.5;
  }
}
