/**
 * Helpers of the dist4 front end: point creation with a process-wide id
 * counter, and the two interpolation functions used by the field code.
 */
module Utils {
  import opened Wrappers
  import opened Registry

  /** The argument object of `createPoint`; an absent `phaseSpeed` is `None`. */
  datatype PointSpec = PointSpec(x: real, y: real, frequency: real, amplitude: real, phase: real, phaseSpeed: Option<real>)

  /** The static counter that `createPoint` keeps on itself (starts at 0, only increases). */
  class IdCounter {
    var nextId: nat

    constructor ()
      ensures nextId == 0
    {
      nextId := 0;
    }

    /**
     * `createPoint(spec)`: the point takes the current counter value as id and
     * copies the five given fields verbatim; `phaseSpeed` defaults to 0.
     */
    method CreatePoint(spec: PointSpec) returns (p: Point)
      modifies this
      ensures p.id == old(nextId) && nextId == old(nextId) + 1
      ensures p.x == spec.x && p.y == spec.y && p.frequency == spec.frequency
      ensures p.amplitude == spec.amplitude && p.phase == spec.phase
      ensures p.phaseSpeed == (if spec.phaseSpeed.Some? then spec.phaseSpeed.value else 0.0)
    {
      p := Point(nextId, spec.x, spec.y, spec.frequency, spec.amplitude, spec.phase, if spec.phaseSpeed.Some? then spec.phaseSpeed.value else 0.0);
      nextId := nextId + 1;
    }
  }

  /** Linear interpolation `a * (1 - t) + b * t`. */
  function Mix(a: real, b: real, t: real): (r: real)
    ensures t == 0.0 ==> r == a
    ensures t == 1.0 ==> r == b
  {
    a * (1.0 - t) + b * t
  }

  /** For `t` in [0, 1] the interpolation stays between its two ends. */
  lemma MixBetween(a: real, b: real, t: real)
    requires 0.0 <= t <= 1.0
    ensures a <= b ==> a <= Mix(a, b, t) <= b
    ensures b <= a ==> b <= Mix(a, b, t) <= a
  {
    if a <= b {
      MixRising(a, b, t);
    } else {
      MixSwap(a, b, t);
      MixRising(b, a, 1.0 - t);
    }
  }

  lemma MixRising(a: real, b: real, t: real)
    requires 0.0 <= t <= 1.0 && a <= b
    ensures a <= Mix(a, b, t) <= b
  {
    MixOffset(a, b, t);
    MulBounds(t, b - a);
  }

  /** Interpolating from `a` to `b` by `t` is interpolating from `b` to `a` by `1 - t`. */
  lemma MixSwap(a: real, b: real, t: real)
    ensures Mix(a, b, t) == Mix(b, a, 1.0 - t)
  {
  }

  /** The interpolation is the start plus the fraction `t` of the way to the end. */
  lemma MixOffset(a: real, b: real, t: real)
    ensures Mix(a, b, t) == a + t * (b - a)
  {
  }

  lemma MulBounds(t: real, d: real)
    requires 0.0 <= t <= 1.0 && 0.0 <= d
    ensures 0.0 <= t * d <= d
  {
    assert d - t * d == (1.0 - t) * d;
  }

  /**
   * The repository's falling `smoothstep`: 1 up to `edge1`, 0 from `edge0` on,
   * a straight line in between. The `x <= edge1` test comes first.
   */
  function Smoothstep(edge0: real, edge1: real, x: real): (r: real)
    ensures x <= edge1 ==> r == 1.0
    ensures edge1 < x && edge0 <= x ==> r == 0.0
  {
    if x <= edge1 then 1.0
    else if x >= edge0 then 0.0
    else (edge0 - x) / (edge0 - edge1)
  }

  /** Between the two edges the result interpolates linearly from 1 at `edge1` to 0 at `edge0`. */
  lemma SmoothstepIsRamp(edge0: real, edge1: real, x: real)
    requires edge1 < x < edge0
    ensures Smoothstep(edge0, edge1, x) == Mix(1.0, 0.0, (x - edge1) / (edge0 - edge1))
  {
    var w := edge0 - edge1;
    var u := (x - edge1) / w;
    assert u * w == x - edge1;
    assert (1.0 - u) * w == edge0 - x;
    DivUnique(edge0 - x, 1.0 - u, w);
  }

  /** With `edge1 < edge0` the result lies in [0, 1]. */
  lemma SmoothstepInUnit(edge0: real, edge1: real, x: real)
    requires edge1 < edge0
    ensures 0.0 <= Smoothstep(edge0, edge1, x) <= 1.0
  {
    if edge1 < x < edge0 {
      var w := edge0 - edge1;
      assert 0.0 < edge0 - x < w;
      DivBounds(edge0 - x, w);
    }
  }

  lemma DivBounds(n: real, w: real)
    requires 0.0 < n < w
    ensures 0.0 < n / w < 1.0
  {
    var q := n / w;
    assert q * w == n;
    assert (1.0 - q) * w == w - n;
    PosFactor(1.0 - q, w);
    PosFactor(q, w);
  }

  lemma PosFactor(a: real, w: real)
    requires w > 0.0 && a * w > 0.0
    ensures a > 0.0
  {
  }

  lemma DivUnique(a: real, c: real, w: real)
    requires w != 0.0 && a == c * w
    ensures a / w == c
  {
  }

  /** With `edge1 < edge0` the result never increases as `x` grows. */
  lemma SmoothstepNonIncreasing(edge0: real, edge1: real, x1: real, x2: real)
    requires edge1 < edge0 && x1 <= x2
    ensures Smoothstep(edge0, edge1, x2) <= Smoothstep(edge0, edge1, x1)
  {
    SmoothstepInUnit(edge0, edge1, x1);
    SmoothstepInUnit(edge0, edge1, x2);
    if edge1 < x1 && x2 < edge0 {
      var w := edge0 - edge1;
      assert (edge0 - x2) / w <= (edge0 - x1) / w by {
        assert (edge0 - x1) / w - (edge0 - x2) / w == (x2 - x1) / w;
        assert (x2 - x1) / w >= 0.0;
      }
    }
  }

  /** With `edge0 <= edge1` there is no ramp: the result is a step at `edge1`. */
  lemma SmoothstepDegenerate(edge0: real, edge1: real, x: real)
    requires edge0 <= edge1
    ensures Smoothstep(edge0, edge1, x) == if x <= edge1 then 1.0 else 0.0
  {
  }
}
