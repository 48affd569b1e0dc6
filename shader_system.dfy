/**
 * The CPU side of the dist4 shader system: packing the registry into the
 * fixed-size uniform arrays the fragment shader reads, and the uniform values
 * the material holds.
 */
module ShaderSystem {
  import opened Registry

  /** Capacity of the `uPoints` / `uPhases` uniform arrays. */
  const UniformSize: nat := 100

  datatype Vec4 = Vec4(x: real, y: real, z: real, w: real)

  /**
   * What the blend-mode uniform holds: a shader code (0..6 in the order add,
   * subtract, multiply, normalize, min, max, average), or a member that a
   * name lookup found on `Object.prototype` instead (`constructor`,
   * `__proto__`), which is not a number at all.
   */
  datatype BlendValue = Code(code: int) | Inherited(key: string)

  /** The uniforms of the shader material that the rest of the program writes. */
  class Uniforms {
    var points: seq<Vec4>
    var phases: seq<real>
    var pointCount: int
    var blendMode: BlendValue
    var sumAmp: real
    /** 0: clip to [-1, 1]; 1: remap to [0, 1]. */
    var mapMode: int

    /** The initial uniform values of `setupShaderSystem`. */
    constructor ()
      ensures points == [] && phases == [] && pointCount == 0
      ensures blendMode == Code(0) && sumAmp == 1.0 && mapMode == 0
    {
      points, phases, pointCount := [], [], 0;
      blendMode, sumAmp, mapMode := Code(0), 1.0, 0;
    }
  }

  /**
   * `arr` is the `uPoints` packing of `points`: exactly `UniformSize`
   * entries; entry `i` holds (x, y, frequency, amplitude) of `points[i]`
   * while there is such a point, zeros after that, so points from index 100
   * on are dropped.
   */
  predicate PackedPoints(points: seq<Point>, arr: seq<Vec4>)
  {
    && |arr| == UniformSize
    && (forall i :: 0 <= i < |points| && i < UniformSize ==>
          arr[i] == Vec4(points[i].x, points[i].y, points[i].frequency, points[i].amplitude))
    && (forall i :: |points| <= i < UniformSize ==> arr[i] == Vec4(0.0, 0.0, 0.0, 0.0))
  }

  /** `arr` is the `uPhases` packing of `points`: the same shape, with `points[i].phase` or 0. */
  predicate PackedPhases(points: seq<Point>, arr: seq<real>)
  {
    && |arr| == UniformSize
    && (forall i :: 0 <= i < |points| && i < UniformSize ==> arr[i] == points[i].phase)
    && (forall i :: |points| <= i < UniformSize ==> arr[i] == 0.0)
  }

  /** The packings are functions of the points: there is exactly one of each. */
  lemma PackingIsDeterminate(points: seq<Point>, a: seq<Vec4>, b: seq<Vec4>, c: seq<real>, d: seq<real>)
    requires PackedPoints(points, a) && PackedPoints(points, b)
    requires PackedPhases(points, c) && PackedPhases(points, d)
    ensures a == b && c == d
  {
    assert forall i :: 0 <= i < UniformSize ==> a[i] == b[i] by {
      forall i | 0 <= i < UniformSize ensures a[i] == b[i] {
        if i < |points| {} else {}
      }
    }
    assert forall i :: 0 <= i < UniformSize ==> c[i] == d[i] by {
      forall i | 0 <= i < UniformSize ensures c[i] == d[i] {
        if i < |points| {} else {}
      }
    }
  }

  /** The packing only looks at the first `UniformSize` points. */
  lemma PackingIgnoresOverflow(points: seq<Point>, extra: seq<Point>, a: seq<Vec4>, c: seq<real>)
    requires |points| >= UniformSize
    ensures PackedPoints(points, a) <==> PackedPoints(points + extra, a)
    ensures PackedPhases(points, c) <==> PackedPhases(points + extra, c)
  {
    var q := points + extra;
    assert forall i :: 0 <= i < UniformSize ==> q[i] == points[i];
  }

  /** `getUniformPoints`: a counted loop pushing one entry per slot. */
  method GetUniformPoints(points: seq<Point>) returns (arr: seq<Vec4>)
    ensures PackedPoints(points, arr)
  {
    arr := [];
    for i := 0 to UniformSize
      invariant |arr| == i
      invariant forall k :: 0 <= k < i && k < |points| ==>
        arr[k] == Vec4(points[k].x, points[k].y, points[k].frequency, points[k].amplitude)
      invariant forall k :: |points| <= k < i ==> arr[k] == Vec4(0.0, 0.0, 0.0, 0.0)
    {
      if i < |points| {
        var p := points[i];
        arr := arr + [Vec4(p.x, p.y, p.frequency, p.amplitude)];
      } else {
        arr := arr + [Vec4(0.0, 0.0, 0.0, 0.0)];
      }
    }
  }

  /** `getUniformPhases`: the same loop over the phases. */
  method GetUniformPhases(points: seq<Point>) returns (arr: seq<real>)
    ensures PackedPhases(points, arr)
  {
    arr := [];
    for i := 0 to UniformSize
      invariant |arr| == i
      invariant forall k :: 0 <= k < i && k < |points| ==> arr[k] == points[k].phase
      invariant forall k :: |points| <= k < i ==> arr[k] == 0.0
    {
      if i < |points| {
        arr := arr + [points[i].phase];
      } else {
        arr := arr + [0.0];
      }
    }
  }
}
