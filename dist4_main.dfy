/**
 * `main_dist4`, the older dist4 entry point: its own starting points, its
 * point callbacks (no amplitude normalisation in its uniform update) and
 * its animation frame.
 */
module Dist4Main {
  import opened Wrappers
  import opened Registry
  import opened Utils
  import opened ShaderSystem
  import opened ParticleSystem

  /** This entry point's uniforms agree with the point list (it never writes `uSumAmp`). */
  predicate PointUniforms(points: seq<Point>, m: Uniforms)
    reads m
  {
    PackedPoints(points, m.points) && PackedPhases(points, m.phases) && m.pointCount == |points|
  }

  class Dist4 {
    const reg: PointList
    const ids: IdCounter
    const material: Uniforms
    const psys: ParticleSystem
    var circlesVisible: bool

    /** The two starting wave sources, then the first uniform update. */
    constructor (ids: IdCounter)
      modifies ids
      ensures this.ids == ids && ids.nextId == old(ids.nextId) + 2
      ensures reg.points == [
        Point(old(ids.nextId), 0.3, 0.3, 10.0, 1.0, 0.0, 0.0),
        Point(old(ids.nextId) + 1, 0.7, 0.7, 15.0, 0.8, 1.0, 0.0)]
      ensures PointUniforms(reg.points, material) && material.sumAmp == 1.0
      ensures circlesVisible && fresh(reg) && fresh(material) && fresh(psys)
    {
      var a := ids.CreatePoint(PointSpec(0.3, 0.3, 10.0, 1.0, 0.0, Some(0.0)));
      var b := ids.CreatePoint(PointSpec(0.7, 0.7, 15.0, 0.8, 1.0, Some(0.0)));
      var r := new PointList([a, b]);
      var m := new Uniforms();
      var packed := GetUniformPoints(r.points);
      var phases := GetUniformPhases(r.points);
      m.points, m.phases, m.pointCount := packed, phases, |r.points|;
      var ps := new ParticleSystem();
      this.reg, this.ids, this.material, this.psys := r, ids, m, ps;
      circlesVisible := true;
    }

    /** `updateUniforms()`: packed points, packed phases, point count. */
    method UpdateUniforms()
      modifies material
      ensures PointUniforms(reg.points, material)
      ensures material.blendMode == old(material.blendMode) && material.sumAmp == old(material.sumAmp) && material.mapMode == old(material.mapMode)
    {
      var packed := GetUniformPoints(reg.points);
      var phases := GetUniformPhases(reg.points);
      material.points, material.phases, material.pointCount := packed, phases, |reg.points|;
    }

    /** `addPointCallback(uv)`: one point at `uv` with frequency 10, amplitude 1, phase 0, phase speed 0. */
    method AddPointCallback(uv: UV) returns (p: Point)
      modifies reg, ids, material
      ensures p == Point(old(ids.nextId), uv.x, uv.y, 10.0, 1.0, 0.0, 0.0)
      ensures reg.points == old(reg.points) + [p] && ids.nextId == old(ids.nextId) + 1
      ensures PointUniforms(reg.points, material)
      ensures material.blendMode == old(material.blendMode) && material.sumAmp == old(material.sumAmp) && material.mapMode == old(material.mapMode)
    {
      p := ids.CreatePoint(PointSpec(uv.x, uv.y, 10.0, 1.0, 0.0, Some(0.0)));
      reg.Push(p);
      UpdateUniforms();
    }

    /** `removePointCallback(id)`: refused at one point, a no-op for an unknown id. */
    method RemovePointCallback(id: int)
      modifies reg, material
      ensures reg.points == WithoutId(old(reg.points), id)
      ensures reg.points != old(reg.points) ==> PointUniforms(reg.points, material)
      ensures reg.points == old(reg.points) ==> unchanged(material)
      ensures material.blendMode == old(material.blendMode) && material.sumAmp == old(material.sumAmp) && material.mapMode == old(material.mapMode)
    {
      var removed := reg.RemoveById(id);
      if removed {
        UpdateUniforms();
      }
    }

    /** `toggleCircles()`. */
    method ToggleCircles()
      modifies this
      ensures circlesVisible == !old(circlesVisible)
    {
      circlesVisible := !circlesVisible;
    }

    /** One frame of `delta` seconds: phases, uniforms, particles. */
    method Animate(delta: real, gradient: (Vec2, seq<Point>) -> Vec2)
      modifies reg, material, psys
      ensures reg.points == PhasesAdvanced(old(reg.points), delta)
      ensures PointUniforms(reg.points, material)
      ensures |psys.particles| == |old(psys.particles)|
      ensures forall i :: 0 <= i < |psys.particles| ==>
        psys.particles[i] == Step(old(psys.particles)[i], psys.forceEffect,
          gradient(old(psys.particles)[i].position, reg.points), delta)
      ensures psys.forceEffect == old(psys.forceEffect)
      ensures material.blendMode == old(material.blendMode) && material.sumAmp == old(material.sumAmp) && material.mapMode == old(material.mapMode)
    {
      reg.AdvancePhases(delta);
      UpdateUniforms();
      psys.UpdateParticles(delta, reg.points, gradient);
    }
  }
}
