/**
 * The stand-alone dist3 front end: a module-level id counter, its own point
 * list and uniforms, the guarded remove, and a pointer state machine in
 * which a click on empty space adds a point on pointerup (not pointerdown)
 * and Space removes the point under the pointer or toggles the circles.
 */
module Dist3 {
  import opened Wrappers
  import opened Registry
  import opened Utils
  import opened ShaderSystem
  import opened EventHandlers
  import opened CommandSemantics

  /** This front end's uniforms agree with the point list. */
  predicate PointUniforms(points: seq<Point>, m: Uniforms)
    reads m
  {
    PackedPoints(points, m.points) && PackedPhases(points, m.phases) && m.pointCount == |points|
  }

  /** The default point the pointerup handler adds at `uv`. */
  function ClickPoint(id: int, uv: UV): Point
  {
    Point(id, uv.x, uv.y, 10.0, 1.0, 0.0, 0.0)
  }

  class Dist3 {
    /** The module-level `nextPointId` and its `createPoint`. */
    const counter: IdCounter
    const reg: PointList
    const material: Uniforms
    var circlesVisible: bool
    var selectedPointId: Option<int>
    var isDragging: bool
    var pointerDownUV: Option<UV>
    var latestUV: UV

    constructor (counter: IdCounter)
      modifies counter
      ensures this.counter == counter && counter.nextId == old(counter.nextId) + 2
      ensures reg.points == [
        Point(old(counter.nextId), 0.3, 0.3, 10.0, 1.0, 0.0, 0.0),
        Point(old(counter.nextId) + 1, 0.7, 0.7, 15.0, 0.8, 1.0, 0.0)]
      ensures PointUniforms(reg.points, material) && material.blendMode == Code(0)
      ensures circlesVisible && selectedPointId == None && !isDragging && pointerDownUV == None
      ensures latestUV == UV(0.0, 0.0) && fresh(reg) && fresh(material)
    {
      var a := counter.CreatePoint(PointSpec(0.3, 0.3, 10.0, 1.0, 0.0, Some(0.0)));
      var b := counter.CreatePoint(PointSpec(0.7, 0.7, 15.0, 0.8, 1.0, Some(0.0)));
      var r := new PointList([a, b]);
      var m := new Uniforms();
      var packed := GetUniformPoints(r.points);
      var phases := GetUniformPhases(r.points);
      m.points, m.phases, m.pointCount := packed, phases, |r.points|;
      this.counter, this.reg, this.material := counter, r, m;
      circlesVisible, selectedPointId, isDragging, pointerDownUV, latestUV := true, None, false, None, UV(0.0, 0.0);
    }

    /** `updatePoints()`. */
    method UpdatePoints()
      modifies material
      ensures PointUniforms(reg.points, material)
      ensures material.blendMode == old(material.blendMode) && material.sumAmp == old(material.sumAmp) && material.mapMode == old(material.mapMode)
    {
      var packed := GetUniformPoints(reg.points);
      var phases := GetUniformPhases(reg.points);
      material.points, material.phases, material.pointCount := packed, phases, |reg.points|;
    }

    /** `removePoint(pointId)`: refused at one point, a no-op for an unknown id, else exactly one point goes. */
    method RemovePoint(id: int)
      modifies reg, material
      ensures reg.points == WithoutId(old(reg.points), id)
      ensures reg.points != old(reg.points) ==> |reg.points| == |old(reg.points)| - 1 && PointUniforms(reg.points, material)
      ensures reg.points == old(reg.points) ==> unchanged(material)
      ensures material.blendMode == old(material.blendMode) && material.sumAmp == old(material.sumAmp) && material.mapMode == old(material.mapMode)
    {
      var removed := reg.RemoveById(id);
      if removed {
        UpdatePoints();
      }
    }

    /** The GUI's "Add Point" button: a default point at the centre. */
    method AddPointButton()
      modifies reg, counter, material
      ensures reg.points == old(reg.points) + [ClickPoint(old(counter.nextId), UV(0.5, 0.5))]
      ensures counter.nextId == old(counter.nextId) + 1
      ensures PointUniforms(reg.points, material)
      ensures material.blendMode == old(material.blendMode) && material.sumAmp == old(material.sumAmp) && material.mapMode == old(material.mapMode)
    {
      var p := counter.CreatePoint(PointSpec(0.5, 0.5, 10.0, 1.0, 0.0, Some(0.0)));
      reg.Push(p);
      UpdatePoints();
    }

    /** The blend-mode dropdown, which offers only the table's names. */
    method SelectBlendMode(name: string)
      requires name in BlendModes
      modifies material
      ensures material.blendMode == Code(BlendModes[name])
      ensures material.points == old(material.points) && material.phases == old(material.phases)
      ensures material.pointCount == old(material.pointCount)
    {
      material.blendMode := Code(BlendModes[name]);
    }

    /** pointerdown at `uv`: a hit starts a drag of that point, a miss clears the drag state. */
    method PointerDown(uv: UV)
      modifies this
      ensures pointerDownUV == Some(uv) && latestUV == uv
      ensures (forall j :: 0 <= j < |reg.points| ==> !Near(reg.points[j], uv)) ==>
        selectedPointId == None && !isDragging
      ensures (exists j :: 0 <= j < |reg.points| && Near(reg.points[j], uv)) ==>
        isDragging &&
        exists j :: 0 <= j < |reg.points| && Near(reg.points[j], uv) &&
          (forall k :: 0 <= k < j ==> !Near(reg.points[k], uv)) && selectedPointId == Some(reg.points[j].id)
      ensures circlesVisible == old(circlesVisible)
    {
      pointerDownUV, latestUV := Some(uv), uv;
      var hit := GetPointAtUV(reg.points, uv);
      if hit.Some? {
        selectedPointId, isDragging := Some(reg.points[hit.value].id), true;
      } else {
        selectedPointId, isDragging := None, false;
      }
    }

    /** pointermove to `uv`: recorded always; while dragging, the selected point follows. */
    method PointerMove(uv: UV)
      modifies this, reg, material
      ensures latestUV == uv
      ensures selectedPointId == old(selectedPointId) && isDragging == old(isDragging)
      ensures reg.points == DragStep(old(reg.points), isDragging, selectedPointId, uv)
      ensures DragHits(old(reg.points), isDragging, selectedPointId) ==> PointUniforms(reg.points, material)
      ensures !DragHits(old(reg.points), isDragging, selectedPointId) ==> unchanged(material)
      ensures circlesVisible == old(circlesVisible)
      ensures material.blendMode == old(material.blendMode) && material.sumAmp == old(material.sumAmp) && material.mapMode == old(material.mapMode)
    {
      latestUV := uv;
      if isDragging && selectedPointId.Some? {
        var idx := IndexOfId(reg.points, selectedPointId.value);
        if idx != -1 {
          var p := reg.points[idx];
          reg.points := reg.points[idx := p.(x := uv.x, y := uv.y)];
          UpdatePoints();
        }
      }
    }

    /**
     * pointerup: a drag only ends; without a drag, a release over empty
     * space adds a default point at the last pointer position.
     */
    method PointerUp()
      modifies this, reg, counter, material
      ensures !isDragging && pointerDownUV == None && latestUV == old(latestUV)
      ensures old(isDragging) ==> selectedPointId == None && reg.points == old(reg.points)
      ensures !old(isDragging) && (forall j :: 0 <= j < |old(reg.points)| ==> !Near(old(reg.points)[j], latestUV)) ==>
        reg.points == old(reg.points) + [ClickPoint(old(counter.nextId), latestUV)] &&
        counter.nextId == old(counter.nextId) + 1 && PointUniforms(reg.points, material)
      ensures !old(isDragging) && (exists j :: 0 <= j < |old(reg.points)| && Near(old(reg.points)[j], latestUV)) ==>
        reg.points == old(reg.points)
      ensures reg.points == old(reg.points) ==> counter.nextId == old(counter.nextId) && unchanged(material)
      ensures !old(isDragging) ==> selectedPointId == old(selectedPointId)
      ensures circlesVisible == old(circlesVisible)
      ensures material.blendMode == old(material.blendMode) && material.sumAmp == old(material.sumAmp) && material.mapMode == old(material.mapMode)
    {
      if isDragging {
        isDragging, selectedPointId := false, None;
      } else {
        var hit := GetPointAtUV(reg.points, latestUV);
        if hit.None? {
          var p := counter.CreatePoint(PointSpec(latestUV.x, latestUV.y, 10.0, 1.0, 0.0, Some(0.0)));
          reg.Push(p);
          UpdatePoints();
        }
      }
      pointerDownUV := None;
    }

    /**
     * Space: over a point, remove it when more than one point exists (else
     * only warn); elsewhere flip the circles' visibility.
     */
    method KeySpace()
      modifies this, reg, material
      ensures (forall j :: 0 <= j < |old(reg.points)| ==> !Near(old(reg.points)[j], latestUV)) ==>
        circlesVisible == !old(circlesVisible) && reg.points == old(reg.points)
      ensures (exists j :: 0 <= j < |old(reg.points)| && Near(old(reg.points)[j], latestUV)) ==>
        circlesVisible == old(circlesVisible) &&
        exists j :: 0 <= j < |old(reg.points)| && Near(old(reg.points)[j], latestUV) &&
          (forall k :: 0 <= k < j ==> !Near(old(reg.points)[k], latestUV)) &&
          reg.points == WithoutId(old(reg.points), old(reg.points)[j].id)
      ensures |old(reg.points)| <= 1 ==> reg.points == old(reg.points)
      ensures reg.points != old(reg.points) ==> PointUniforms(reg.points, material)
      ensures reg.points == old(reg.points) ==> unchanged(material)
      ensures latestUV == old(latestUV) && isDragging == old(isDragging) && selectedPointId == old(selectedPointId)
      ensures material.blendMode == old(material.blendMode) && material.sumAmp == old(material.sumAmp) && material.mapMode == old(material.mapMode)
    {
      var hit := GetPointAtUV(reg.points, latestUV);
      if hit.Some? {
        if |reg.points| > 1 {
          RemovePoint(reg.points[hit.value].id);
        }
      } else {
        circlesVisible := !circlesVisible;
      }
    }

    /** One frame of `delta` seconds: every phase advances, then the uniforms. */
    method Animate(delta: real)
      modifies reg, material
      ensures reg.points == PhasesAdvanced(old(reg.points), delta)
      ensures PointUniforms(reg.points, material)
      ensures material.blendMode == old(material.blendMode) && material.sumAmp == old(material.sumAmp) && material.mapMode == old(material.mapMode)
    {
      reg.AdvancePhases(delta);
      UpdatePoints();
    }
  }
}
