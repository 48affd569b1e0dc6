/**
 * The pointer and keyboard handlers of the dist4 front end: a hit test over
 * the shared point list and the drag state (`selectedPointId`, `isDragging`,
 * `latestUV`) that pointerdown/move/up and the Space and Z keys update.
 * The callbacks the handlers are given become a `Request` the host carries
 * out.
 */
module EventHandlers {
  import opened Wrappers
  import opened Registry

  /** Hit radius of a point, in uv units. */
  const HitRadius: real := 0.05

  /** `Math.hypot(p.x - uv.x, p.y - uv.y) < 0.05`, squared on both sides. */
  predicate Near(p: Point, uv: UV)
  {
    (p.x - uv.x) * (p.x - uv.x) + (p.y - uv.y) * (p.y - uv.y) < HitRadius * HitRadius
  }

  /**
   * `getPointAtUV(uv)`: the index of the lowest-index point within the hit
   * radius, or `None` when no point is that close.
   */
  method GetPointAtUV(points: seq<Point>, uv: UV) returns (hit: Option<nat>)
    ensures hit.Some? ==> hit.value < |points| && Near(points[hit.value], uv)
    ensures hit.Some? ==> forall j :: 0 <= j < hit.value ==> !Near(points[j], uv)
    ensures hit.None? <==> forall j :: 0 <= j < |points| ==> !Near(points[j], uv)
  {
    for i := 0 to |points|
      invariant forall j :: 0 <= j < i ==> !Near(points[j], uv)
    {
      if Near(points[i], uv) {
        return Some(i);
      }
    }
    return None;
  }

  /** A callback a handler invokes; the host that installed the handlers runs it. */
  datatype Request =
    | NoRequest
    | AddPointAt(uv: UV)          // addPointCallback(latestUV)
    | RemovePointId(id: int)      // removePointCallback(hit.id)
    | ToggleCircles               // toggleCirclesCallback()
    | SpawnAt(uv: UV)             // spawnParticle(latestUV)
    | Redraw                      // updateUniforms(); updateCircles() after a drag step

  /** The keys the keydown handler distinguishes. */
  datatype Key = Space | KeyZ | Other

  /** The closure state of `setupEventHandlers`, over the shared point list. */
  class Handlers {
    const reg: PointList
    var selectedPointId: Option<int>
    var isDragging: bool
    var latestUV: UV

    constructor (reg: PointList)
      ensures this.reg == reg
      ensures selectedPointId == None && !isDragging && latestUV == UV(0.0, 0.0)
    {
      this.reg := reg;
      selectedPointId, isDragging, latestUV := None, false, UV(0.0, 0.0);
    }

    /**
     * pointerdown at `uv`: over a point, start dragging it; elsewhere ask for
     * a new point at `uv` and leave the drag state as it was.
     */
    method PointerDown(uv: UV) returns (req: Request)
      modifies this
      ensures latestUV == uv
      ensures (exists j :: 0 <= j < |reg.points| && Near(reg.points[j], uv)) ==>
        req == NoRequest && isDragging &&
        exists j :: 0 <= j < |reg.points| && Near(reg.points[j], uv) &&
          (forall k :: 0 <= k < j ==> !Near(reg.points[k], uv)) && selectedPointId == Some(reg.points[j].id)
      ensures (forall j :: 0 <= j < |reg.points| ==> !Near(reg.points[j], uv)) ==>
        req == AddPointAt(uv) && isDragging == old(isDragging) && selectedPointId == old(selectedPointId)
    {
      latestUV := uv;
      var hit := GetPointAtUV(reg.points, uv);
      if hit.Some? {
        selectedPointId := Some(reg.points[hit.value].id);
        isDragging := true;
        req := NoRequest;
      } else {
        req := AddPointAt(uv);
      }
    }

    /**
     * pointermove to `uv`: the pointer position is always recorded; while
     * dragging a point that is still in the list, that point moves to `uv`
     * and a redraw is requested.
     */
    method PointerMove(uv: UV) returns (req: Request)
      modifies this, reg
      ensures latestUV == uv
      ensures selectedPointId == old(selectedPointId) && isDragging == old(isDragging)
      ensures reg.points == DragStep(old(reg.points), isDragging, selectedPointId, uv)
      ensures req == (if DragHits(old(reg.points), isDragging, selectedPointId) then Redraw else NoRequest)
    {
      latestUV := uv;
      req := NoRequest;
      if isDragging && selectedPointId.Some? {
        var idx := IndexOfId(reg.points, selectedPointId.value);
        if idx != -1 {
          var p := reg.points[idx];
          reg.points := reg.points[idx := p.(x := uv.x, y := uv.y)];
          req := Redraw;
        }
      }
    }

    /** pointerup: the drag always ends. */
    method PointerUp()
      modifies this
      ensures !isDragging && selectedPointId == None && latestUV == old(latestUV)
    {
      isDragging := false;
      selectedPointId := None;
    }

    /**
     * keydown: Space over a point asks to remove it, Space elsewhere asks to
     * toggle the circles; Z asks for a particle at the last pointer position.
     */
    method KeyDown(key: Key) returns (req: Request)
      ensures key == Space && (exists j :: 0 <= j < |reg.points| && Near(reg.points[j], latestUV)) ==>
        exists j :: 0 <= j < |reg.points| && Near(reg.points[j], latestUV) &&
          (forall k :: 0 <= k < j ==> !Near(reg.points[k], latestUV)) && req == RemovePointId(reg.points[j].id)
      ensures key == Space && (forall j :: 0 <= j < |reg.points| ==> !Near(reg.points[j], latestUV)) ==>
        req == ToggleCircles
      ensures key == KeyZ ==> req == SpawnAt(latestUV)
      ensures key == Other ==> req == NoRequest
    {
      match key {
        case Space =>
          var hit := GetPointAtUV(reg.points, latestUV);
          if hit.Some? {
            req := RemovePointId(reg.points[hit.value].id);
          } else {
            req := ToggleCircles;
          }
        case KeyZ =>
          req := SpawnAt(latestUV);
        case Other =>
          req := NoRequest;
      }
    }
  }

  /** A drag is on and its point is still in the list. */
  predicate DragHits(points: seq<Point>, dragging: bool, selected: Option<int>)
  {
    dragging && selected.Some? && IndexOfId(points, selected.value) != -1
  }

  /** The point list after a pointermove to `uv`. */
  function DragStep(points: seq<Point>, dragging: bool, selected: Option<int>, uv: UV): seq<Point>
  {
    if DragHits(points, dragging, selected) then
      var k := IndexOfId(points, selected.value);
      points[k := points[k].(x := uv.x, y := uv.y)]
    else points
  }

  /**
   * A drag step moves the first point with the selected id to `uv` and
   * changes nothing else; without a drag, or once that point is gone, it
   * changes nothing at all.
   */
  lemma DragMovesOnlySelected(points: seq<Point>, dragging: bool, selected: Option<int>, uv: UV, i: nat)
    requires i < |points|
    ensures var r := DragStep(points, dragging, selected, uv);
      |r| == |points| &&
      (!DragHits(points, dragging, selected) ==> r == points) &&
      (DragHits(points, dragging, selected) ==>
        var k := IndexOfId(points, selected.value);
        points[k].id == selected.value &&
        (i != k ==> r[i] == points[i]) &&
        (i == k ==> r[i] == points[i].(x := uv.x, y := uv.y)))
  {
  }
}
