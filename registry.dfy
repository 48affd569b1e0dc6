/**
 * The point registry shared by every front end: the wave sources ("points"),
 * the array that holds them, and the operations every front end performs on
 * it (append, remove-by-id with the last-point guard, per-frame phase advance).
 */
module Registry {

  /** A wave source; `id` is assigned at creation. */
  datatype Point = Point(id: int, x: real, y: real, frequency: real, amplitude: real, phase: real, phaseSpeed: real)

  /** A position in normalised (uv) domain coordinates. */
  datatype UV = UV(x: real, y: real)

  /** The index `Array.prototype.findIndex(p => p.id === id)` returns: the first match, or -1. */
  function IndexOfId(s: seq<Point>, id: int): (k: int)
    ensures -1 <= k < |s|
    ensures k == -1 <==> forall i :: 0 <= i < |s| ==> s[i].id != id
    ensures k >= 0 ==> s[k].id == id && forall i :: 0 <= i < k ==> s[i].id != id
  {
    if s == [] then -1
    else if s[0].id == id then 0
    else
      var k := IndexOfId(s[1..], id);
      if k == -1 then -1 else k + 1
  }

  /**
   * The registry after `removePoint(id)`: nothing happens when at most one
   * point is left or when no point has that id; otherwise the first point with
   * that id is spliced out.
   */
  function WithoutId(s: seq<Point>, id: int): (r: seq<Point>)
    ensures |s| >= 1 ==> |r| >= 1
  {
    if |s| <= 1 then s
    else
      var k := IndexOfId(s, id);
      if k == -1 then s else s[..k] + s[k+1..]
  }

  /**
   * `removePoint(id)` leaves the registry alone at one point or fewer and for
   * an id nobody has; otherwise it removes exactly the first point with that
   * id and keeps the order of the others.
   */
  lemma WithoutIdSpec(s: seq<Point>, id: int)
    ensures |s| <= 1 ==> WithoutId(s, id) == s
    ensures (forall i :: 0 <= i < |s| ==> s[i].id != id) ==> WithoutId(s, id) == s
    ensures |s| > 1 && (exists i :: 0 <= i < |s| && s[i].id == id) ==>
      exists k :: 0 <= k < |s| && s[k].id == id && (forall i :: 0 <= i < k ==> s[i].id != id) &&
        WithoutId(s, id) == s[..k] + s[k+1..]
  {
    if |s| > 1 {
      var k := IndexOfId(s, id);
      if k != -1 {
        assert WithoutId(s, id) == s[..k] + s[k+1..];
      }
    }
  }

  /** No two points share an id. */
  predicate UniqueIds(s: seq<Point>)
  {
    forall i, j :: 0 <= i < j < |s| ==> s[i].id != s[j].id
  }

  /** Removing an id that is present exactly once shrinks the registry by one and keeps the ids unique. */
  lemma WithoutUniqueId(s: seq<Point>, k: nat)
    requires UniqueIds(s) && k < |s| && |s| > 1
    ensures WithoutId(s, s[k].id) == s[..k] + s[k+1..]
    ensures |WithoutId(s, s[k].id)| == |s| - 1
    ensures UniqueIds(WithoutId(s, s[k].id))
    ensures forall i :: 0 <= i < |WithoutId(s, s[k].id)| ==> WithoutId(s, s[k].id)[i].id != s[k].id
  {
    var id := s[k].id;
    var j := IndexOfId(s, id);
    assert j == k;
    var r := s[..k] + s[k+1..];
    assert WithoutId(s, id) == r;
    assert forall i :: 0 <= i < |r| ==> r[i] == if i < k then s[i] else s[i + 1];
  }

  /** One animation frame: every point's phase advances by `phaseSpeed * dt`. */
  function PhasesAdvanced(s: seq<Point>, dt: real): (r: seq<Point>)
    ensures |r| == |s|
  {
    seq(|s|, i requires 0 <= i < |s| => s[i].(phase := s[i].phase + s[i].phaseSpeed * dt))
  }

  /** A frame changes nothing but the phases, and the order of the points is kept. */
  lemma PhaseAdvanceOnlyTouchesPhase(s: seq<Point>, dt: real, i: nat)
    requires i < |s|
    ensures var p, q := s[i], PhasesAdvanced(s, dt)[i];
      q.id == p.id && q.x == p.x && q.y == p.y && q.frequency == p.frequency &&
      q.amplitude == p.amplitude && q.phaseSpeed == p.phaseSpeed &&
      q.phase == p.phase + p.phaseSpeed * dt
  {
  }

  /** Two frames of `a` and `b` seconds advance the phases as one frame of `a + b` seconds. */
  lemma PhaseAdvanceAdditive(s: seq<Point>, a: real, b: real)
    ensures PhasesAdvanced(PhasesAdvanced(s, a), b) == PhasesAdvanced(s, a + b)
  {
    var l, r := PhasesAdvanced(PhasesAdvanced(s, a), b), PhasesAdvanced(s, a + b);
    forall i | 0 <= i < |s| ensures l[i] == r[i] {
      assert s[i].phaseSpeed * a + s[i].phaseSpeed * b == s[i].phaseSpeed * (a + b);
    }
  }

  /** The mutable `points` array shared between a front end, its event handlers and the interpreter. */
  class PointList {
    var points: seq<Point>

    constructor (init: seq<Point>)
      ensures points == init
    {
      points := init;
    }

    /** `points.push(p)`. */
    method Push(p: Point)
      modifies this
      ensures points == old(points) + [p]
    {
      points := points + [p];
    }

    /** `const [gone] = points.splice(k, 1)` for an index that holds a point. */
    method SpliceOut(k: nat) returns (gone: Point)
      requires k < |points|
      modifies this
      ensures gone == old(points)[k]
      ensures points == old(points)[..k] + old(points)[k + 1..]
    {
      gone := points[k];
      points := points[..k] + points[k + 1..];
    }

    /** The findIndex/splice body of `removePoint(id)`, with its last-point guard. */
    method RemoveById(id: int) returns (removed: bool)
      modifies this
      ensures points == WithoutId(old(points), id)
      ensures removed <==> |old(points)| > 1 && exists i :: 0 <= i < |old(points)| && old(points)[i].id == id
      ensures removed ==> |points| == |old(points)| - 1
      ensures !removed ==> points == old(points)
    {
      WithoutIdSpec(points, id);
      if |points| <= 1 {
        removed := false;
        return;
      }
      var k := IndexOfId(points, id);
      removed := k != -1;
      if removed {
        points := points[..k] + points[k+1..];
      }
    }

    /** `points.forEach(p => p.phase += p.phaseSpeed * dt)`. */
    method AdvancePhases(dt: real)
      modifies this
      ensures points == PhasesAdvanced(old(points), dt)
    {
      var i := 0;
      while i < |points|
        invariant 0 <= i <= |points| == |old(points)|
        invariant forall k :: 0 <= k < i ==> points[k] == PhasesAdvanced(old(points), dt)[k]
        invariant forall k :: i <= k < |points| ==> points[k] == old(points)[k]
      {
        var p := points[i];
        points := points[i := p.(phase := p.phase + p.phaseSpeed * dt)];
        i := i + 1;
      }
    }
  }
}
