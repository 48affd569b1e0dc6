/**
 * `initApp` of the dist4 front end: the shared point list, the uniforms
 * derived from it, the point callbacks handed to the GUI, the handlers and
 * the interpreter, the per-frame tick, and the save/load record mapping.
 */
module AppCore {
  import opened Wrappers
  import opened Registry
  import opened Utils
  import opened ShaderSystem
  import opened ParticleSystem
  import opened CommandSemantics
  import opened CommandInterpreter
  import opened EventHandlers

  // ---------------------------------------------------------------------
  // The amplitude normalisation

  /** `points.reduce((sum, p) => sum + p.amplitude, 0)`, folded from the left. */
  function AmplitudeSum(ps: seq<Point>): real
  {
    if ps == [] then 0.0 else AmplitudeSum(ps[..|ps| - 1]) + ps[|ps| - 1].amplitude
  }

  /** The `uSumAmp` value: the amplitude sum when it is positive, 1.0 otherwise. */
  function SumAmpUniform(ps: seq<Point>): (r: real)
    ensures r > 0.0
    ensures AmplitudeSum(ps) > 0.0 ==> r == AmplitudeSum(ps)
    ensures AmplitudeSum(ps) <= 0.0 ==> r == 1.0
  {
    var s := AmplitudeSum(ps);
    if s > 0.0 then s else 1.0
  }

  /** Adding a point adds its amplitude to the sum. */
  lemma AmplitudeSumAppend(ps: seq<Point>, p: Point)
    ensures AmplitudeSum(ps + [p]) == AmplitudeSum(ps) + p.amplitude
  {
    assert (ps + [p])[..|ps|] == ps;
  }

  /** With non-negative amplitudes the sum bounds each amplitude. */
  lemma {:induction false} AmplitudeSumBounds(ps: seq<Point>)
    requires forall i :: 0 <= i < |ps| ==> ps[i].amplitude >= 0.0
    ensures AmplitudeSum(ps) >= 0.0
    ensures forall i :: 0 <= i < |ps| ==> ps[i].amplitude <= AmplitudeSum(ps)
  {
    if ps != [] {
      var init := ps[..|ps| - 1];
      AmplitudeSumBounds(init);
      assert forall i :: 0 <= i < |init| ==> init[i] == ps[i];
    }
  }

  /**
   * When some amplitude is positive and none is negative, `uSumAmp` is the
   * true sum; when every amplitude is 0 (or none is there) it falls back to 1.
   */
  lemma SumAmpIsSumWhenPositive(ps: seq<Point>)
    requires forall i :: 0 <= i < |ps| ==> ps[i].amplitude >= 0.0
    ensures (exists i :: 0 <= i < |ps| && ps[i].amplitude > 0.0) ==> SumAmpUniform(ps) == AmplitudeSum(ps)
    ensures (forall i :: 0 <= i < |ps| ==> ps[i].amplitude == 0.0) ==> SumAmpUniform(ps) == 1.0
  {
    AmplitudeSumBounds(ps);
    if forall i :: 0 <= i < |ps| ==> ps[i].amplitude == 0.0 {
      AmplitudeSumZero(ps);
    }
  }

  lemma {:induction false} AmplitudeSumZero(ps: seq<Point>)
    requires forall i :: 0 <= i < |ps| ==> ps[i].amplitude == 0.0
    ensures AmplitudeSum(ps) == 0.0
  {
    if ps != [] {
      var init := ps[..|ps| - 1];
      assert forall i :: 0 <= i < |init| ==> init[i] == ps[i];
      AmplitudeSumZero(init);
    }
  }

  // ---------------------------------------------------------------------
  // Save and load

  /** One saved point: the six fields `onSave` keeps, in its order. */
  datatype PointRecord = PointRecord(x: real, y: real, frequency: real, amplitude: real, phase: real, phaseSpeed: real)

  /** The saved configuration. */
  datatype Config = Config(points: seq<PointRecord>, blendMode: BlendValue, mapMode: int, forceEffect: real, info: string)

  function RecordOf(p: Point): PointRecord
  {
    PointRecord(p.x, p.y, p.frequency, p.amplitude, p.phase, p.phaseSpeed)
  }

  /** `points.map(p => ({x, y, frequency, amplitude, phase, phaseSpeed}))`. */
  function Records(ps: seq<Point>): (r: seq<PointRecord>)
    ensures |r| == |ps|
  {
    seq(|ps|, i requires 0 <= i < |ps| => RecordOf(ps[i]))
  }

  /** `cfg.points.forEach(o => points.push(createPoint(o)))` with the counter at `first`. */
  function Loaded(recs: seq<PointRecord>, first: nat): (r: seq<Point>)
    ensures |r| == |recs|
  {
    seq(|recs|, i requires 0 <= i < |recs| =>
      Point(first + i, recs[i].x, recs[i].y, recs[i].frequency, recs[i].amplitude, recs[i].phase, recs[i].phaseSpeed))
  }

  /** Loading saved records gives back what was saved, so the six fields round-trip exactly. */
  lemma LoadThenSave(recs: seq<PointRecord>, first: nat)
    ensures Records(Loaded(recs, first)) == recs
  {
    var back := Records(Loaded(recs, first));
    assert forall i :: 0 <= i < |recs| ==> back[i] == recs[i];
  }

  /**
   * Saving and loading keeps every point's six fields and order; only the ids
   * change, to consecutive fresh values from the counter.
   */
  lemma SaveThenLoad(ps: seq<Point>, first: nat, i: nat)
    requires i < |ps|
    ensures |Loaded(Records(ps), first)| == |ps|
    ensures Loaded(Records(ps), first)[i] == ps[i].(id := first + i)
  {
  }

  // ---------------------------------------------------------------------
  // The application

  /** The data `initApp` keeps in its closure. */
  class App {
    const reg: PointList
    const ids: IdCounter
    const material: Uniforms
    const psys: ParticleSystem
    const handlers: Handlers
    var circlesVisible: bool

    /** The uniforms agree with the point list. */
    predicate UniformsInSync()
      reads reg, material
    {
      && PackedPoints(reg.points, material.points)
      && PackedPhases(reg.points, material.phases)
      && material.pointCount == |reg.points|
      && material.sumAmp == SumAmpUniform(reg.points)
    }

    /** `initApp` with the shared `createPoint` counter: the two starting points, then the uniforms. */
    constructor (ids: IdCounter)
      modifies ids
      ensures this.ids == ids && ids.nextId == old(ids.nextId) + 2
      ensures reg.points == [
        Point(old(ids.nextId), 0.24, 0.27, 100.0, 1.0, 0.0, 3.0),
        Point(old(ids.nextId) + 1, 0.81, 0.51, 100.0, 1.0, 0.0, 3.0)]
      ensures UniformsInSync() && material.blendMode == Code(0) && material.mapMode == 0
      ensures circlesVisible && fresh(reg) && fresh(material) && fresh(psys) && fresh(handlers)
      ensures handlers.reg == reg && !handlers.isDragging && handlers.selectedPointId == None
      ensures psys.particles == [] && psys.forceEffect == DefaultForceEffect
    {
      var r := new PointList([]);
      var m := new Uniforms();
      var a := ids.CreatePoint(PointSpec(0.24, 0.27, 100.0, 1.0, 0.0, Some(3.0)));
      r.Push(a);
      var b := ids.CreatePoint(PointSpec(0.81, 0.51, 100.0, 1.0, 0.0, Some(3.0)));
      r.Push(b);
      var ps := new ParticleSystem();
      var h := new Handlers(r);
      this.reg, this.ids, this.material, this.psys, this.handlers := r, ids, m, ps, h;
      circlesVisible := true;
      new;
      UpdateUniforms();
    }

    /** `updateUniforms()`: repack the points, set the count and the amplitude normalisation. */
    method UpdateUniforms()
      modifies material
      ensures UniformsInSync()
      ensures material.blendMode == old(material.blendMode) && material.mapMode == old(material.mapMode)
    {
      var packed := GetUniformPoints(reg.points);
      var phases := GetUniformPhases(reg.points);
      material.points, material.phases := packed, phases;
      material.pointCount := |reg.points|;
      material.sumAmp := SumAmpUniform(reg.points);
    }

    /** `addPoint(uv)`: one new point at `uv` with frequency 100, amplitude 1, phase 0, phase speed 3. */
    method AddPoint(uv: UV) returns (p: Point)
      modifies reg, ids, material
      ensures p == Point(old(ids.nextId), uv.x, uv.y, 100.0, 1.0, 0.0, 3.0)
      ensures reg.points == old(reg.points) + [p] && ids.nextId == old(ids.nextId) + 1
      ensures UniformsInSync()
      ensures material.blendMode == old(material.blendMode) && material.mapMode == old(material.mapMode)
    {
      p := ids.CreatePoint(PointSpec(uv.x, uv.y, 100.0, 1.0, 0.0, Some(3.0)));
      reg.Push(p);
      UpdateUniforms();
    }

    /**
     * `removePoint(id)`: the registry's guarded remove; the uniforms are
     * refreshed only when a point was removed.
     */
    method RemovePoint(id: int)
      modifies reg, material
      ensures reg.points == WithoutId(old(reg.points), id)
      ensures reg.points != old(reg.points) ==> UniformsInSync()
      ensures reg.points == old(reg.points) ==> unchanged(material)
      ensures material.blendMode == old(material.blendMode) && material.mapMode == old(material.mapMode)
    {
      var removed := reg.RemoveById(id);
      if removed {
        UpdateUniforms();
      }
    }

    /** `toggleCircles()`. */
    method ToggleCircles()
      modifies this
      ensures circlesVisible == !old(circlesVisible)
    {
      circlesVisible := !circlesVisible;
    }

    /** The value-map control: 'remap' selects 1, anything else 0. */
    method SetMapMode(v: string)
      modifies material
      ensures material.mapMode == (if v == "remap" then 1 else 0)
      ensures material.points == old(material.points) && material.phases == old(material.phases)
      ensures material.pointCount == old(material.pointCount) && material.sumAmp == old(material.sumAmp)
      ensures material.blendMode == old(material.blendMode)
    {
      material.mapMode := if v == "remap" then 1 else 0;
    }

    /** One animation frame of `dt` seconds: phases, uniforms, particles. */
    method Tick(dt: real, gradient: (Vec2, seq<Point>) -> Vec2)
      modifies reg, material, psys
      ensures reg.points == PhasesAdvanced(old(reg.points), dt)
      ensures UniformsInSync()
      ensures |psys.particles| == |old(psys.particles)|
      ensures forall i :: 0 <= i < |psys.particles| ==>
        psys.particles[i] == Step(old(psys.particles)[i], psys.forceEffect, gradient(old(psys.particles)[i].position, reg.points), dt)
      ensures material.blendMode == old(material.blendMode) && material.mapMode == old(material.mapMode)
      ensures psys.forceEffect == old(psys.forceEffect) && psys.info == old(psys.info)
    {
      reg.AdvancePhases(dt);
      UpdateUniforms();
      psys.UpdateParticles(dt, reg.points, gradient);
    }

    /** `onSave()` without the download: the configuration record. */
    method Save() returns (cfg: Config)
      ensures cfg == Config(Records(reg.points), material.blendMode, material.mapMode, psys.forceEffect, psys.info)
    {
      cfg := Config(Records(reg.points), material.blendMode, material.mapMode, psys.forceEffect, psys.info);
    }

    /**
     * The body of `onLoad` once the file has been parsed: the list is emptied
     * in place and refilled with one fresh-id point per record, in order;
     * blend mode, map mode and particle parameters are restored.
     */
    method Load(cfg: Config)
      modifies reg, ids, material, psys
      ensures reg.points == Loaded(cfg.points, old(ids.nextId))
      ensures ids.nextId == old(ids.nextId) + |cfg.points|
      ensures UniformsInSync()
      ensures material.blendMode == cfg.blendMode && material.mapMode == cfg.mapMode
      ensures psys.forceEffect == cfg.forceEffect && psys.info == cfg.info
      ensures psys.particles == old(psys.particles)
    {
      reg.points := [];
      ghost var first := ids.nextId;
      for i := 0 to |cfg.points|
        invariant ids.nextId == first + i
        invariant reg.points == Loaded(cfg.points[..i], first)
        invariant psys.particles == old(psys.particles)
      {
        var o := cfg.points[i];
        var p := ids.CreatePoint(PointSpec(o.x, o.y, o.frequency, o.amplitude, o.phase, Some(o.phaseSpeed)));
        reg.Push(p);
        assert Loaded(cfg.points[..i + 1], first) == Loaded(cfg.points[..i], first) + [p];
      }
      assert cfg.points[..|cfg.points|] == cfg.points;
      material.blendMode, material.mapMode := cfg.blendMode, cfg.mapMode;
      psys.forceEffect, psys.info := cfg.forceEffect, cfg.info;
      UpdateUniforms();
    }

    /**
     * `onRunCommand(txt)`: the interpreter edits the points and the blend
     * mode, then the uniforms are refreshed; when the interpreter throws, the
     * refresh is skipped. The context it builds takes `blendModes` from the
     * GUI system, which returns no such member, so the interpreter runs
     * without a blend table.
     */
    method RunCommand(txt: string, position: (nat, nat) -> UV) returns (feedback: seq<Feedback>, threw: bool)
      modifies reg, material
      ensures var o := Interpret(State(old(reg.points), old(material.blendMode)), txt, position, None);
        reg.points == o.state.points && material.blendMode == o.state.blendMode &&
        feedback == o.feedback && threw == o.threw
      ensures !threw ==> UniformsInSync()
      ensures material.mapMode == old(material.mapMode)
    {
      feedback, threw := InterpretCommand(txt, reg, material, position, None);
      if !threw {
        UpdateUniforms();
      }
    }

    /** Carries out a handler's callback request. */
    method Dispatch(req: Request)
      modifies this, reg, ids, material, psys
      ensures req.AddPointAt? ==>
        reg.points == old(reg.points) + [Point(old(ids.nextId), req.uv.x, req.uv.y, 100.0, 1.0, 0.0, 3.0)]
      ensures req.RemovePointId? ==> reg.points == WithoutId(old(reg.points), req.id)
      ensures req.ToggleCircles? ==> circlesVisible == !old(circlesVisible)
      ensures req.SpawnAt? ==> psys.particles == old(psys.particles) + [Particle(Vec2(req.uv.x, req.uv.y), Vec2(0.0, 0.0))]
      ensures !req.AddPointAt? && !req.RemovePointId? ==> reg.points == old(reg.points)
      ensures req.AddPointAt? ==> ids.nextId == old(ids.nextId) + 1 && UniformsInSync()
      ensures !req.AddPointAt? ==> ids.nextId == old(ids.nextId)
      ensures req.RemovePointId? && reg.points != old(reg.points) ==> UniformsInSync()
      ensures req.Redraw? ==> UniformsInSync()
      ensures (req.NoRequest? || req.ToggleCircles? || req.SpawnAt?) ==> unchanged(material)
      ensures (req.RemovePointId? && reg.points == old(reg.points)) ==> unchanged(material)
      ensures material.blendMode == old(material.blendMode) && material.mapMode == old(material.mapMode)
      ensures !req.SpawnAt? ==> psys.particles == old(psys.particles)
      ensures psys.forceEffect == old(psys.forceEffect) && psys.info == old(psys.info)
      ensures !req.ToggleCircles? ==> circlesVisible == old(circlesVisible)
    {
      match req {
        case NoRequest =>
        case AddPointAt(uv) =>
          var p := AddPoint(uv);
        case RemovePointId(id) =>
          RemovePoint(id);
        case ToggleCircles =>
          ToggleCircles();
        case SpawnAt(uv) =>
          psys.SpawnParticle(uv);
        case Redraw =>
          UpdateUniforms();
      }
    }
  }
}
