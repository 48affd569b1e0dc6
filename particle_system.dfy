/**
 * The particle integrator of dist4: massless particles pushed by the field
 * gradient with a fixed per-call damping. The gradient is a parameter, so the
 * field itself stays abstract.
 */
module ParticleSystem {
  import opened Registry

  datatype Vec2 = Vec2(x: real, y: real)

  datatype Particle = Particle(position: Vec2, velocity: Vec2)

  /** Velocity factor applied once per update call, whatever the frame time. */
  const Damping: real := 0.98

  /** The default `particleParams.forceEffect`. */
  const DefaultForceEffect: real := 0.5

  const DefaultInfo: string := "Press 'Z' to spawn a particle at the current pointer position."

  /**
   * One update of one particle with gradient `grad` at its position: the
   * velocity gains `forceEffect * grad * delta`, is then damped, and the
   * position advances by the new velocity times `delta`.
   */
  function Step(p: Particle, forceEffect: real, grad: Vec2, delta: real): (q: Particle)
  {
    var vx := (p.velocity.x + forceEffect * grad.x * delta) * Damping;
    var vy := (p.velocity.y + forceEffect * grad.y * delta) * Damping;
    Particle(Vec2(p.position.x + vx * delta, p.position.y + vy * delta), Vec2(vx, vy))
  }

  /** Without force the step is pure damping, applied in full even when `delta` is 0. */
  lemma StepWithoutForce(p: Particle, forceEffect: real, grad: Vec2, delta: real)
    requires forceEffect == 0.0 || grad == Vec2(0.0, 0.0)
    ensures Step(p, forceEffect, grad, delta).velocity == Vec2(Damping * p.velocity.x, Damping * p.velocity.y)
    ensures Step(p, forceEffect, grad, delta).position ==
      Vec2(p.position.x + Damping * p.velocity.x * delta, p.position.y + Damping * p.velocity.y * delta)
  {
  }

  /** The force term is linear in `forceEffect * grad * delta`, per axis and independent of the other axis. */
  lemma StepVelocityPerAxis(p: Particle, forceEffect: real, grad: Vec2, delta: real)
    ensures Step(p, forceEffect, grad, delta).velocity.x == Damping * p.velocity.x + Damping * forceEffect * grad.x * delta
    ensures Step(p, forceEffect, grad, delta).velocity.y == Damping * p.velocity.y + Damping * forceEffect * grad.y * delta
  {
  }

  /** A particle at rest under zero force is a fixed point of one step. */
  lemma RestIsFixedPoint(p: Particle, grad: Vec2, delta: real)
    requires p.velocity == Vec2(0.0, 0.0)
    ensures Step(p, 0.0, grad, delta) == p
  {
  }

  /** The particle after one update per entry of `deltas`, the gradient read at its current position each time. */
  function Run(p: Particle, forceEffect: real, gradient: Vec2 -> Vec2, deltas: seq<real>): (q: Particle)
    decreases |deltas|
  {
    if deltas == [] then p
    else Run(Step(p, forceEffect, gradient(p.position), deltas[0]), forceEffect, gradient, deltas[1..])
  }

  /** With `forceEffect` 0 a particle spawned at rest never moves and stays at rest, over any number of frames. */
  lemma {:induction false} RestForever(p: Particle, gradient: Vec2 -> Vec2, deltas: seq<real>)
    requires p.velocity == Vec2(0.0, 0.0)
    ensures Run(p, 0.0, gradient, deltas) == p
    decreases |deltas|
  {
    if deltas != [] {
      RestIsFixedPoint(p, gradient(p.position), deltas[0]);
      RestForever(p, gradient, deltas[1..]);
    }
  }

  /** The particle list and the shared `particleParams`. */
  class ParticleSystem {
    var particles: seq<Particle>
    var forceEffect: real
    var info: string

    constructor ()
      ensures particles == [] && forceEffect == DefaultForceEffect && info == DefaultInfo
    {
      particles := [];
      forceEffect := DefaultForceEffect;
      info := DefaultInfo;
    }

    /** `spawnParticle(uv)`: exactly one new particle, at `uv`, at rest, appended at the end. */
    method SpawnParticle(uv: UV)
      modifies this
      ensures particles == old(particles) + [Particle(Vec2(uv.x, uv.y), Vec2(0.0, 0.0))]
      ensures forceEffect == old(forceEffect) && info == old(info)
    {
      particles := particles + [Particle(Vec2(uv.x, uv.y), Vec2(0.0, 0.0))];
    }

    /**
     * `updateParticles(delta, points, getGradient)`: every particle takes one
     * `Step` with the gradient at its own current position; the number and
     * order of the particles do not change.
     */
    method UpdateParticles(delta: real, points: seq<Point>, getGradient: (Vec2, seq<Point>) -> Vec2)
      modifies this
      ensures |particles| == |old(particles)|
      ensures forall i :: 0 <= i < |particles| ==>
        particles[i] == Step(old(particles)[i], forceEffect, getGradient(old(particles)[i].position, points), delta)
      ensures forceEffect == old(forceEffect) && info == old(info)
    {
      var i := 0;
      while i < |particles|
        invariant 0 <= i <= |particles| == |old(particles)|
        invariant forceEffect == old(forceEffect) && info == old(info)
        invariant forall k :: 0 <= k < i ==>
          particles[k] == Step(old(particles)[k], forceEffect, getGradient(old(particles)[k].position, points), delta)
        invariant forall k :: i <= k < |particles| ==> particles[k] == old(particles)[k]
      {
        var p := particles[i];
        var grad := getGradient(p.position, points);
        var q := Step(p, forceEffect, grad, delta);
        particles := particles[i := q];
        i := i + 1;
      }
    }
  }
}
