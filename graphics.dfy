/** The particle pool of Graphics.cpp: one global vector of 3D particles that
    `GenerateParticles` fills with a batch of 100 at start-up and that
    `UpdateParticles` advances by one Euler step per frame and then culls.
    Floats are reals; every `rand()` result is a parameter. */
module Graphics {
  import VectorOps

  /** A `glm::vec3`. */
  datatype Vec3 = Vec3(x: real, y: real, z: real)
  {
    function Plus(o: Vec3): Vec3 { Vec3(x + o.x, y + o.y, z + o.z) }
    function Scaled(k: real): Vec3 { Vec3(x * k, y * k, z * k) }
  }

  const Origin := Vec3(0.0, 0.0, 0.0)

  /** The `Particle` record of Graphics.cpp. */
  datatype Particle = Particle(position: Vec3, velocity: Vec3, lifetime: real)

  /** Particles pushed by one call of `GenerateParticles`. */
  const BatchSize: nat := 100

  /** Seconds a generated particle lives. */
  const InitialLifetime: real := 5.0

  /** The two `rand()` results that give one generated particle its x and y velocity. */
  datatype VelocityDraw = VelocityDraw(randX: nat, randY: nat)

  /** `(rand() % 100) / 50.0f - 1.0f`: a multiple of 1/50 in [-1, 0.98]. */
  function VelocityComponent(rand: nat): (v: real)
    ensures -1.0 <= v <= 0.98
    ensures var k := (v + 1.0) * 50.0; k.Floor as real == k && 0 <= k.Floor < 100
  {
    (rand % 100) as real / 50.0 - 1.0
  }

  /** The particle one iteration of `GenerateParticles` pushes. */
  function Spawn(d: VelocityDraw): (p: Particle)
    ensures p.position == Origin && p.lifetime == InitialLifetime
    ensures p.velocity.z == 0.0
    ensures -1.0 <= p.velocity.x <= 0.98 && -1.0 <= p.velocity.y <= 0.98
  {
    Particle(Origin, Vec3(VelocityComponent(d.randX), VelocityComponent(d.randY), 0.0), InitialLifetime)
  }

  /** The particles one call of `GenerateParticles` pushes, in push order: one
      per draw, each at the origin with lifetime 5, no z-velocity, and x and y
      velocity in [-1, 0.98]. */
  function Batch(draws: seq<VelocityDraw>): (b: seq<Particle>)
    ensures |b| == |draws|
    ensures forall i :: 0 <= i < |b| ==>
      && b[i].position == Origin && b[i].lifetime == InitialLifetime && b[i].velocity.z == 0.0
      && -1.0 <= b[i].velocity.x <= 0.98 && -1.0 <= b[i].velocity.y <= 0.98
  {
    seq(|draws|, i requires 0 <= i < |draws| => Spawn(draws[i]))
  }

  /** One Euler step: position += velocity * dt, lifetime -= dt. The velocity
      is kept, and the particle is still alive afterwards exactly when it had
      more than dt seconds left. */
  function Advance(p: Particle, dt: real): (q: Particle)
    ensures q.velocity == p.velocity
    ensures !Expired(q) <==> p.lifetime > dt
  {
    p.(position := p.position.Plus(p.velocity.Scaled(dt)), lifetime := p.lifetime - dt)
  }

  /** The culling predicate of `UpdateParticles`. */
  predicate Expired(p: Particle)
  {
    p.lifetime <= 0.0
  }

  function Advanced(ps: seq<Particle>, dt: real): seq<Particle>
  {
    seq(|ps|, i requires 0 <= i < |ps| => Advance(ps[i], dt))
  }

  /** The pool after `UpdateParticles(dt)`: never longer than before, and no
      particle in it is expired. */
  function Updated(ps: seq<Particle>, dt: real): (r: seq<Particle>)
    ensures |r| <= |ps|
    ensures forall q :: q in r ==> q.lifetime > 0.0
  {
    VectorOps.Erased(Advanced(ps, dt), Expired)
  }

  /** What `UpdateParticles(dt)` leaves, stated without the cull:
      at most as many particles as before, each one some earlier particle
      (taken in order) that had more than dt seconds left, moved by
      velocity * dt with dt taken off its lifetime and its velocity kept;
      and every such earlier particle is there. */
  lemma UpdateSurvivors(ps: seq<Particle>, dt: real)
    ensures var u, idx := Updated(ps, dt), VectorOps.KeptIndices(Advanced(ps, dt), Expired);
      && |u| <= |ps|
      && |idx| == |u|
      && (forall k :: 0 <= k < |u| ==>
            && idx[k] < |ps|
            && ps[idx[k]].lifetime > dt
            && u[k].position == ps[idx[k]].position.Plus(ps[idx[k]].velocity.Scaled(dt))
            && u[k].velocity == ps[idx[k]].velocity
            && u[k].lifetime == ps[idx[k]].lifetime - dt)
      && (forall k, l :: 0 <= k < l < |u| ==> idx[k] < idx[l])
      && (forall i :: 0 <= i < |ps| ==> (i in idx <==> ps[i].lifetime > dt))
  {
    var a := Advanced(ps, dt);
    VectorOps.ErasedIsStable(a, Expired);
    VectorOps.KeptIndicesExact(a, Expired);
  }

  /** When every particle has more than dt seconds left, all of them survive
      the update, each moved by velocity * dt, in their original order. */
  lemma UpdateWithoutExpiry(ps: seq<Particle>, dt: real)
    requires forall i :: 0 <= i < |ps| ==> ps[i].lifetime > dt
    ensures Updated(ps, dt) == Advanced(ps, dt)
  {
    VectorOps.ErasedNothingDoomed(Advanced(ps, dt), Expired);
  }

  /** The pool after one `UpdateParticles` per frame, with frame times `dts`. */
  function UpdatedRepeatedly(ps: seq<Particle>, dts: seq<real>): seq<Particle>
    decreases |dts|
  {
    if dts == [] then ps else UpdatedRepeatedly(Updated(ps, dts[0]), dts[1..])
  }

  /** Nothing replenishes the pool: however many frames pass, it never holds
      more particles than it started with, so at most the 100 generated at start-up. */
  lemma {:induction false} UpdatesNeverGrow(ps: seq<Particle>, dts: seq<real>)
    ensures |UpdatedRepeatedly(ps, dts)| <= |ps|
    decreases |dts|
  {
    if dts != [] {
      UpdatesNeverGrow(Updated(ps, dts[0]), dts[1..]);
    }
  }

  /** The global `std::vector<Particle> particles` and the two functions that change it. */
  class GlobalParticles {
    var particles: seq<Particle>

    /** A global vector starts empty. */
    constructor ()
      ensures particles == []
    {
      particles := [];
    }

    /** Pushes 100 particles, one per draw, behind the existing ones. */
    method GenerateParticles(draws: seq<VelocityDraw>)
      requires |draws| == BatchSize
      modifies this
      ensures particles == old(particles) + Batch(draws)
      ensures |particles| == |old(particles)| + BatchSize
      ensures forall i :: 0 <= i < |old(particles)| ==> particles[i] == old(particles)[i]
      ensures forall i :: |old(particles)| <= i < |particles| ==>
        particles[i] == Spawn(draws[i - |old(particles)|])
    {
      var i := 0;
      while i < BatchSize
        invariant 0 <= i <= BatchSize
        invariant particles == old(particles) + Batch(draws[..i])
      {
        var p := Particle(Origin, Vec3(VelocityComponent(draws[i].randX), VelocityComponent(draws[i].randY), 0.0),
                          InitialLifetime);
        assert Batch(draws[..i + 1]) == Batch(draws[..i]) + [p];
        particles := particles + [p];
        i := i + 1;
      }
      assert draws[..i] == draws;
    }

    /** Advances every particle in place, then erases the expired ones. */
    method UpdateParticles(deltaTime: real)
      modifies this
      ensures particles == Updated(old(particles), deltaTime)
      ensures |particles| <= |old(particles)|
      ensures forall p :: p in particles ==> p.lifetime > 0.0
    {
      var i := 0;
      while i < |particles|
        invariant |particles| == |old(particles)|
        invariant 0 <= i <= |particles|
        invariant forall k :: 0 <= k < i ==> particles[k] == Advance(old(particles)[k], deltaTime)
        invariant forall k :: i <= k < |particles| ==> particles[k] == old(particles)[k]
      {
        var p := particles[i];
        p := p.(position := p.position.Plus(p.velocity.Scaled(deltaTime)));
        p := p.(lifetime := p.lifetime - deltaTime);
        particles := particles[i := p];
        i := i + 1;
      }
      assert particles == Advanced(old(particles), deltaTime);
      particles := VectorOps.EraseRemoveIf(particles, Expired);
    }
  }
}
