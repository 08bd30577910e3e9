/** The `ParticleSystem` class: a vector of 2D particles capped at
    `maxParticles`. `AddParticle` appends while the vector is below the cap;
    `Update` tries five additions, advances every particle by one Euler step
    with its lifetime clamped at zero, and erases the particles whose
    lifetime is zero or less. Floats are reals; every `rand()` result is a
    parameter. */
module ParticleSystem {
  import VectorOps

  /** A C++ `int`. */
  newtype Int32 = x: int | -0x8000_0000 <= x < 0x8000_0000

  /** 2^64: on a 64-bit target `size_t` is a 64-bit unsigned integer. */
  const SizeModulus: int := 0x1_0000_0000_0000_0000

  /** The `Particle` record of ParticleSystem.h. */
  datatype Particle = Particle(
    x: real, y: real,
    velocityX: real, velocityY: real,
    lifetime: real,
    size: real,
    r: real, g: real, b: real, a: real)

  /** The four `rand()` results one successful `AddParticle` consumes, in statement order. */
  datatype ParticleDraw = ParticleDraw(randVelocityX: nat, randVelocityY: nat, randLifetime: nat, randSize: nat)

  /** The `rand()` results one iteration of `Update`'s spawn loop consumes:
      two for the position it passes, then those of `AddParticle` (unused when full). */
  datatype SpawnDraw = SpawnDraw(randX: nat, randY: nat, particle: ParticleDraw)

  /** Additions `Update` attempts per call. */
  const SpawnPerUpdate: nat := 5

  /** `maxParticles` as `particles.size() < maxParticles` sees it on a 64-bit
      target: the `int` is converted to `size_t`, so a negative cap becomes a huge one. */
  function SizeCap(maxParticles: Int32): (cap: nat)
    ensures maxParticles >= 0 ==> cap == maxParticles as int
    ensures maxParticles < 0 ==> cap >= SizeModulus - 0x8000_0000
  {
    if maxParticles >= 0 then maxParticles as int else maxParticles as int + SizeModulus
  }

  /** `(rand() % 200 - 100) / 100.0f`: a multiple of 1/100 in [-1, 0.99]. */
  function VelocityComponent(rand: nat): (v: real)
    ensures -1.0 <= v <= 0.99
    ensures var k := v * 100.0; k.Floor as real == k && -100 <= k.Floor < 100
  {
    (rand % 200 - 100) as real / 100.0
  }

  /** `rand() % 5 + 1`: a whole number of seconds from 1 to 5. */
  function InitialLifetime(rand: nat): (life: real)
    ensures life.Floor as real == life && 1 <= life.Floor <= 5
  {
    (rand % 5 + 1) as real
  }

  /** `rand() % 10 + 5`: a whole size from 5 to 14. */
  function InitialSize(rand: nat): (size: real)
    ensures size.Floor as real == size && 5 <= size.Floor <= 14
  {
    (rand % 10 + 5) as real
  }

  /** `rand() % 800 - 400`: a whole x coordinate from -400 to 399. */
  function SpawnX(rand: nat): (x: real)
    ensures x.Floor as real == x && -400 <= x.Floor <= 399
  {
    (rand % 800 - 400) as real
  }

  /** `rand() % 600 - 300`: a whole y coordinate from -300 to 299. */
  function SpawnY(rand: nat): (y: real)
    ensures y.Floor as real == y && -300 <= y.Floor <= 299
  {
    (rand % 600 - 300) as real
  }

  /** The particle `AddParticle(x, y)` appends: at (x, y), opaque white,
      lifetime 1..5, size 5..14 and velocity components in [-1, 0.99]. */
  function NewParticle(x: real, y: real, d: ParticleDraw): (p: Particle)
    ensures p.x == x && p.y == y
    ensures p.r == 1.0 && p.g == 1.0 && p.b == 1.0 && p.a == 1.0
    ensures 1.0 <= p.lifetime <= 5.0 && 5.0 <= p.size <= 14.0
    ensures -1.0 <= p.velocityX <= 0.99 && -1.0 <= p.velocityY <= 0.99
  {
    Particle(x, y,
      VelocityComponent(d.randVelocityX), VelocityComponent(d.randVelocityY),
      InitialLifetime(d.randLifetime), InitialSize(d.randSize),
      1.0, 1.0, 1.0, 1.0)
  }

  /** The particle one spawn-loop iteration of `Update` asks to add: at a whole
      point of [-400, 399] x [-300, 299], with the bounds of `NewParticle`. */
  function Spawned(s: SpawnDraw): (p: Particle)
    ensures -400.0 <= p.x <= 399.0 && -300.0 <= p.y <= 299.0
    ensures p.x.Floor as real == p.x && p.y.Floor as real == p.y
    ensures p.r == 1.0 && p.g == 1.0 && p.b == 1.0 && p.a == 1.0
    ensures 1.0 <= p.lifetime <= 5.0 && 5.0 <= p.size <= 14.0
    ensures -1.0 <= p.velocityX <= 0.99 && -1.0 <= p.velocityY <= 0.99
  {
    NewParticle(SpawnX(s.randX), SpawnY(s.randY), s.particle)
  }

  /** The vector after `AddParticle`, for a vector `ps` and a cap `cap`: one
      longer, ending in `p`, exactly when `ps` is below the cap; the old
      elements kept in front; a vector within the cap stays within it. */
  function Added(ps: seq<Particle>, cap: nat, p: Particle): (r: seq<Particle>)
    ensures |r| == (if |ps| < cap then |ps| + 1 else |ps|)
    ensures forall i :: 0 <= i < |ps| ==> r[i] == ps[i]
    ensures |r| > |ps| ==> r[|ps|] == p
    ensures |ps| <= cap ==> |r| <= cap
  {
    if |ps| < cap then ps + [p] else ps
  }

  /** The vector after the spawn loop of `Update` has run once per draw: it
      gains at most one particle per draw (`SpawnPhaseGrowth` says which). */
  function SpawnPhase(ps: seq<Particle>, cap: nat, spawns: seq<SpawnDraw>): (r: seq<Particle>)
    ensures |ps| <= |r| <= |ps| + |spawns|
    decreases |spawns|
  {
    if spawns == [] then ps
    else Added(SpawnPhase(ps, cap, spawns[..|spawns| - 1]), cap, Spawned(spawns[|spawns| - 1]))
  }

  function Min(a: int, b: int): int { if a <= b then a else b }

  /** The spawn loop grows a vector below the cap by as many draws as fit under
      it (a full one not at all), keeps the old particles in front, and the new
      ones are those of the first draws, in order. */
  lemma {:induction false} SpawnPhaseGrowth(ps: seq<Particle>, cap: nat, spawns: seq<SpawnDraw>)
    ensures var r := SpawnPhase(ps, cap, spawns);
      && |r| == (if |ps| >= cap then |ps| else |ps| + Min(|spawns|, cap - |ps|))
      && r[..|ps|] == ps
      && (forall k :: |ps| <= k < |r| ==> k - |ps| < |spawns| && r[k] == Spawned(spawns[k - |ps|]))
    decreases |spawns|
  {
    if spawns != [] {
      var n := |spawns| - 1;
      SpawnPhaseGrowth(ps, cap, spawns[..n]);
    }
  }

  /** A spawn phase never takes a vector within the cap past it. */
  lemma {:induction false} SpawnPhaseWithinCap(ps: seq<Particle>, cap: nat, spawns: seq<SpawnDraw>)
    requires |ps| <= cap
    ensures |SpawnPhase(ps, cap, spawns)| <= cap
  {
    SpawnPhaseGrowth(ps, cap, spawns);
  }

  /** One step of `Update`'s advance loop: position += velocity * dt,
      lifetime -= dt, and a lifetime that reaches zero or less is set to zero.
      So the lifetime is never negative afterwards, stays positive exactly when
      it exceeded dt (and then is lifetime - dt), and velocity, size and colour
      are kept. */
  function Step(p: Particle, dt: real): (q: Particle)
    ensures q.lifetime >= 0.0
    ensures q.lifetime > 0.0 <==> p.lifetime > dt
    ensures q.lifetime > 0.0 ==> q.lifetime == p.lifetime - dt
    ensures q.velocityX == p.velocityX && q.velocityY == p.velocityY && q.size == p.size
    ensures q.r == p.r && q.g == p.g && q.b == p.b && q.a == p.a
  {
    var life := p.lifetime - dt;
    p.(x := p.x + p.velocityX * dt, y := p.y + p.velocityY * dt, lifetime := if life <= 0.0 then 0.0 else life)
  }

  /** The culling predicate of `Update`. */
  predicate Expired(p: Particle)
  {
    p.lifetime <= 0.0
  }

  function Advanced(ps: seq<Particle>, dt: real): seq<Particle>
  {
    seq(|ps|, i requires 0 <= i < |ps| => Step(ps[i], dt))
  }

  /** The vector after `Update(dt)`: spawn, advance, cull
      (see `SpawnPhaseGrowth` and `AdvanceCullSurvivors`). */
  function Updated(ps: seq<Particle>, cap: nat, spawns: seq<SpawnDraw>, dt: real): (r: seq<Particle>)
    ensures |r| <= |SpawnPhase(ps, cap, spawns)|
    ensures forall q :: q in r ==> q.lifetime > 0.0
  {
    VectorOps.Erased(Advanced(SpawnPhase(ps, cap, spawns), dt), Expired)
  }

  /** What the advance and cull of `Update(dt)` leave of the spawned vector
      `s`, stated without the clamp and the cull: each survivor is some particle
      of `s` (in order) that had more than dt seconds left, moved by its
      velocity * dt, with dt taken off its lifetime and every other field kept;
      every such particle of `s` survives; no survivor is expired. */
  lemma AdvanceCullSurvivors(s: seq<Particle>, dt: real)
    ensures var u, idx := VectorOps.Erased(Advanced(s, dt), Expired), VectorOps.KeptIndices(Advanced(s, dt), Expired);
      && |u| <= |s|
      && |idx| == |u|
      && (forall k :: 0 <= k < |u| ==>
            && idx[k] < |s|
            && s[idx[k]].lifetime > dt
            && u[k].x == s[idx[k]].x + s[idx[k]].velocityX * dt
            && u[k].y == s[idx[k]].y + s[idx[k]].velocityY * dt
            && u[k].lifetime == s[idx[k]].lifetime - dt
            && u[k].velocityX == s[idx[k]].velocityX && u[k].velocityY == s[idx[k]].velocityY
            && u[k].size == s[idx[k]].size
            && u[k].r == s[idx[k]].r && u[k].g == s[idx[k]].g && u[k].b == s[idx[k]].b && u[k].a == s[idx[k]].a
            && u[k].lifetime > 0.0)
      && (forall k, l :: 0 <= k < l < |u| ==> idx[k] < idx[l])
      && (forall i :: 0 <= i < |s| ==> (i in idx <==> s[i].lifetime > dt))
  {
    var a := Advanced(s, dt);
    VectorOps.ErasedIsStable(a, Expired);
    VectorOps.KeptIndicesExact(a, Expired);
  }

  /** `Update` keeps a vector within the cap. */
  lemma UpdateWithinCap(ps: seq<Particle>, cap: nat, spawns: seq<SpawnDraw>, dt: real)
    requires |ps| <= cap
    ensures |Updated(ps, cap, spawns, dt)| <= cap
  {
    SpawnPhaseWithinCap(ps, cap, spawns);
  }

  /** The vector after one spawn phase per tick, nothing expiring. */
  function SpawnTicks(ps: seq<Particle>, cap: nat, ticks: seq<seq<SpawnDraw>>): seq<Particle>
    decreases |ticks|
  {
    if ticks == [] then ps else SpawnTicks(SpawnPhase(ps, cap, ticks[0]), cap, ticks[1..])
  }

  /** Five attempts per tick for M ticks, none expiring, leave min(5 * M, cap)
      particles in a vector that started empty (more generally, the vector
      grows by 5 per tick until it hits the cap). */
  lemma {:induction false} SpawnTicksCount(ps: seq<Particle>, cap: nat, ticks: seq<seq<SpawnDraw>>)
    requires forall t :: t in ticks ==> |t| == SpawnPerUpdate
    requires |ps| <= cap
    ensures |SpawnTicks(ps, cap, ticks)| == Min(|ps| + SpawnPerUpdate * |ticks|, cap)
    decreases |ticks|
  {
    if ticks != [] {
      SpawnPhaseGrowth(ps, cap, ticks[0]);
      var next := SpawnPhase(ps, cap, ticks[0]);
      assert forall t :: t in ticks[1..] ==> t in ticks;
      SpawnTicksCount(next, cap, ticks[1..]);
    }
  }

  class ParticleSystem {
    var particles: seq<Particle>
    var maxParticles: Int32

    /** The cap holds (as the `size_t` comparison sees `maxParticles`). */
    ghost predicate Valid()
      reads this
    {
      |particles| <= SizeCap(maxParticles)
    }

    /** An empty vector with the given cap. */
    constructor (maxParticles: Int32)
      ensures Valid()
      ensures this.maxParticles == maxParticles && particles == []
    {
      this.maxParticles := maxParticles;
      particles := [];
    }

    /** Appends a particle at (x, y) when the vector is below the cap; otherwise does nothing. */
    method AddParticle(x: real, y: real, d: ParticleDraw)
      requires Valid()
      modifies this`particles
      ensures Valid()
      ensures |old(particles)| >= SizeCap(maxParticles) ==> particles == old(particles)
      ensures |old(particles)| < SizeCap(maxParticles) ==> particles == old(particles) + [NewParticle(x, y, d)]
    {
      if |particles| < SizeCap(maxParticles) {
        var p := Particle(x, y,
          VelocityComponent(d.randVelocityX), VelocityComponent(d.randVelocityY),
          InitialLifetime(d.randLifetime), InitialSize(d.randSize),
          1.0, 1.0, 1.0, 1.0);
        particles := particles + [p];
      }
    }

    /** Tries five additions, advances every particle (the new ones too) with
        its lifetime clamped at zero, then erases the expired ones. */
    method Update(deltaTime: real, spawns: seq<SpawnDraw>)
      requires Valid()
      requires |spawns| == SpawnPerUpdate
      modifies this`particles
      ensures Valid()
      ensures particles == Updated(old(particles), SizeCap(maxParticles), spawns, deltaTime)
      ensures forall p :: p in particles ==> p.lifetime > 0.0
    {
      var cap := SizeCap(maxParticles);
      var i := 0;
      while i < SpawnPerUpdate
        invariant 0 <= i <= SpawnPerUpdate
        invariant Valid()
        invariant particles == SpawnPhase(old(particles), cap, spawns[..i])
      {
        var s := spawns[i];
        assert spawns[..i + 1][..i] == spawns[..i];
        AddParticle(SpawnX(s.randX), SpawnY(s.randY), s.particle);
        i := i + 1;
      }
      assert spawns[..i] == spawns;
      ghost var spawned := particles;

      var j := 0;
      while j < |particles|
        invariant |particles| == |spawned|
        invariant 0 <= j <= |particles|
        invariant forall k :: 0 <= k < j ==> particles[k] == Step(spawned[k], deltaTime)
        invariant forall k :: j <= k < |particles| ==> particles[k] == spawned[k]
      {
        var p := particles[j];
        var life := p.lifetime - deltaTime;
        if life <= 0.0 {
          life := 0.0;
        }
        var q := p.(x := p.x + p.velocityX * deltaTime, y := p.y + p.velocityY * deltaTime, lifetime := life);
        assert p == spawned[j] && q == Step(p, deltaTime);
        particles := particles[j := q];
        j := j + 1;
      }
      assert particles == Advanced(spawned, deltaTime);
      particles := VectorOps.EraseRemoveIf(particles, Expired);
    }
  }
}
