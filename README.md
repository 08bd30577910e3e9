# Particle pools of DynamicWallpaperEngine, in Dafny

DynamicWallpaperEngine is a small OpenGL wallpaper renderer. The only real
logic in it is a CPU-side particle pool, and it has two independent versions:

- **Graphics.cpp** keeps a global `std::vector<Particle>` of 3D particles.
  `GenerateParticles` pushes a batch of 100 at start-up. Every frame,
  `UpdateParticles(dt)` moves each particle by `velocity * dt`, takes `dt` off
  its lifetime, and erases the particles whose lifetime is `<= 0`.
- **ParticleSystem** keeps a member vector of 2D particles, capped at
  `maxParticles`. `AddParticle(x, y)` appends only while `size() < maxParticles`.
  `Update(dt)` does three things in order: it tries five additions at random
  positions, advances every particle (the new ones too) with its lifetime
  clamped at zero, and erases the particles whose lifetime is `<= 0`.

The model has three modules:

- `VectorOps` (vector_ops.dfy) models the `erase(remove_if(...))` idiom that
  both pools use. The spec function `Erased` keeps the elements that are not
  doomed, in order. The method `EraseRemoveIf` does the compaction in place,
  as `std::remove_if` does, and is proved to compute `Erased`. The lemmas
  prove that the filter is stable and exact.
- `Graphics` (graphics.dfy) has the 3D `Particle` and the class
  `GlobalParticles`. That class stands for the global vector and holds
  `GenerateParticles` and `UpdateParticles`.
- `ParticleSystem` (particle_system.dfy) has the 2D `Particle` and the class
  `ParticleSystem`, with the fields `particles` and `maxParticles` and the
  methods `AddParticle` and `Update`.

The two `Particle` records share a name in the source. Here each is its own
datatype in its own module.

How the model stands in for things the program does not control:

- **Floats.** A C++ `float` is a Dafny `real`.
- **Frame time.** `dt` is a parameter.
- **Random numbers.** Each `rand()` result is a `nat` parameter. The model
  does the `%` and the offset itself, exactly as the source writes them.
  Since `rand()` is never negative, Dafny's `%` agrees with C++'s.
  - A `VelocityDraw` carries the two draws of one generated particle.
  - A `ParticleDraw` carries the four draws inside `AddParticle`.
  - A `SpawnDraw` carries one spawn-loop iteration of `Update`: the two
    position draws plus a `ParticleDraw`.
- **The cap.** `maxParticles` is a C++ `int`, modelled as the newtype `Int32`.
  The check `particles.size() < maxParticles` converts it to `size_t`, which
  the model takes to be 64 bits wide, as on a 64-bit target. `SizeCap` models
  that conversion, so a negative `maxParticles` becomes a cap of at least
  2^64 - 2^31. The class invariant `Valid()` is
  `|particles| <= SizeCap(maxParticles)`. Whenever `maxParticles >= 0`, this is
  exactly `particles.size() <= maxParticles`.

## Model

| member | source | states |
|---|---|---|
| `VectorOps.Erased` | DynamicWallpaperEngine/ParticleSystem.cpp:125-127 | the vector after erase/remove_if is no longer than before, and no element left in it satisfies the removal predicate |
| `VectorOps.KeptIndicesOrdered` | DynamicWallpaperEngine/Graphics.cpp:96-97 | remove_if keeps one position per survivor; the positions are in range and strictly increasing |
| `VectorOps.KeptIndicesExact` | DynamicWallpaperEngine/Graphics.cpp:96-97 | a position is kept exactly when its element does not satisfy the removal predicate, in both directions |
| `VectorOps.ErasedIsStable` | DynamicWallpaperEngine/Graphics.cpp:96-97 | stability: survivor k is the input element at the k-th kept position, so survivors keep their relative order and only doomed elements are dropped |
| `VectorOps.ErasedNothingDoomed` | DynamicWallpaperEngine/ParticleSystem.cpp:125-127 | when no element is doomed, erase/remove_if leaves the vector unchanged |
| `VectorOps.EraseRemoveIf` | DynamicWallpaperEngine/ParticleSystem.cpp:125-127 | compacting survivors forward with a read and a write index, then cutting the tail, yields exactly `Erased` of the input |
| `Graphics.VelocityComponent` | DynamicWallpaperEngine/Graphics.cpp:81-82 | `(rand() % 100) / 50.0f - 1.0f` equals k/50 - 1 for a whole k in 0..99, so it lies in [-1, 0.98] |
| `Graphics.Spawn` | DynamicWallpaperEngine/Graphics.cpp:79-84 | a generated particle starts at the origin with lifetime 5 and z-velocity 0, with x and y velocity in [-1, 0.98] |
| `Graphics.Batch` | DynamicWallpaperEngine/Graphics.cpp:78-86 | the particles one call pushes, one `Spawn` per draw in push order: as many as draws, each at the origin with lifetime 5, z-velocity 0 and x/y velocity in [-1, 0.98] |
| `Graphics.Advance` | DynamicWallpaperEngine/Graphics.cpp:91-92 | one Euler step (position + velocity·dt, lifetime − dt); the velocity is kept, and the particle is not expired afterwards exactly when its lifetime exceeded dt |
| `Graphics.Expired` | DynamicWallpaperEngine/Graphics.cpp:97 | the removal predicate of the cull: lifetime <= 0 |
| `Graphics.Updated` | DynamicWallpaperEngine/Graphics.cpp:89-98 | the pool after `UpdateParticles(dt)`: `Erased` of the advanced pool by `Expired`; never longer than before, and every particle in it has lifetime > 0 |
| `Graphics.UpdateSurvivors` | DynamicWallpaperEngine/Graphics.cpp:89-98 | after `UpdateParticles(dt)` there are at most as many particles as before; each survivor is a prior particle that had more than dt left, with position + velocity·dt, the same velocity and lifetime − dt; survivors are taken at increasing positions; every prior particle with more than dt left survives |
| `Graphics.UpdateWithoutExpiry` | DynamicWallpaperEngine/Graphics.cpp:89-98 | if every particle has more than dt left, all of them survive, each advanced by one Euler step, in the same order |
| `Graphics.UpdatesNeverGrow` | DynamicWallpaperEngine/Graphics.cpp:89-98 | over any number of frames, updates never grow the pool, so it never holds more than the 100 generated at start-up |
| `Graphics.GlobalParticles.constructor` | DynamicWallpaperEngine/Graphics.cpp:34 | the global vector starts empty |
| `Graphics.GlobalParticles.GenerateParticles` | DynamicWallpaperEngine/Graphics.cpp:77-87 | appends exactly 100 particles, the i-th being `Spawn` of the i-th draw, and leaves the existing elements unchanged |
| `Graphics.GlobalParticles.UpdateParticles` | DynamicWallpaperEngine/Graphics.cpp:89-98 | the new vector is the stable filter of the advanced particles; it is no longer than before, and every remaining particle has lifetime > 0 |
| `ParticleSystem.SizeCap` | DynamicWallpaperEngine/ParticleSystem.cpp:143 | the cap as the `size_t` comparison sees it: `maxParticles` itself when it is non-negative, and at least 2^64 - 2^31 (in effect, no cap) when it is negative |
| `ParticleSystem.VelocityComponent` | DynamicWallpaperEngine/ParticleSystem.cpp:147-148 | `(rand() % 200 - 100) / 100.0f` equals k/100 for a whole k in -100..99, so it lies in [-1, 0.99] |
| `ParticleSystem.InitialLifetime` | DynamicWallpaperEngine/ParticleSystem.cpp:149 | a new particle's lifetime is a whole number from 1 to 5 |
| `ParticleSystem.InitialSize` | DynamicWallpaperEngine/ParticleSystem.cpp:150 | a new particle's size is a whole number from 5 to 14 |
| `ParticleSystem.SpawnX` | DynamicWallpaperEngine/ParticleSystem.cpp:110 | a spawn x coordinate is a whole number from -400 to 399 |
| `ParticleSystem.SpawnY` | DynamicWallpaperEngine/ParticleSystem.cpp:110 | a spawn y coordinate is a whole number from -300 to 299 |
| `ParticleSystem.NewParticle` | DynamicWallpaperEngine/ParticleSystem.cpp:144-155 | a new particle sits at the given (x, y) with colour (1,1,1,1), lifetime in [1, 5], size in [5, 14] and both velocity components in [-1, 0.99] |
| `ParticleSystem.Spawned` | DynamicWallpaperEngine/ParticleSystem.cpp:110 | the particle one spawn-loop iteration asks to add: `NewParticle` at (`SpawnX`, `SpawnY`), so at a whole point of [-400, 399] × [-300, 299], opaque white, with the lifetime, size and velocity bounds of `NewParticle` |
| `ParticleSystem.Added` | DynamicWallpaperEngine/ParticleSystem.cpp:143-157 | the vector after `AddParticle`: one longer, with the new particle last, exactly when it was below the cap, otherwise unchanged; old elements kept; a vector within the cap stays within it |
| `ParticleSystem.SpawnPhase` | DynamicWallpaperEngine/ParticleSystem.cpp:109-111 | the vector after the spawn loop, `Added` once per draw in order; it gains at most one particle per draw |
| `ParticleSystem.SpawnPhaseGrowth` | DynamicWallpaperEngine/ParticleSystem.cpp:109-111 | the spawn loop grows a vector below the cap by min(attempts, cap − size), and a vector at or above the cap not at all; the old particles stay in front, and the new ones come from the first draws, in order |
| `ParticleSystem.SpawnPhaseWithinCap` | DynamicWallpaperEngine/ParticleSystem.cpp:109-111 | the spawn loop never takes a vector within the cap past it |
| `ParticleSystem.Step` | DynamicWallpaperEngine/ParticleSystem.cpp:115-121 | one advance step with the clamp: position + velocity·dt, lifetime − dt set to 0 when it is <= 0; so the lifetime is never negative, is positive exactly when it exceeded dt (and is then lifetime − dt), and velocity, size and colour are kept |
| `ParticleSystem.Expired` | DynamicWallpaperEngine/ParticleSystem.cpp:126 | the removal predicate of the cull: lifetime <= 0 |
| `ParticleSystem.Updated` | DynamicWallpaperEngine/ParticleSystem.cpp:107-127 | the vector after `Update(dt)`: `SpawnPhase`, then `Step` on every particle, then `Erased` by `Expired`; no longer than the spawned vector, and every particle in it has lifetime > 0 |
| `ParticleSystem.AdvanceCullSurvivors` | DynamicWallpaperEngine/ParticleSystem.cpp:113-127 | for s the vector after the spawn phase, each survivor is an element of s that had more than dt left, with x and y moved by velocity·dt, lifetime − dt and every other field kept; survivors are taken at increasing positions of s; every element of s with more than dt left survives; no survivor has lifetime <= 0 |
| `ParticleSystem.UpdateWithinCap` | DynamicWallpaperEngine/ParticleSystem.cpp:107-127 | `Update` keeps a vector within the cap |
| `ParticleSystem.SpawnTicksCount` | DynamicWallpaperEngine/ParticleSystem.cpp:109-111 | five attempts per tick for M ticks, with nothing expiring, leave min(size + 5·M, cap) particles, which is min(5·M, cap) from empty |
| `ParticleSystem.ParticleSystem.Valid` | DynamicWallpaperEngine/ParticleSystem.cpp:143 | the cap invariant: the vector holds at most `SizeCap(maxParticles)` particles, which is `maxParticles` whenever it is non-negative |
| `ParticleSystem.ParticleSystem.constructor` | DynamicWallpaperEngine/ParticleSystem.cpp:6-7 | a new system holds no particles and keeps the given cap |
| `ParticleSystem.ParticleSystem.AddParticle` | DynamicWallpaperEngine/ParticleSystem.cpp:142-158 | on a full vector (size >= cap) nothing changes; otherwise exactly `NewParticle(x, y)` is appended and the earlier elements are unchanged; the cap invariant is kept |
| `ParticleSystem.ParticleSystem.Update` | DynamicWallpaperEngine/ParticleSystem.cpp:107-127 | the new vector is the stable filter of the spawned-then-advanced (lifetime clamped at 0) particles; the cap invariant is kept; every remaining particle has lifetime > 0 |

## Left out

- Shaders: compiling and linking (`CompileShader`, `CreateShaderProgram` in both files) are GPU library calls with no logic to model beyond logging.
- GPU buffers and drawing: creating the vertex array and buffer, the `glBufferSubData` upload at the end of `Update`, and both `Render` functions are GPU library calls. The upload takes `&particles[0]` on a vector that may be empty; that is in the upload, not in the pool logic.
- Window and main loop: `Graphics::Initialize`, `WallpaperEngine`, and the swap/poll calls are windowing I/O.
- Animated quad: the sine-wave offset and the quad vertices in `Graphics::Render` are floating-point animation that only feeds draw calls.
- Frame timing: the function-local statics `lastTime` and `deltaTime` read the system clock; `dt` is a parameter instead.
- Randomness: `rand()` and `srand(time(0))` become parameters. C++ leaves unspecified the order in which the two `rand()` calls of one argument list run. Because the draws are free parameters, the model does not depend on that order.
- Floating point: rounding, NaN, infinities and overflow are not modelled; floats are reals.
- ParticleSystem.SpawnTicksCount: counts spawn phases alone. It leaves out each `Update`'s advance and cull, which is what "nothing expiring" means; `ParticleSystem.AdvanceCullSurvivors` covers what the cull removes.
- ParticleSystem.SizeCap: assumes a 64-bit `size_t`; on a 32-bit target the modulus is 2^32, so a negative `maxParticles` becomes a cap of at least 2^31 rather than at least 2^64 - 2^31.
