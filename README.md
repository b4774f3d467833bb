# Particle engine: a Dafny model of `ParticleSystem`

This project models the particle engine of `src/lib.rs`. The engine is a
single-threaded WebAssembly component. It owns a store of particles in a
`width` by `height` box and a few scalar parameters. Once per frame it moves
every particle, using a pull toward the pointer and a reflecting border. It
then hands three flat buffers to the renderer:

- the particles themselves;
- the pointer links recorded during the last step;
- the links between nearby pairs of particles.

The model has four modules:

- `Numeric` (numeric.dfy) holds `f64::abs` and the law a square root obeys.
  The engine calls `f64::sqrt`. The model takes the root as a parameter
  `sqrt: real -> real`, with the precondition `IsSqrt(sqrt)`. That
  precondition says `sqrt(x)` is the non-negative root of `x` for every
  `x >= 0`.
- `Motion` (motion.dfy) covers one frame of the bounce policy as functions:
  - pointer activity and the squared radius test;
  - the attraction strength and the pull;
  - integration and the border rule;
  - the links the step records;
  - the particles it produces;
  - the clip that `resize` applies.
- `Connectivity` (connectivity.dfy) gives what two of the read accessors
  (`get_mouse_connections` and `calculate_connections`) return, as
  functions of the store:
  - the pointer links, after the half-box "seam guard";
  - the enumeration of linked pairs `i < j`, with its opacity.
- `Engine` (engine.dfy) holds the class `ParticleSystem`. It has a
  `const particles: array<Particle>`, since the engine never replaces the
  vector. The scalar fields are mutable, except the two the engine never
  reassigns (`connection_distance` and `mouse_radius`), which are `const`.
  The recorded links are a `seq<MouseLink>`. The methods that loop in the
  source (`update`, `resize` and the three buffer accessors) loop here too,
  with invariants. `Update`, `Resize`, `GetMouseConnections` and
  `CalculateConnections` are proved equal to `Steps` and `Links`, `Clipped`,
  `LinkValues(VisibleLinks(..))` and `ConnectionValues`, and the lemmas state
  what those functions guarantee. The other methods (the constructor,
  `UpdateMousePosition`, `SetMouseForce` and `GetParticles`) state their
  results directly: the initial state, the one changed parameter, and the
  snapshot buffer element by element.

All of `f64` becomes `real`.

## Model

| member | source | states |
|---|---|---|
| `Numeric.Abs` | src/lib.rs:181-182 | `abs` is non-negative and equals `x` or `-x` |
| `Numeric.SqrtBelow` | src/lib.rs:102-103 | for a positive bound `b`, `sqrt(x) < b` holds exactly when `x < b*b`; this is why the squared radius test matches the plain distance test |
| `Motion.DistanceSq` | src/lib.rs:98-100 | the squared offset to the pointer is never negative |
| `Motion.Bounce` | src/lib.rs:118-132 | one axis of the border rule. For a non-negative bound, the coordinate ends in `[0, bound]` and equals the clamp. An in-range coordinate keeps its base velocity. Below 0 it lands on 0 with a non-negative base velocity. Above the bound it lands on the bound with a non-positive base velocity (restitution `>= 0` in both cases) |
| `Motion.BounceMagnitude` | src/lib.rs:118-132 | after a clamp, the reflected base velocity has magnitude `abs(base) * abs(restitution)` |
| `Motion.Integrate` | src/lib.rs:115-135 | `size`, the orbit fields and `is_orbiting` are unchanged. The stored velocity is this frame's velocity. The position is the clamp of the advanced position. An axis with no clamp keeps its base velocity. A clamp turns the base velocity away from the crossed edge (restitution `>= 0`) |
| `Motion.StepParticle` | src/lib.rs:93-136 | after one step the particle lies in `[0, width] x [0, height]` whenever the box is non-degenerate |
| `Motion.UnpulledStep` | src/lib.rs:94-97 | with the pointer inactive or out of reach, the particle advances by exactly its base velocity, and that becomes its stored velocity |
| `Motion.LeftEdgeExample` | src/lib.rs:115-120 | a particle at `x = 0.1` with base velocity `-0.4` and the pointer off-screen lands on `x = 0` with base velocity `0.4` and stored velocity `-0.4` |
| `Motion.PointerOnParticle` | src/lib.rs:103-111 | for a particle exactly on an active pointer, the engine's velocity is NaN (`VelocityAsWritten` is `None`), while the guarded model velocity is the base velocity |
| `Motion.Clipped` | src/lib.rs:151-158 | `resize`'s clip changes only `x` and `y`. A coordinate above the new bound becomes exactly the bound. Every other coordinate, negative ones included, is kept. A point already in the box stays in it |
| `Motion.Steps` | src/lib.rs:93-136 | the step keeps the number of particles |
| `Motion.StepsSnoc` | src/lib.rs:93 | the particles are moved in store order, one at a time |
| `Motion.StepsAt` | src/lib.rs:93-136 | particle `k` after the step is particle `k` moved by `StepParticle`, independently of the others |
| `Motion.StepsInBox` | src/lib.rs:115-132 | after `update` every particle lies in a non-degenerate box |
| `Motion.LinksSnoc` | src/lib.rs:107 | particle `k` pushes its link after those of the particles before it |
| `Motion.LinksWellFormed` | src/lib.rs:91-107 | each recorded index names a particle of the store that is inside the radius, with the pointer active. Each carries that particle's strength, and the indices strictly increase |
| `Motion.RecordedAppend` | src/lib.rs:107 | an index is recorded in a concatenation exactly when one of the parts records it |
| `Motion.LinksExact` | src/lib.rs:86-107 | particle `i` is recorded exactly when the pointer is in the box (borders included) and `dx*dx + dy*dy < radius*radius` |
| `Motion.LinksInactive` | src/lib.rs:86-97 | with the pointer outside the box, the rebuilt list is empty |
| `Motion.StrengthBounds` | src/lib.rs:102-105 | a particle inside a positive radius has distance in `[0, radius)`. Its strength lies in `[0, force]` for `force >= 0`, is positive for `force > 0`, and is the full force at distance 0 |
| `Motion.LinkStrengthBounds` | src/lib.rs:102-107 | every recorded strength lies in `(0, mouse_force]` when the force and radius are positive |
| `Motion.PullFactorNonnegative` | src/lib.rs:109 | the force per unit offset is never negative for non-negative force settings |
| `Motion.PullTowardPointer` | src/lib.rs:109-111 | the velocity change opposes the offset from the pointer on each axis and is parallel to it, so the pull points at the pointer |
| `Motion.InRadiusIffNear` | src/lib.rs:222-226 | for a positive radius, the squared test of `update` (line 102) agrees with the plain distance test of `calculate_connections` |
| `Connectivity.VisibleLinks` | src/lib.rs:178-187 | the seam guard never adds links |
| `Connectivity.LinkValues` | src/lib.rs:188-190 | at most three values per link |
| `Connectivity.VisibleLinksExact` | src/lib.rs:178-187 | a link survives exactly when it was recorded and its particle is within half the box of the pointer on both axes |
| `Connectivity.VisibleLinksInRange` | src/lib.rs:179 | every surviving link names a particle of the store |
| `Connectivity.VisibleLinksAppend` | src/lib.rs:178-191 | the guard judges each link on its own and keeps the recording order |
| `Connectivity.VisibleLinksIncreasing` | src/lib.rs:178-191 | links recorded in increasing index order stay in increasing order |
| `Connectivity.LinkValuesLength` | src/lib.rs:188-190 | links naming particles of the store give exactly three values each |
| `Connectivity.LinkValuesAt` | src/lib.rs:188-190 | position `3k + t` of the buffer is field `t` of `(x, y, strength)` for link `k` |
| `Connectivity.MouseConnectionsSize` | src/lib.rs:176-198 | the buffer of `get_mouse_connections` is exactly three values per surviving link, hence at most `3 * |mouse_connections|` |
| `Connectivity.Opacity` | src/lib.rs:217-228 | a linked pair's distance lies in `[0, connection_distance)`. The opacity lies in `(0, 1.3]` and is at least `1 - d/connection_distance`. It exceeds that base exactly when either endpoint is within `mouse_radius` of the pointer |
| `Connectivity.OpacityBase` | src/lib.rs:220 | `1 - d/cd` lies in `(0, 1]` for `0 <= d < cd`, and is 1 exactly at distance 0 |
| `Connectivity.Row` | src/lib.rs:207-235 | the inner loop over `j` emits at most `n - i - 1` pairs |
| `Connectivity.RowShape` | src/lib.rs:207-219 | a row holds linked pairs `(i, k)` with `i < k`, in increasing `k` |
| `Connectivity.RowComplete` | src/lib.rs:207-219 | a row holds every linked partner of `i` |
| `Connectivity.RowsSorted` | src/lib.rs:204-219 | the rows so far hold linked pairs `(a, b)` with `a < b < n`, in lexicographic order |
| `Connectivity.RowsComplete` | src/lib.rs:204-219 | the rows so far hold every linked pair whose first index is below the outer counter |
| `Connectivity.RowsCount` | src/lib.rs:204-207 | the first `i` rows hold at most `i*n - i*(i+1)/2` pairs |
| `Connectivity.RowsExact` | src/lib.rs:204-219 | the enumeration holds exactly the linked pairs `a < b < n` |
| `Connectivity.ConnectedPairsExact` | src/lib.rs:204-219 | a pair `i < j` is emitted exactly when it passes the seam guard and is closer than `connection_distance` |
| `Connectivity.ConnectedPairsSound` | src/lib.rs:204-219 | every emitted pair is such a pair, and pairs come out in lexicographic `(i, j)` order, with no repeats |
| `Connectivity.ConnectedPairsCount` | src/lib.rs:204-207 | at most `n(n-1)/2` pairs are emitted |
| `Connectivity.LinksInStore` | src/lib.rs:93-107 | the links `update` records name particles of the store, which is the class invariant `Valid` |
| `Connectivity.EntriesAppend` | src/lib.rs:202-237 | the output buffer of a concatenation of pair lists is the concatenation of their buffers |
| `Connectivity.EntriesLength` | src/lib.rs:230-234 | when every pair pushes five values, the buffer holds five values per pair |
| `Connectivity.EntriesAt` | src/lib.rs:230-234 | field `t` of pair `k` sits at position `5k + t` |
| `Connectivity.RowStep` | src/lib.rs:207-235 | one turn of the inner loop appends that candidate's entry, which is empty when the pair is not linked |
| `Connectivity.ConnectionValues` | src/lib.rs:201-245 | the buffer of `calculate_connections` holds five values per emitted pair |
| `Connectivity.ConnectionValuesSize` | src/lib.rs:201-245 | the buffer length is a multiple of 5 and at most `5 * n(n-1)/2` |
| `Connectivity.ConnectionValuesAt` | src/lib.rs:230-234 | tuple `k` of the buffer is `x1, y1, x2, y2, opacity` of the `k`-th emitted pair, and that pair is linked |
| `Connectivity.TwoParticleExample` | src/lib.rs:204-234 | two particles 10 apart, with connection distance 20 and the pointer parked at `(-1000, -1000)`, give the single tuple `0, 0, 10, 0, 0.5` |
| `Engine.MoveParticle` | src/lib.rs:93-136 | the loop body computes `StepParticle` and the link `LinkAt` for one particle |
| `Engine.ApplyPull` | src/lib.rs:94-113 | the velocity computed is `Velocity` and the link pushed is `LinkAt` |
| `Engine.ApplyBorder` | src/lib.rs:115-135 | integration and clamping compute `Integrate` |
| `Engine.PairEntry` | src/lib.rs:210-235 | one turn of the inner loop pushes `PairEntryValues` for the pair |
| `Engine.ParticleSystem.constructor` | src/lib.rs:39-84 | the store is the given particles, which satisfy the drawing ranges as preconditions. The pointer starts at `(-1000, -1000)`, radius 150, force 1, max attraction 0.4 and restitution 1. The link list starts empty |
| `Engine.ParticleSystem.Update` | src/lib.rs:85-137 | the links are rebuilt from scratch as `Links` of the old store, and the store becomes `Steps` of the old store. The parameters are unchanged and the class invariant is kept |
| `Engine.ParticleSystem.UpdateMousePosition` | src/lib.rs:138-141 | only the pointer position changes |
| `Engine.ParticleSystem.SetMouseForce` | src/lib.rs:143-145 | only the force changes |
| `Engine.ParticleSystem.Resize` | src/lib.rs:147-159 | the box becomes the new size, every particle becomes `Clipped`, and nothing else changes |
| `Engine.ParticleSystem.GetParticles` | src/lib.rs:161-173 | the buffer has exactly `3n` values, `x, y, size` of particle `i` at `3i..3i+2` |
| `Engine.ParticleSystem.GetMouseConnections` | src/lib.rs:175-199 | the buffer is the triples of the recorded links that pass the seam guard, in recording order |
| `Engine.ParticleSystem.RowConnections` | src/lib.rs:205-236 | one pass of the inner loop emits the buffer of `Row` |
| `Engine.ParticleSystem.CalculateConnections` | src/lib.rs:201-245 | the buffer is `ConnectionValues` of the store |

## Left out

- `f64` rounding, NaN and infinities are not modelled: all arithmetic is on `real`. `f64::sqrt` and `powi(2)` are exact here. `sqrt` is a parameter constrained by `IsSqrt`.
- Engine.ApplyPull: at distance 0 from an active pointer the source divides by zero (src/lib.rs:109), and the velocity becomes NaN. The model applies no pull there. `Motion.VelocityAsWritten` and `Motion.PointerOnParticle` record the difference (see Findings).
- Engine.ParticleSystem.constructor: the random draw of `rand::thread_rng` (src/lib.rs:45-69) is not modelled. The initial particles are a parameter whose fields must lie in the drawing ranges, and `num_particles` is their count.
- The `wasm_bindgen` attributes and the `js_sys::Float64Array` copies are not modelled. Each accessor returns a `seq<real>`. The `as u32` casts of buffer lengths and indices are not modelled; they would truncate beyond 2^32 values.
- `max_attraction_force` and `border_restitution` are public fields that JavaScript may write directly. The model has no setter for them. Every method reads them from the object's state, so any written value is covered.
- Connectivity.VisibleLinks: a recorded index outside the store would make the source panic (src/lib.rs:179). The class invariant `Valid` rules this out, and the model drops such a link.
- Engine.ParticleSystem.Update: its postcondition gives the new store as `Steps` of the old one. Per-particle containment is stated by `Motion.StepsInBox` and `Motion.StepsAt`, not repeated in the method.
- Engine.ParticleSystem.CalculateConnections: its postcondition is equality with `ConnectionValues`. The length bound and the multiple of 5 are stated by `Connectivity.ConnectionValuesSize`.
- The orbit/wrap-around motion policy is not modelled. The struct fields `orbit_*` and `is_orbiting` exist, but no code in src/lib.rs reads them after `new` initialises them; the model carries them unchanged.

## Findings

| source | as written | input that shows it | evidently intended | confidence | as-written member | corrected member |
|---|---|---|---|---|---|---|
| src/lib.rs:103-111 | `force = strength * max_attraction_force / distance` is evaluated even when `distance == 0`. This gives an infinity or NaN, and `dx * force` is then NaN on both axes. No clamp comparison holds for NaN, so the particle's position stays NaN and leaves the box for good | the pointer at `(0, 0)` in a 100 by 100 box and a particle resting in the corner `(0, 0)` (where the border rule puts particles) | a particle on the pointer gets no pull and stays in the box | not executed | `Motion.PointerOnParticle` | `Motion.StepParticle` |
