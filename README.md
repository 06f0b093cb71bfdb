# particle-life-3d in Dafny

A model of the simulation core of particle-life-3d, a browser toy in which coloured groups
of particles attract or repel each other in a sphere. The model covers:

- the small helpers of `src/utils/utils.ts`;
- the in-place vector extensions of `src/zdog.ts`;
- the settings store of `src/store/store.ts`;
- the engine of `src/main.ts`:
  - the `Particle` objects, the flat `particles` list, the `groups` list and the gain table `gMaps`;
  - `addGroup`, `rule`, `collide` and the physics half of `update`;
  - `randomGMaps`, `captureSnapshot` and `applySnapshot`.

Numbers are `real`. `Math.sqrt` is a parameter `sqrt: real -> real` with the law
`IsSqrt(sqrt)` (a non-negative square root). `Math.random()` draws are parameters in `[0, 1)`.

The model follows the source's own form.

- **Classes.** `Particle`, zdog's `Vector`, the store and the module-level engine state (`World`) are classes. Their methods change fields in place.
- **Specification functions.** Each method is proved against a value-level function in the modules below.
- **Properties.** These are proved as lemmas about those functions.

| file | module | what it holds |
|---|---|---|
| `wrappers.dfy` | `Wrappers` | `Option` |
| `utils.dfy` | `Utils` | `clamp`, `randomFloat`, `randomInt`, `pickObject` |
| `zdog.dfy` | `Vectors` | `Vec3` values, the `Vector` class with `isZero`, `add2`, `subtract2`, `scale`, `round`, and zdog's `magnitude` and `lerp` |
| `store.dfy` | `Store` | the settings record, its defaults, the `Store` class with its actions, `storableStateKeys`, `partialize`, the snapshot value |
| `physics.dfy` | `Physics` | distances, the force of `rule`, containment, `rule` as a single in-place pass over the states, and a two-pass reference reading |
| `collide.dfy` | `Collisions` | `collide` on states and the `i < j` collision sweep |
| `step.dfy` | `Stepping` | one `update` step: `rule` for every ordered group pair, then the sweep |
| `gains.dfy` | `Gains` | the colour list, the table `randomGMaps` draws, and the copy `applySnapshot` makes |
| `snapshots.dfy` | `Snapshots` | the settling of `randomGMaps` and the particles `applySnapshot` rebuilds |
| `engine.dfy` | `Engine` | the `Particle` and `World` classes and every loop of `src/main.ts`'s core, as methods |

Behaviour of the code worth knowing:

- **`rule` runs a single pass.** Each particle of group A is moved as soon as its force is summed, so later particles see it already moved. A two-pass reading is kept as a reference definition. `Physics.SinglePassAgreesWhenDisjoint` proves the two agree when the groups are disjoint. `Physics.SinglePassDiffersWithinAGroup` proves they differ within one group.
- **`collide` does not normalise the difference.** Each partner moves by `(B - A) * overlap / 4`, so the push grows with the distance.
- **`randomGMaps` uses `randomInt`.** The gains are whole steps above `minG`, not any value in `[minG, maxG]`. With the default bounds -0.3 and 0.3 they are only -0.3 or 0.7 (`Utils.RandomIntDefaultBounds`).
- **`captureSnapshot` does nothing while paused.**
- **`applySnapshot` is not atomic.** A colour row missing from the live or the snapshot table throws part way through the gain copy. The earlier rows are then already overwritten and the particles are untouched.

## Model

| member | source | states |
|---|---|---|
| Utils.Clamp | src/utils/utils.ts:5-9 | `min` when `val < min` (checked first), `max` when `val > max`, `val` otherwise; in `[min, max]` whenever `min <= max` |
| Utils.ClampIdempotent | src/utils/utils.ts:5-9 | clamping a clamped value again changes nothing when `min <= max` |
| Utils.RandomFloat | src/utils/utils.ts:11-13 | for a draw in `[0, 1)` and `min < max`, the result lies in `[min, max)` |
| Utils.RandomInt | src/utils/utils.ts:15-17 | the result minus `min` is a whole number `k`; for `min <= max`, `0 <= k < max - min + 1` |
| Utils.RandomIntWholeRange | src/utils/utils.ts:15-17 | for whole `min <= max` the result is whole and lies in `[min, max]` |
| Utils.RandomIntDefaultBounds | src/utils/utils.ts:15-17 | with the default gain bounds -0.3 and 0.3 the result is -0.3 for draws below 0.625 and 0.7 otherwise |
| Utils.PickObject | src/utils/utils.ts:19-25 | the new object's keys are exactly the picked keys, each holding the source object's value (or `undefined`) |
| Vectors.RoundReal | src/zdog.ts:39-44 | `Math.round`: the result is within one half of the argument, and halves go up |
| Vectors.Vector.IsZero | src/zdog.ts:14-16 | true exactly when all three coordinates are 0 |
| Vectors.Vector.Add2 | src/zdog.ts:18-23 | adds each coordinate of the argument, a missing one as 0, in place, and returns the receiver |
| Vectors.Vector.Subtract2 | src/zdog.ts:25-30 | subtracts each coordinate of the argument, a missing one as 0, in place, and returns the receiver |
| Vectors.Vector.Scale | src/zdog.ts:32-37 | multiplies every coordinate by the factor in place and returns the receiver |
| Vectors.Vector.Round | src/zdog.ts:39-44 | rounds every coordinate in place, leaving whole coordinates, and returns the receiver |
| Vectors.SubtractUndoesAdd | src/zdog.ts:18-30 | `subtract2(p)` undoes `add2(p)` and the other way round |
| Vectors.ScaleLaws | src/zdog.ts:32-37 | `scale(0)` gives the zero vector; `scale(s)` then `scale(t)` is `scale(s * t)` |
| Vectors.RoundedIsWhole | src/zdog.ts:39-44 | after `round` every coordinate is whole, and rounding again changes nothing |
| Vectors.MagnitudeSquared | src/main.ts:27 | the distance is non-negative and squares to the sum of the squared differences |
| Vectors.LerpToOrigin | src/main.ts:88 | `lerp` towards the origin by `t` in `[0, 1]` scales the vector, and its magnitude, by `1 - t` |
| Vectors.Magnitude | src/main.ts:87 | zdog's `magnitude()`: the host square root of the squared length; `Vectors.MagnitudeSquared` states its law |
| Vectors.Lerp | src/main.ts:88 | zdog's `lerp(vector0, alpha)` per coordinate, `(b - a) * alpha + a`; `Vectors.LerpToOrigin` states what it does towards the origin |
| Store.Field | src/store/store.ts:7-22 | a key reads a field of the settings record exactly when it is one of the storable keys |
| Store.FieldsDetermineRecord | src/store/store.ts:7-22 | two settings records that agree on every storable key are equal |
| Store.StorableStateKeysExact | src/store/store.ts:125 | the key list names the fourteen fields, each once |
| Store.StorableStateKeysAreNotActions | src/store/store.ts:24-42 | no storable key is the name of an action |
| Store.StoreObject | src/store/store.ts:61-123 | the store object's keys are the storable keys and the action names |
| Store.Store.constructor | src/store/store.ts:44-62 | the store starts with the defaults (radius 240, gains -0.3 to 0.3, pull back 0.008, not paused, ...) |
| Store.Store.SetRadius | src/store/store.ts:64-66 | sets `radius`, every other setting unchanged |
| Store.Store.SetMinG | src/store/store.ts:68-70 | sets `minG`, every other setting unchanged |
| Store.Store.SetMaxG | src/store/store.ts:72-74 | sets `maxG`, every other setting unchanged |
| Store.Store.SetIsLimitedVelocity | src/store/store.ts:76-78 | sets `isLimitedVelocity`, every other setting unchanged |
| Store.Store.SetMaxVelocity | src/store/store.ts:80-82 | sets `maxVelocity`, every other setting unchanged |
| Store.Store.SetVelocityDecreaseFactor | src/store/store.ts:84-86 | sets `velocityDecreaseFactor`, every other setting unchanged |
| Store.Store.SetPushBackForce | src/store/store.ts:88-90 | sets `pushBackForce`, every other setting unchanged |
| Store.Store.SetZoom | src/store/store.ts:92-94 | sets `zoom`, every other setting unchanged |
| Store.Store.SetIsSeparated | src/store/store.ts:96-98 | sets `isSeparated`, every other setting unchanged |
| Store.Store.SetIsFakedDepth | src/store/store.ts:100-102 | sets `isFakedDepth`, every other setting unchanged |
| Store.Store.SetHelperVisibility | src/store/store.ts:104-106 | sets `helperVisibility`, every other setting unchanged |
| Store.Store.SetIsPaused | src/store/store.ts:108-110 | sets `isPaused`, every other setting unchanged |
| Store.Store.SetIsSpinning | src/store/store.ts:112-114 | sets `isSpinning`, every other setting unchanged |
| Store.Store.SetSpinningSpeed | src/store/store.ts:116-118 | sets `spinningSpeed`, every other setting unchanged |
| Store.Store.SetIsCheckCollision | src/main.ts:186 | sets the collision switch that `update` reads |
| Store.Store.RestoreToDefaultStates | src/store/store.ts:120-122 | every storable field back to its default (so a second call changes nothing); the collision switch and snapshots unchanged |
| Store.Store.PushSnapshot | src/main.ts:180 | the snapshot is appended to those handed over so far |
| Store.Store.Partialize | src/store/store.ts:130 | the persisted object holds exactly the storable keys, each with the live value, and no action |
| Physics.Distances | src/main.ts:20-29 | `getDistancesBetweenTwoVectors(a, b)`: the distance and the difference `a - b`; `Vectors.MagnitudeSquared` and `Physics.DistanceSymmetric` state its laws |
| Physics.DistanceSymmetric | src/main.ts:20-29 | the distance is symmetric, the difference changes sign with the order, and a point is at distance 0 from itself |
| Physics.Contribution | src/main.ts:71-77 | what one neighbour adds to the force in `rule`: `g / d` times the difference when `d` is non-zero and at most 400, nothing otherwise |
| Physics.ContributionStrength | src/main.ts:71-77 | a coincident neighbour or one beyond 400 adds nothing; any other pushes with strength exactly the absolute value of `g`, whatever its distance |
| Physics.ContributionWithin | src/main.ts:71-77 | a neighbour at distance `0 < d <= 400` adds `g / d` times the difference `p - q` |
| Physics.ContributionBeyond | src/main.ts:72 | a neighbour beyond 400 adds nothing |
| Physics.UnitContribution | src/main.ts:71-77 | along a unit vector, with gain 100, a neighbour pushes by that unit vector up to the cutoff and not at all beyond it |
| Physics.Force | src/main.ts:68-78 | the force summed for one particle over the other group's particles in order, skipping the particle itself |
| Physics.ForceStep | src/main.ts:68-78 | the next partner adds its contribution to the force, and the particle itself adds nothing |
| Physics.ForceFromOnePartner | src/main.ts:68-78 | with one partner besides itself, the force is that partner's contribution, in either order |
| Physics.ForceOfFarOrCoincident | src/main.ts:68-78 | when every partner is the particle itself, coincides with it or is beyond 400, the force is zero |
| Physics.ForceFrame | src/main.ts:68-78 | the force depends only on the positions of the particle and its partners, never on the particle's own entry among them |
| Physics.Contain | src/main.ts:87-89 | the containment step: `lerp` towards the origin by `pushBackForce / 1000` when the magnitude exceeds `store.radius` |
| Physics.ContainPullsInward | src/main.ts:87-89 | inside `store.radius` nothing moves; outside, a pull back in `[0, 1000]` scales the position, and its magnitude, by `1 - pushBackForce / 1000` |
| Physics.Move | src/main.ts:79-89 | one particle's move in `rule`: velocity `(velocity + force) * 0.5`, position advanced by it, then contained |
| Physics.MoveWithoutPullBack | src/main.ts:79-89 | without pull back a particle's velocity becomes `(velocity + force) * 0.5` and its position moves by that velocity |
| Physics.RuleUpTo | src/main.ts:60-91 | `rule(A, B)` after its first `k` particles of A, each moved on the states the earlier ones left; keeps the number of particles |
| Physics.RuleTwoPassUpTo | src/main.ts:60-91 | the reference reading of `rule` that reads every force off the states before the call; keeps the number of particles |
| Physics.RuleUpToKeeps | src/main.ts:60-91 | `rule` changes no radius |
| Physics.RuleUpToUntouched | src/main.ts:63-90 | a particle of group A whose turn has not come, or one outside A, has not moved |
| Physics.SinglePassAgreesWhenDisjoint | src/main.ts:60-91 | for disjoint groups the in-place pass equals the two-pass reading |
| Physics.ExampleFirstForce | src/main.ts:68-78 | two particles 400 apart with gain 100: the first is pushed back by the unit vector |
| Physics.ExampleFirstStep | src/main.ts:79-85 | the first particle moves before the second's force is summed |
| Physics.ExampleSecondForce | src/main.ts:68-78 | the second then sees the first 401 away, beyond the cutoff, and feels no force |
| Physics.ExampleSinglePass | src/main.ts:60-91 | in the single pass the second particle only coasts by half its velocity |
| Physics.ExampleTwoPass | src/main.ts:60-91 | read off the old positions, the second particle would be pushed by the unit vector as well |
| Physics.SinglePassDiffersWithinAGroup | src/main.ts:60-91 | within one group the in-place pass and the two-pass reading end at different positions |
| Collisions.Collide | src/main.ts:93-107 | `collide(A, B)` on two states: the hit flag and both states afterwards |
| Collisions.CollideSpec | src/main.ts:93-107 | a hit exactly when `rA + rB - d > 0`; without one nothing changes; with one `A + B` is kept, `B - A` grows by `1 + overlap / 2`, velocities and radii are untouched |
| Collisions.ShiftOfSelf | src/main.ts:97-105 | a particle collided with itself does not move |
| Collisions.SweepPairsExact | src/main.ts:123-126 | after row `i` up to `j` the sweep has visited exactly the pairs `p < q < n` before `(i, j)`, in increasing order |
| Collisions.CollisionPairs | src/main.ts:123-126 | the index pairs of the sweep's two loops, in loop order |
| Collisions.CollisionPairsExact | src/main.ts:123-126 | the sweep visits every pair `i < j` of the particles exactly once, in increasing lexicographic order |
| Collisions.CollideFold | src/main.ts:123-136 | `collide` for every pair of a list in turn, each on the states the earlier ones left; keeps the number of particles |
| Collisions.CollideFoldStep | src/main.ts:127 | one more pair collides the two states the earlier pairs left |
| Collisions.CollideFirstKeepsMotion | src/main.ts:93-107 | the sweep changes no velocity and no radius |
| Collisions.CollideFirstKeepsSum | src/main.ts:123-136 | the sweep never moves the particles' centroid |
| Stepping.GroupPairsUpToMembers | src/main.ts:114-118 | the nested group loops have visited the full rows before `a` and the start of row `a`, nothing else |
| Stepping.GroupPairsUpToIncreasing | src/main.ts:114-118 | the group pairs come in increasing order, so none twice |
| Stepping.GroupPairsUpToLength | src/main.ts:114-118 | after `a` rows and `b` more pairs, `a * m + b` pairs have been visited |
| Stepping.GroupPairsExact | src/main.ts:114-118 | `rule` runs once for every ordered pair of groups, the acting group in the outer loop |
| Stepping.Gain | src/main.ts:61 | the gain `rule` applies: `gMaps[colorA][colorB] / 100` |
| Stepping.RuleAt | src/main.ts:116 | one `rule` keeps the number of particles and every radius |
| Stepping.RulesFoldStep | src/main.ts:114-118 | one more group pair applies `rule` to the states the earlier pairs left |
| Stepping.Step | src/main.ts:109-143 | one `update` on the states: nothing while paused, otherwise `rule` for every ordered group pair, then the sweep when collision checking is on |
| Stepping.StepSpec | src/main.ts:113-136 | a step keeps the number of particles and every radius; paused, nothing changes; the sweep does not move the centroid the rules left |
| Stepping.HasGainsAfterDraw | src/main.ts:157-163 | after the drawing loops of `randomGMaps`, groups coloured from `colors` have a gain for every ordered pair, which `update` requires |
| Gains.ColorsExact | src/main.ts:307-318 | ten colours, all different |
| Gains.RandomRow | src/main.ts:159-162 | the inner drawing loop: a row with one `randomInt(minG, maxG)` per colour |
| Gains.RandomTable | src/main.ts:158-163 | the outer drawing loop: every colour's row replaced by a freshly drawn row |
| Gains.RandomRowKeys | src/main.ts:159-162 | a drawn row has exactly the ten colours as keys |
| Gains.RandomRowAt | src/main.ts:160-162 | each colour's gain in a row is `randomInt(minG, maxG)` of its own draw |
| Gains.RandomTableKeys | src/main.ts:158-163 | after the draw the table's rows are the old rows and the ten colours |
| Gains.RandomTableKeeps | src/main.ts:158-163 | rows of other keys are left as they were |
| Gains.RandomTableAt | src/main.ts:158-163 | each colour's row is the row drawn from its own draws |
| Gains.RandomGMapsComplete | src/main.ts:157-163 | every ordered pair of the ten colours gets a `randomInt(minG, maxG)` gain, `minG` plus a whole number below `maxG - minG + 1`; other rows are kept |
| Gains.CopyRow | src/main.ts:189-191 | the inner copy loop: each colour's gain taken from the snapshot row, or dropped when that row lacks it |
| Gains.CopyGains | src/main.ts:188-192 | the outer copy loop: the rows copied in colour order, stopping at the first row missing from either table |
| Gains.CopyRowExact | src/main.ts:189-191 | a copied row holds the snapshot's gain for each colour it has, none for a colour it lacks, and is otherwise unchanged |
| Gains.CopyGainsStops | src/main.ts:188-192 | once a missing row stops the copy, later colours are never reached |
| Gains.CopyGainsCompletes | src/main.ts:188-192 | the copy keeps the set of rows, and completes exactly when every colour has a row in both tables |
| Gains.CopyGainsExact | src/main.ts:188-192 | a completed copy holds the snapshot's gain for every pair of colours the snapshot has; rows of other keys are unchanged |
| Snapshots.Settle | src/main.ts:165-166 | one particle settled: position rounded, velocity scaled by 0 |
| Snapshots.Settled | src/main.ts:164-167 | every particle settled, in order; keeps the number of particles |
| Snapshots.SettledAtRest | src/main.ts:164-167 | after `randomGMaps` every particle is at rest on its rounded, whole position with its radius kept, and settling again changes nothing |
| Snapshots.Restore | src/main.ts:204-212 | the state of a particle rebuilt from its snapshot: stroke `radius * 2`, a copy of the position, the velocity added when present |
| Snapshots.RestoreGroup | src/main.ts:203-215 | the particles of one group snapshot rebuilt, in order; one per particle snapshot |
| Snapshots.Restored | src/main.ts:198-217 | the particles of all group snapshots rebuilt, group after group |
| Snapshots.RestoreExact | src/main.ts:204-212 | a rebuilt particle has the snapshot's radius (stroke `r * 2`, halved) and position, and its velocity (missing components as 0), or zero without one |
| Snapshots.RestoredLength | src/main.ts:198-217 | the rebuilt list has as many particles as the snapshot's groups together |
| Snapshots.RestoredSnoc | src/main.ts:198-217 | the rebuilt list is the groups' rebuilt particles one group after another, in snapshot order |
| Snapshots.RestoreGroupOfRecords | src/main.ts:203-215 | rebuilding from a full record of each particle gives the particles back exactly |
| Engine.Particle.constructor | src/main.ts:8-11 | a new particle is at the given position, at rest, with radius `stroke / 2` |
| Engine.GroupMembers | src/main.ts:13-16 | the `m`-th particle of group `b` is the particle at its span's `m`-th position in the flat list |
| Engine.AppendGroup | src/main.ts:42-58 | appending a group of new particles keeps `particles` the concatenation of the groups, each particle once |
| Engine.ArrivalsAtRest | src/main.ts:42-58 | the particles `addGroup` creates are at rest, of radius 4 (stroke 8), on whole positions |
| Engine.World.constructor | src/main.ts:305-319 | the engine starts with no particles, no groups and an empty gain table |
| Engine.World.AddGroup | src/main.ts:42-58 | `number` new particles at the rounded sampled positions are appended to `particles` and, as one new group, to `groups`; the old ones are kept and the lists stay consistent |
| Engine.NewGroup | src/main.ts:43-56 | the new group has the colour and one new particle per sample, each at rest of radius 4 |
| Engine.World.Update | src/main.ts:109-143 | the particles' new states are one `Step`: `rule` for every group pair, then the sweep when collision checking is on; nothing when paused |
| Engine.ApplyRules | src/main.ts:114-118 | the nested loops apply `rule` to every ordered group pair in order |
| Engine.RuleRow | src/main.ts:115-117 | the inner loop applies `rule(groupA, groupB)` for every `groupB` |
| Engine.RuleNext | src/main.ts:116 | one more group pair's `rule` on the states the earlier pairs left |
| Engine.Rule | src/main.ts:60-91 | the particles' new states are the single in-place pass with gain `gMaps[A][B] / 100` |
| Engine.RuleLoop | src/main.ts:63-90 | the loop over group A's particles is the single in-place pass |
| Engine.Act | src/main.ts:63-90 | one particle of A sums its force over B on the current states, then moves; no other particle changes |
| Engine.SumForce | src/main.ts:64-78 | the summed force is the force of group B on the particle, skipping the particle itself |
| Engine.Push | src/main.ts:71-77 | the force grows by the neighbour's contribution |
| Engine.Advance | src/main.ts:79-85 | velocity becomes `(velocity + force) * 0.5`, then the position moves by the new velocity |
| Engine.PullBack | src/main.ts:87-89 | the position is contained in the sphere of `store.radius`; the velocity is kept |
| Engine.CollideParticles | src/main.ts:93-107 | `collide` on two particle objects, possibly the same one, does what `Collide` says on their states |
| Engine.CollideAll | src/main.ts:123-136 | the sweep collides every pair `i < j` in order |
| Engine.CollideRow | src/main.ts:125-135 | the inner loop collides `i` with every later particle |
| Engine.CollideNext | src/main.ts:126-127 | one more pair collided on the states the earlier pairs left |
| Engine.CollidePair | src/main.ts:124-127 | `collide(particles[i], particles[j])` changes those two states as `Collide` says and no other |
| Engine.World.RandomGMaps | src/main.ts:157-169 | the table gets a fresh random row for every colour, every particle is settled, then a snapshot of the new state is handed to the store unless paused |
| Engine.DrawGains | src/main.ts:158-163 | the nested loops build the drawn table |
| Engine.DrawRow | src/main.ts:159-162 | a colour's row is emptied, then filled with one draw per colour |
| Engine.SettleAll | src/main.ts:164-167 | every particle is rounded and stopped |
| Engine.World.CaptureSnapshot | src/main.ts:177-181 | nothing while paused, otherwise exactly one snapshot of the current state is handed to the store |
| Engine.World.ApplySnapshot | src/main.ts:183-220 | the snapshot's radius, pull back and collision switch go to the store; the gains are copied; unless a row was missing, `groups` is rebuilt in snapshot order from new particles and `particles` is their concatenation with the snapshot's states |
| Engine.World.RestoreSnapshot | src/main.ts:187-219 | the deferred callback: the copy completes exactly when every colour has a row in both tables; if it stops, the particles and groups are untouched |
| Engine.CopyGainTable | src/main.ts:188-192 | the nested loops copy the gains row by row, stopping at the first missing row |
| Engine.CopyRowInto | src/main.ts:189-191 | a colour's row receives the snapshot row's gain for every colour |
| Engine.Rebuild | src/main.ts:196-217 | new groups in snapshot order, each with the snapshot's colour and size, with `particles` their concatenation holding the rebuilt states |
| Engine.RebuildNext | src/main.ts:198-216 | one more group of the snapshot rebuilt and appended; earlier particles kept |
| Engine.RestoreGroupOf | src/main.ts:199-215 | one group rebuilt from new particles, each different from every existing one |
| Engine.RestoreParticle | src/main.ts:204-212 | a new particle with the snapshot's stroke and position, and its velocity added when present |

## Left out

- Rendering, spinning, zoom, the faked-depth stroke, audio, DOM events, `requestAnimationFrame` and `particle.remove()`/`updateGraph()` are presentation and are not modelled.
- The `setTimeout` deferral in `applySnapshot` is treated as synchronous. `Engine.World.RestoreSnapshot` runs right after the store is updated.
- `getRandomVectorInSphere` is not modelled. `addGroup` takes the sampled positions as a parameter and rounds them, as that function does before returning.
- `store.makeSnapshot` is not defined in `src/store/store.ts`. It is a parameter (`Engine.SnapshotMaker`), a function of the settings, the collision switch, the gains and the groups as values. Snapshot ids, timestamps, the history's capacity and undo/redo are not part of this model.
- `Store.Store.PushSnapshot` only records the snapshots it is handed, because the history's behaviour is not in the source.
- `isCheckCollision` is read and set by `src/main.ts` but not declared in `src/store/store.ts`. It is an extra field of `Store.Store`, outside the storable defaults.
- The zustand `create`/`persist` middleware and localStorage are not modelled; `partialize` is modelled as the object it builds.
- `src/ui.tsx`, the snapshot's text encoding, localisation and build tooling are not part of this model.
- `Engine.World.AddGroup` and `Engine.Rebuild` build each group first and append its particles to `particles` after that group's loop. The source pushes each particle to both lists as it goes. The final state is the same.
- `Engine.Particle` holds `translate` and `velocity` as `Vec3` values, not `Vector` objects. Each particle's vectors are its own objects in the source, so no aliasing is lost. The `Vector` extensions are modelled separately on `Vectors.Vector`.
- IEEE floating point is not modelled: rounding, NaN and infinities are absent, and `Math.sqrt` is any exact square root. The source's `d && d >= 0` guard is modelled as `d != 0 && d >= 0`.
- Engine.World.Update: requires a gain for every ordered pair of the groups' colours. Without one the source throws a `TypeError` (missing row) or computes NaN (missing entry), neither of which the real-number model can express. The program's own start-up meets the requirement: it creates one group per entry of `colors` and then calls `randomGMaps`, and `Stepping.HasGainsAfterDraw` shows that such groups have every gain.
- Engine.World.RandomGMaps: requires the particles to be distinct objects, as the engine's invariant guarantees. The source also runs on a list that repeats a particle, rounding and stopping it twice.
- Engine.World.ApplySnapshot: a missing gain row ends the copy with `completed` false and the particles untouched. The source throws there, and the `TypeError` itself is not modelled.
- The `Partial` argument of `add2`/`subtract2` counts a missing component as 0. A present component that is falsy (0 or NaN) also adds 0, the same result over the reals.
