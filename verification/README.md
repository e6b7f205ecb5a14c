# Black-Grimoire engine core in Dafny

A model of the core of the Black-Grimoire game engine:

- **Entity allocator.** Packed 32-bit entity handles carry a 24-bit slot index and an 8-bit generation. Freed slots are recycled once more than 1024 are queued.
- **Component stores.** Six component systems follow one storage pattern: a map from entity to a dense index, plus a dense vector of records that each name their owner. Removal swaps the last record into the hole.
  - *Transformation*: position, scale, pivot and rotation.
  - *Health*: current and maximum hitpoints. The update pass clamps overhealing and destroys dead owners.
  - *Rigid body*: axis-aligned boxes. A fixed-step integrator runs at 60 Hz with gravity, collision detection, impulse response, positional correction, foothold marking and contact damage. The component also has a ray cast.
  - *Drawable*: one render job per active owner.
  - *Text*: one render job per glyph of a 10 × 10 bitmap font, laid out left to right with line breaks.
  - *Particle emitter*: a fixed pool of inactive particle entities. They are relaunched one per 1/50 s period from the owner's position and retired after their lifetime.
- **Range.** A closed interval with its midpoint, random draw and clamped interpolation.
- **Byte codec.** `read_struct` / `write_struct` on little-endian 32-bit values and on the eight-float vertex record.
- **PLY model builder.** A line-by-line state machine over header, vertex and face lines. It writes the vertex count, the index count, the vertices and the indices.
- **Managers.** The model manager reads that file back and caches models by name. The texture manager caches textures by file name and deduplicates texture sets.
- **Renderer bookkeeping.** Render jobs are bucketed by shader, vertex array and texture set. The buckets are rebuilt whenever a new model or texture set appears. `present` issues its batched instanced draws, the framebuffer swaps its buffers, and the resize step computes a letterbox viewport.

## How the model is built

Everything is written as pure functions on immutable datatypes, with one module per source file. The store pattern is defined once, in `ComponentStore`.

- **Floats.** `f32` is modelled as `real`. The model builder and the codec keep floats as their 32-bit patterns.
- **Panics.** A panic that input data can cause becomes a `Result` failure: an `unwrap` on a missing component, a short read, a malformed PLY line. A panic that only a broken invariant could cause becomes a precondition.
- **Outside effects become parameters.**
  - The file system is a map from path to contents, and the decoded PNG images are a map from file name to size.
  - The GL names a load would generate are parameters.
  - The random number generator is a function of the draw number.
  - The `f32::from_str` parser is a function.

## Model

| member | source | states |
|---|---|---|
| Entities.Null | src/ecs/mod.rs:17-20 | the null handle has slot 0 and generation 0 |
| Entities.SplitFields | src/ecs/mod.rs:22-35 | packing a 24-bit index and a generation and unpacking them gives both back |
| Entities.New | src/ecs/mod.rs:22-27 | a built handle's index is the index masked to 24 bits and its generation is the given one |
| Entities.NewInjective | src/ecs/mod.rs:22-35 | two handles with in-range indices are equal exactly when index and generation are equal |
| Entities.NullIsNewZero | src/ecs/mod.rs:17-27 | the null handle is the handle of slot 0 at generation 0 |
| Entities.CreateNewEntity | src/ecs/mod.rs:70-83 | with more than 1024 queued slots the oldest is reused and reactivated, the handle and the slot keeping the slot's current generation; otherwise a new slot at generation 0 is appended; other slots unchanged |
| Entities.NewEntityManager | src/ecs/mod.rs:45-55 | a new allocator has one slot, reserved by the null handle, which is alive and active |
| Entities.FirstCreatedEntityIsIndexOne | src/ecs/mod.rs:45-83 | the first entity a caller creates is slot 1, generation 0 |
| Entities.DestroyEntity | src/ecs/mod.rs:93-97 | destroying bumps the slot's generation modulo 256 and queues the slot; active flags and other slots unchanged |
| Entities.DestroyKills | src/ecs/mod.rs:89-97 | an alive handle is not alive after it is destroyed |
| Entities.DestroyTwice | src/ecs/mod.rs:93-97 | destroying twice bumps the generation twice and queues the slot twice |
| Entities.NextHandleDiffersFromDestroyed | src/ecs/mod.rs:70-97 | the next handle created after destroying an alive handle differs from it |
| Entities.SetEntityIsActive | src/ecs/mod.rs:57-61 | only an alive handle's flag is set; every other slot is unchanged |
| Entities.ToggleEntityIsActive | src/ecs/mod.rs:63-68 | only an alive handle's flag flips |
| Entities.ToggleTwiceRestores | src/ecs/mod.rs:63-68 | toggling an alive handle twice restores the allocator |
| ComponentStore.Empty | src/ecs/components/transformation.rs:80-85 | a new store is valid and empty |
| ComponentStore.Lookup | src/ecs/components/transformation.rs:150-169 | a lookup finds a record exactly when the entity has one, and returns that record |
| ComponentStore.Append | src/ecs/components/transformation.rs:87-97 | adding maps the entity to the new last record; every other entity keeps its record |
| ComponentStore.RemoveKeepsValid | src/ecs/components/transformation.rs:99-124 | swap-remove with the map repair keeps map and dense vector consistent |
| ComponentStore.RemoveSpec | src/ecs/components/transformation.rs:99-124 | removal drops exactly the entity's record; the null or an absent entity changes nothing; others keep their records |
| ComponentStore.Modify | src/ecs/components/transformation.rs:191-200 | an in-place write changes only the addressed record |
| ComponentStore.Update | src/ecs/components/rigid_body.rs:265-272 | a setter without a null test writes only the entity's record, and is a no-op without one |
| ComponentStore.GuardedUpdate | src/ecs/components/transformation.rs:191-200 | a setter with a null test writes only the record of a non-null entity that has one |
| ComponentStore.AppendThenRemove | src/ecs/components/transformation.rs:87-124 | adding then removing a fresh entity leaves every other entity's record as before |
| ComponentStore.OwnersDistinct | src/ecs/components/transformation.rs:87-97 | distinct dense positions hold distinct owners |
| ComponentStore.SameOwnersKeepValid | src/ecs/components/health.rs:120-128 | rewriting bodies in place with owners kept keeps the store valid |
| ComponentStore.ActiveRecords | src/ecs/components/drawable.rs:196-197 | the records visited by a draw pass are records of the store with active owners, and every record with an active owner is visited |
| ComponentStore.ActiveRecordsAppend | src/ecs/components/drawable.rs:196-197 | the pass visits the records of a concatenation as those of the first part, then those of the second: dense order is kept |
| ComponentStore.ActiveRecordsSingle | src/ecs/components/drawable.rs:197 | one record is visited exactly when its owner is active |
| Transformation.BuilderDefaults | src/ecs/components/transformation.rs:56-76 | an empty builder gives position 0, unit scale, pivot 0 and identity rotation |
| Transformation.BuilderOverrides | src/ecs/components/transformation.rs:36-76 | each supplied field replaces its default and nothing else |
| Transformation.AddTransformation | src/ecs/components/transformation.rs:87-97 | a no-op when the entity already has a transformation; otherwise the built record is added; others unchanged |
| Transformation.RemoveTransformation | src/ecs/components/transformation.rs:99-124 | removes exactly the entity's record; the null or an absent entity is a no-op |
| Transformation.GetPosition | src/ecs/components/transformation.rs:150-155 | present exactly when the entity has a transformation, and then its position |
| Transformation.SetPosition | src/ecs/components/transformation.rs:191-200 | only a non-null entity's position changes |
| Transformation.SetScale | src/ecs/components/transformation.rs:202-211 | only a non-null entity's scale changes |
| Transformation.SetRotation | src/ecs/components/transformation.rs:180-189 | only a non-null entity's rotation changes |
| Transformation.ApplyMovement | src/ecs/components/transformation.rs:213-222 | a non-null entity's position moves by the vector; nothing else changes |
| Transformation.ApplyMovementUndo | src/ecs/components/transformation.rs:213-222 | moving by m and then by -m restores the store |
| Transformation.Translate | src/ecs/components/transformation.rs:157-162 | the write through `get_position_mut` moves the position and keeps the other fields and records |
| Health.BuilderDefaults | src/ecs/components/health.rs:20-37 | hitpoints default to (1, 1); supplied hitpoints are kept |
| Health.AddHealth | src/ecs/components/health.rs:48-58 | ignores the null entity and entities with health; otherwise adds the built record |
| Health.RemoveHealth | src/ecs/components/health.rs:60-85 | removes exactly the entity's record; the null or an absent entity is a no-op |
| Health.Heal | src/ecs/components/health.rs:87-96 | raises only the current hitpoints of a non-null entity |
| Health.Harm | src/ecs/components/health.rs:98-107 | lowers only the current hitpoints of a non-null entity |
| Health.HarmUndoesHeal | src/ecs/components/health.rs:87-107 | harm by the amount healed restores the store |
| Health.KillEntity | src/ecs/components/health.rs:109-118 | current hitpoints become `f32::MIN`, at or below zero |
| Health.SettleRecords | src/ecs/components/health.rs:120-128 | overhealed records are clamped to max; all other records are unchanged; owners kept |
| Health.DestroyDead | src/ecs/components/health.rs:120-128 | the destroy calls keep the allocator valid and the flags unchanged |
| Health.DestroyDeadQueues | src/ecs/components/health.rs:120-128 | the pass queues the slot of every dead, not overhealed record, in dense order |
| Health.DestroyDeadGeneration | src/ecs/components/health.rs:120-128 | each slot's generation advances once per dead record owned through it, modulo 256 |
| Health.Update | src/ecs/components/health.rs:120-128 | records are settled, never removed, and dead owners are destroyed in dense order |
| Health.DeadStaysDead | src/ecs/components/health.rs:120-128 | a dead record stays dead and listed after the pass |
| Health.DeadIndexListed | src/ecs/components/health.rs:120-128 | every dead record's slot is among the destroyed slots |
| Health.DeathsAtSole | src/ecs/components/health.rs:120-128 | a dead record that alone owns its slot bumps that slot exactly once |
| Health.NoDeathsAt | src/ecs/components/health.rs:120-128 | a slot with no dead owner is not bumped |
| Health.HarmThenUpdateDestroys | src/ecs/components/health.rs:98-128 | harming an alive entity to zero or below, then updating, leaves its handle dead |
| RigidBodies.WithMass | src/ecs/components/rigid_body.rs:145-153 | a positive mass is stored as its inverse, any other as 0; nothing else changes |
| RigidBodies.BuilderDefaults | src/ecs/components/rigid_body.rs:96-187 | offset 0, half extents 0.5, at rest, elasticity 0, inverse mass 0, no damage; no foothold or locomotion after build |
| RigidBodies.NewSystem | src/ecs/components/rigid_body.rs:191-198 | a new system has an empty store and an empty accumulator |
| RigidBodies.AddRigidBody | src/ecs/components/rigid_body.rs:200-218 | ignored when the entity has a body or no transformation; keeps bodies attached and masses non-negative |
| RigidBodies.RemoveRigidBody | src/ecs/components/rigid_body.rs:220-248 | removes exactly the entity's body; the null or an absent entity is a no-op |
| RigidBodies.GetExtents | src/ecs/components/rigid_body.rs:254-263 | present exactly for a non-null entity with a body, and then its extents |
| RigidBodies.SetLocomotion | src/ecs/components/rigid_body.rs:265-272 | replaces only the locomotion, with no null test |
| RigidBodies.SetGravityImmunity | src/ecs/components/rigid_body.rs:274-281 | replaces only the immunity of a non-null entity |
| RigidBodies.ApplyForce | src/ecs/components/rigid_body.rs:283-290 | adds the force to the velocity only |
| RigidBodies.ApplyFlightForce | src/ecs/components/rigid_body.rs:292-303 | raises the vertical velocity to at least the force; nothing else |
| RigidBodies.ApplyFlightForceIdempotent | src/ecs/components/rigid_body.rs:292-303 | the same flight force twice equals once |
| RigidBodies.SetVelocity | src/ecs/components/rigid_body.rs:305-312 | replaces only the velocity |
| RigidBodies.EntityHasFoothold | src/ecs/components/rigid_body.rs:314-323 | true exactly for a non-null entity whose body has a foothold |
| RigidBodies.Colliding | src/ecs/components/rigid_body.rs:47-93 | a contact exactly when the boxes overlap on all three axes; penetration is the least overlap; the normal is a unit axis of least overlap, pointing from self to other |
| RigidBodies.CollidingSymmetric | src/ecs/components/rigid_body.rs:47-93 | the pair tested the other way round collides equally, with the same penetration |
| RigidBodies.ResolveVelocities | src/ecs/components/rigid_body.rs:460-480 | the relative normal velocity after the impulse is -e times before; momentum weighted by the masses is conserved; a static body keeps its velocity |
| RigidBodies.Corrections | src/ecs/components/rigid_body.rs:482-486 | the two corrections add up to the normal times the penetration; a static body gets none |
| RigidBodies.CorrectionsAdd | src/ecs/components/rigid_body.rs:482-486 | the shares by mass factor add up to the whole penetration |
| RigidBodies.OverStepIsScale | src/ecs/components/rigid_body.rs:392-396 | the per-step integration scales by the 1/60 s step |
| RigidBodies.MoveFrom | src/ecs/components/rigid_body.rs:386-399 | the position writes of the integration loop keep the transformation store valid |
| RigidBodies.MoveFromKeeps | src/ecs/components/rigid_body.rs:386-399 | an owner without a body in the range keeps its transformation |
| RigidBodies.MoveFromMoves | src/ecs/components/rigid_body.rs:386-399 | each body's owner moves by that body's displacement |
| RigidBodies.UpdateColliders | src/ecs/components/rigid_body.rs:380-400 | integration keeps the world consistent and touches no health |
| RigidBodies.UpdateCollidersBody | src/ecs/components/rigid_body.rs:386-399 | each body takes its step velocity and loses its locomotion and foothold; its owner moves by its displacement |
| RigidBodies.StepVelocityCases | src/ecs/components/rigid_body.rs:392-396 | gravity over one step is added exactly to a dynamic, non-immune body; the displacement is (velocity + locomotion) times the step |
| RigidBodies.DisplacementAtRest | src/ecs/components/rigid_body.rs:392-396 | a static body at rest with no locomotion does not move |
| RigidBodies.UpdateCollidersKeepsOthers | src/ecs/components/rigid_body.rs:386-399 | entities without a body keep their transformation |
| RigidBodies.StaticBodyStaysPut | src/ecs/components/rigid_body.rs:380-400 | a static body at rest with no locomotion keeps its position and zero velocity |
| RigidBodies.DamageTo | src/ecs/components/rigid_body.rs:495-519 | an owner with health is harmed by the damage and killed when it dies on collision; nothing else changes |
| RigidBodies.SetPair | src/ecs/components/rigid_body.rs:450-480 | writing the pair's bodies keeps owners and fixed fields and leaves other bodies alone |
| RigidBodies.PushApart | src/ecs/components/rigid_body.rs:488-493 | i's owner moves by minus its correction, j's by its correction; other transformations unchanged |
| RigidBodies.DamagePair | src/ecs/components/rigid_body.rs:495-519 | the damage exchange touches only the two owners' health |
| RigidBodies.DamagePairEffect | src/ecs/components/rigid_body.rs:495-519 | each owner with health takes the other body's damage, or dies when it dies on collision |
| RigidBodies.FrameTrans | src/ecs/components/rigid_body.rs:432-525 | the step's invariant frame composes |
| RigidBodies.ResolveContact | src/ecs/components/rigid_body.rs:449-520 | resolving a contact keeps the world consistent and changes only the pair's bodies |
| RigidBodies.ResolvePair | src/ecs/components/rigid_body.rs:438-523 | one inner-loop iteration keeps the world consistent and changes only the pair's bodies |
| RigidBodies.ResolvePairCases | src/ecs/components/rigid_body.rs:439-521 | a pair without contact is untouched; a contact has a dynamic body and is resolved |
| RigidBodies.ResolveContactFoothold | src/ecs/components/rigid_body.rs:450-458 | a static i under a +Y normal grounds j; a static j under -Y grounds i |
| RigidBodies.ResolveContactSeparating | src/ecs/components/rigid_body.rs:460-468 | a separating contact gets no impulse, correction or damage |
| RigidBodies.ResolveContactRestitution | src/ecs/components/rigid_body.rs:460-480 | on an approaching contact the relative normal velocity becomes -e times its value, e the larger elasticity |
| RigidBodies.ImpulseOnBodies | src/ecs/components/rigid_body.rs:470-480 | the impulse reverses the normal velocity by the elasticity and conserves momentum |
| RigidBodies.ResolveContactVelocities | src/ecs/components/rigid_body.rs:470-480 | the contact writes the velocities the impulse computes |
| RigidBodies.ResolveContactCorrection | src/ecs/components/rigid_body.rs:482-493 | the owners are pushed apart along the normal by the penetration in total |
| RigidBodies.ResolveContactPositions | src/ecs/components/rigid_body.rs:482-493 | i's owner moves by minus its share and j's by its share |
| RigidBodies.CorrectionGap | src/ecs/components/rigid_body.rs:488-493 | the corrections widen the gap from i to j by their sum |
| RigidBodies.ResolveContactDamage | src/ecs/components/rigid_body.rs:495-519 | on an approaching contact each owner with health takes the other body's damage |
| RigidBodies.ResolvePairKeepsOtherTransformations | src/ecs/components/rigid_body.rs:438-523 | transformations of non-owners of the pair are unchanged |
| RigidBodies.ResolvePairKeepsOtherHealth | src/ecs/components/rigid_body.rs:438-523 | health of non-owners of the pair is unchanged |
| RigidBodies.PairsWith | src/ecs/components/rigid_body.rs:438-524 | the inner loop keeps the world consistent |
| RigidBodies.PairsFrom | src/ecs/components/rigid_body.rs:432-525 | the outer loop keeps the world consistent |
| RigidBodies.Step | src/ecs/components/rigid_body.rs:418-525 | one fixed step keeps the world consistent |
| RigidBodies.StaticPairUntouched | src/ecs/components/rigid_body.rs:439-440 | a pair of static bodies is skipped |
| RigidBodies.PairsWithAllStatic | src/ecs/components/rigid_body.rs:438-524 | the inner loop leaves an all-static world unchanged |
| RigidBodies.PairsFromAllStatic | src/ecs/components/rigid_body.rs:432-525 | static bodies never interact: the collision pass leaves them unchanged |
| RigidBodies.SubSteps | src/ecs/components/rigid_body.rs:417-419 | steps are taken while a whole 1/60 s is accumulated; the accumulator ends below one step and accounts for every step taken |
| RigidBodies.SubStepsCount | src/ecs/components/rigid_body.rs:417-419 | the number of steps is the whole number of 1/60 s in the accumulator |
| RigidBodies.StoreOwnersDistinct | src/ecs/components/rigid_body.rs:200-218 | no owner has two bodies |
| RigidBodies.UpdateSystem | src/ecs/components/rigid_body.rs:402-527 | `update` adds dt; without bodies or a whole step it changes nothing else; it panics exactly when a step is due and some body's owner has no transformation; otherwise it steps until below one step, keeping all three stores valid and every body attached |
| RigidBodies.RayVsAabbMeaning | src/ecs/components/rigid_body.rs:361-378 | as written, the test depends only on the x slab: it holds exactly when the box's far x face lies ahead of the origin |
| RigidBodies.SlabTest | src/ecs/components/rigid_body.rs:365-377 | the slab comparison holds exactly when the far entry is positive |
| RigidBodies.RayHitsBoxOffTheLine | src/ecs/components/rigid_body.rs:361-378 | a box 100 units off the ray's line is reported hit |
| RigidBodies.RayCast | src/ecs/components/rigid_body.rs:326-358 | panics exactly when some body's owner has no transformation; otherwise None exactly when no other body is hit, else the nearest hit by squared distance, the first in dense order among equals |
| Drawables.Build | src/ecs/components/drawable.rs:84-116 | the resolved handles are kept |
| Drawables.BuilderDefaults | src/ecs/components/drawable.rs:84-116 | defaults are sprite, cube, (pixel.png, black.png), whole texture window, white tint, no emissive tint |
| Drawables.BuildWithRenderer | src/ecs/components/drawable.rs:84-98 | build succeeds exactly when the renderer resolves the three names, and fails on an unknown shader |
| Drawables.AddDrawable | src/ecs/components/drawable.rs:127-146 | the store half of the add: ignored when the entity has a drawable or no transformation; otherwise the record is added |
| Drawables.AddDrawableWithRenderer | src/ecs/components/drawable.rs:127-146 | an ignored add leaves store and renderer as they were; otherwise it fails exactly when the build fails, and adds the built record with the renderer the build left |
| Drawables.IgnoredAddSkipsBuild | src/ecs/components/drawable.rs:134-143 | an add that is ignored succeeds unchanged even though building would fail on an unknown shader |
| Drawables.RemoveDrawable | src/ecs/components/drawable.rs:148-173 | removes exactly the entity's drawable |
| Drawables.SetTint | src/ecs/components/drawable.rs:179-188 | only a non-null entity's tint changes |
| Drawables.JobFor | src/ecs/components/drawable.rs:202-214 | the job carries the drawable's shader, model and texture set |
| Drawables.DrawJobsActive | src/ecs/components/drawable.rs:196-216 | one job per drawable of an active owner, in dense order, placed by that owner's transformation |
| Drawables.DrawAll | src/ecs/components/drawable.rs:190-217 | the pass completes exactly when every active owner has a transformation, and then emits those jobs |
| Texts.Build | src/ecs/components/text.rs:95-140 | the resolved handles are kept and every character is 6 × 6, whatever the font's size |
| Texts.BuilderDefaults | src/ecs/components/text.rs:42-140 | defaults are test, cube, (font.png, black.png), the text "Text", offset 0 |
| Texts.BuildWithRenderer | src/ecs/components/text.rs:95-109 | build succeeds exactly when the renderer resolves the three names |
| Texts.AddText | src/ecs/components/text.rs:151-170 | the store half of the add: ignored when the entity has a text or no transformation; otherwise the record is added |
| Texts.AddTextWithRenderer | src/ecs/components/text.rs:151-170 | an ignored add leaves store and renderer as they were; otherwise it fails exactly when the build fails, and adds the built record with the renderer the build left |
| Texts.IgnoredAddSkipsBuild | src/ecs/components/text.rs:158-166 | an add that is ignored succeeds unchanged even though building would fail on an unknown shader |
| Texts.RemoveText | src/ecs/components/text.rs:172-197 | removes exactly the entity's text |
| Texts.SetTint | src/ecs/components/text.rs:203-212 | only a non-null entity's tint changes |
| Texts.SetText | src/ecs/components/text.rs:214-223 | only a non-null entity's string changes |
| Texts.CellGlyph | src/ecs/components/text.rs:241-314 | a cell shows a character exactly when it is a font cell |
| Texts.GlyphCellShowsGlyph | src/ecs/components/text.rs:241-314 | every character of the table lands on a cell that shows it |
| Texts.CellGlyphIsMapped | src/ecs/components/text.rs:241-314 | every font cell is reached by its character |
| Texts.GlyphCellInjective | src/ecs/components/text.rs:241-314 | distinct characters never share a cell |
| Texts.ControlCharactersHaveNoCell | src/ecs/components/text.rs:315-323 | line break and space have no cell |
| Texts.Glyphs | src/ecs/components/text.rs:240-325 | the characters that get a job are the ones with a cell |
| Texts.Advance | src/ecs/components/text.rs:320-323 | a glyph or space advances along the row only |
| Texts.LineBreak | src/ecs/components/text.rs:315-319 | a line break returns to the owner's x at the same depth |
| Texts.Layout | src/ecs/components/text.rs:240-342 | one placement per font character in order, each with that character's cell |
| Texts.LayoutAppend | src/ecs/components/text.rs:240-342 | laying out a concatenation continues from where the first part ended |
| Texts.SingleLine | src/ecs/components/text.rs:320-341 | without line breaks, placements stay on the cursor's row and run strictly left to right |
| Texts.SingleLine' | src/ecs/components/text.rs:320-341 | without line breaks the row never changes |
| Texts.NeverAboveStart | src/ecs/components/text.rs:315-341 | with a positive line height nothing is placed above the start |
| Texts.LineBreakSeparates | src/ecs/components/text.rs:315-341 | everything after a line break sits strictly below everything before it |
| Texts.BreakClosesLine | src/ecs/components/text.rs:315-341 | a line break places no glyph and moves the cursor below a line whose glyphs share the starting row |
| Texts.EndCursorAppend | src/ecs/components/text.rs:240-342 | the cursor after a concatenation is the cursor after each part in turn |
| Texts.JobsForSpec | src/ecs/components/text.rs:327-341 | one job per font character: its cell's texture window, character scale, placement plus offset |
| Texts.NoGlyphsNoJobs | src/ecs/components/text.rs:315-324 | a string without font characters draws nothing |
| Texts.TextJobsCount | src/ecs/components/text.rs:231-344 | the active texts emit exactly one job per font character they hold |
| Texts.TextJobsActiveOnly | src/ecs/components/text.rs:231-235 | inactive owners draw nothing |
| Texts.DrawAll | src/ecs/components/text.rs:225-346 | the pass completes exactly when every active owner has a transformation, and then emits those jobs |
| Ranges.NewRange | src/range.rs:10-23 | the built range has the given ends |
| Ranges.GetAverage | src/range.rs:25-27 | the midpoint, between the ends of an ordered range |
| Ranges.GetRandom | src/range.rs:29-31 | a factor in [0, 1] gives a value inside an ordered range |
| Ranges.Clamp01 | src/range.rs:34 | the factor clamped to [0, 1] |
| Ranges.Lerp | src/range.rs:33-36 | inside an ordered range; the lower end at or below 0, the upper at or above 1 |
| Ranges.LerpIsRandomAtClampedFactor | src/range.rs:29-36 | interpolation is the random draw at the clamped factor |
| Ranges.LerpMonotone | src/range.rs:33-36 | on an ordered range interpolation never decreases |
| Codec.EncodeU32 | src/utilities.rs:76-87 | a 32-bit value's image is four bytes |
| Codec.DecodeEncodeU32 | src/utilities.rs:59-87 | decoding an encoded value gives it back |
| Codec.EncodeDecodeU32 | src/utilities.rs:59-87 | every four bytes are the image of exactly one value |
| Codec.EncodeU32s | src/utilities.rs:76-87 | a run of values takes four bytes each |
| Codec.EncodeU32sAppend | src/utilities.rs:76-87 | the image of a concatenation is the concatenation of images |
| Codec.ReadStruct | src/utilities.rs:59-74 | `read_exact` succeeds exactly when enough bytes remain and splits off exactly that many |
| Codec.ReadU32 | src/utilities.rs:59-74 | a read succeeds exactly with four bytes left and consumes one value's image |
| Codec.ReadEncodedU32 | src/utilities.rs:59-87 | reading a written value gives it and the rest back |
| Codec.ReadU32s | src/renderer/model_manager.rs:63-70 | count reads succeed exactly when 4·count bytes remain |
| Codec.ReadEncodedU32s | src/renderer/model_manager.rs:63-70 | the reads consume exactly the values that were written |
| Codec.WriteStruct | src/utilities.rs:76-87 | a write fails only on a writer error; a full write appends the whole image and reports its size |
| Codec.ShortWriteIsSuccess | src/utilities.rs:82-85 | a short write still reports success with fewer bytes written |
| Vertices.Negate | src/bin/model_builder.rs:81 | multiplying by -1 flips the sign bit only |
| Vertices.NegateTwice | src/bin/model_builder.rs:81 | negating twice restores the value |
| Vertices.Fields | src/renderer/mod.rs:23-27 | a vertex is eight floats |
| Vertices.FieldsRoundTrip | src/renderer/mod.rs:23-27 | vertex and its eight fields convert both ways |
| Vertices.EncodeVertex | src/utilities.rs:76-87 | a vertex's image is 32 bytes |
| Vertices.EncodeVertices | src/bin/model_builder.rs:126-131 | vertices take 32 bytes each |
| Vertices.ReadVertex | src/utilities.rs:59-74 | succeeds exactly with 32 bytes left and consumes one vertex image |
| Vertices.ReadEncodedVertex | src/utilities.rs:59-87 | reading a written vertex gives it back |
| Vertices.ReadVertices | src/renderer/model_manager.rs:54-61 | count reads succeed exactly when 32·count bytes remain |
| Vertices.ReadEncodedVertices | src/renderer/model_manager.rs:54-61 | the reads consume exactly the vertices that were written |
| ModelBuilder.DigitChar | src/bin/model_builder.rs:96 | a digit's character has that value |
| ModelBuilder.ParseUnsigned | src/bin/model_builder.rs:61-64 | an accepted value is below the type's limit; the empty word is rejected |
| ModelBuilder.ParseU32 | src/bin/model_builder.rs:96 | `u32::from_str` is the unsigned parser at 2^32 |
| ModelBuilder.FormatDecimal | src/bin/model_builder.rs:96 | decimal text is non-empty digits |
| ModelBuilder.DigitsValueFormat | src/bin/model_builder.rs:96 | the decimal text of n has value n |
| ModelBuilder.ParseFormatted | src/bin/model_builder.rs:61-96 | parsing the decimal text of a value gives it back when it fits, and fails otherwise |
| ModelBuilder.ParseRejectsMinus | src/bin/model_builder.rs:61-96 | a leading minus is rejected |
| ModelBuilder.ParseAll | src/bin/model_builder.rs:95-97 | succeeds exactly when every word parses, giving each parsed value |
| ModelBuilder.HeaderLine | src/bin/model_builder.rs:58-70 | an empty header line panics, and so does a count that does not parse or whose `reserve_exact` would pass `isize::MAX` bytes; `element vertex n` otherwise sets the count; `end_header` ends the header; other lines change nothing |
| ModelBuilder.HugeCountOverflows | src/bin/model_builder.rs:61-66 | a declared count that parses as a `usize` but is too large to reserve stops the conversion |
| ModelBuilder.VertexLine | src/bin/model_builder.rs:71-91 | eight floats make one vertex with the second texture coordinate negated; the phase ends when the count is reached |
| ModelBuilder.FaceLine | src/bin/model_builder.rs:92-98 | the first word is dropped and every other word is appended as an index |
| ModelBuilder.Step | src/bin/model_builder.rs:50-98 | one line keeps the phase invariant |
| ModelBuilder.Run | src/bin/model_builder.rs:50-99 | the loop keeps the phase invariant |
| ModelBuilder.CollectedCounts | src/bin/model_builder.rs:50-99 | once any index is read, exactly the declared number of vertices was read |
| ModelBuilder.ZeroCountNeverEndsVertices | src/bin/model_builder.rs:89-91 | with a declared count of 0 every later line is a vertex and no index is read |
| ModelFile.ModelFileImage | src/bin/model_builder.rs:113-138 | the file is 8 bytes of counts, 32 per vertex and 4 per index |
| ModelBuilder.ConvertModel | src/bin/model_builder.rs:12-138 | nothing is written without exactly two arguments and a readable file; otherwise the output always goes to `test`, holds 8 bytes of counts, 32 per vertex and 4 per index, and `load_model`'s reader gets back exactly the collected vertices and indices when both counts fit a `u32` |
| Models.ToI32 | src/renderer/model.rs:81 | `as GLsizei` keeps the low 32 bits as a signed value |
| Models.NewModel | src/renderer/model.rs:21-92 | a model keeps its data, and its info has the index count |
| Models.NewModelManager | src/renderer/model_manager.rs:15-19 | a new manager is empty |
| Models.AddModel | src/renderer/model_manager.rs:25-34 | inserts or replaces under the name; other models unchanged |
| Models.ClearAllModels | src/renderer/model_manager.rs:75-77 | no model remains |
| ModelFile.ReadCounts | src/renderer/model_manager.rs:41-49 | two counts are read exactly when eight bytes are there |
| ModelFile.ReadModelFile | src/renderer/model_manager.rs:41-70 | a file shorter than the two counts fails |
| ModelFile.ReadModelFileConsumesImage | src/renderer/model_manager.rs:41-70 | a successful read consumed a prefix that is the builder's image of what it read |
| ModelFile.ModelFileRoundTrip | src/renderer/model_manager.rs:41-70 | reading what the builder wrote gives back its vertices and indices, whatever follows |
| ModelFile.ModelFileReadsBack | src/renderer/model_manager.rs:41-70 | the builder's image on its own reads back as its vertices and indices |
| Models.LoadModel | src/renderer/model_manager.rs:36-73 | loading succeeds exactly when the file exists, reads fully and has a vertex and an index; the model is then added for triangles |
| Models.GetModel | src/renderer/model_manager.rs:79-102 | a cached model answers (false, info); otherwise a load answers (true, info) |
| Models.GetModelCaches | src/renderer/model_manager.rs:79-102 | a second request is served from the cache |
| Models.ClearForcesReload | src/renderer/model_manager.rs:75-102 | after clearing, every request loads |
| Models.ConvertedModelLoads | src/renderer/model_manager.rs:36-73 | a model the builder converted loads back as exactly that data |
| Models.BuiltModelLoads | src/renderer/model_manager.rs:36-73 | the builder's output for a PLY file, installed as a model's file, loads as exactly the vertices and indices collected from the PLY lines |
| Textures.NewTextureManager | src/renderer/texture_manager.rs:18-24 | a new manager is empty |
| Textures.LoadTexture | src/renderer/texture_manager.rs:105-136 | loading succeeds exactly for a decodable file and records its id and size |
| Textures.GetTexture | src/renderer/texture_manager.rs:55-76 | a cached texture answers (false, t); otherwise a load answers (true, t) |
| Textures.GetTextureCaches | src/renderer/texture_manager.rs:55-76 | a second request is served from the cache |
| Textures.FindSet | src/renderer/texture_manager.rs:142-146 | the first position holding the pair, or none holds it |
| Textures.GetTextureSet | src/renderer/texture_manager.rs:138-150 | succeeds exactly when each name is cached or decodes; an existing pair answers (false, its index); a new pair is appended and answers (true, new index) |
| Textures.GetTextureSetTwice | src/renderer/texture_manager.rs:138-150 | asking twice answers (false, same index) |
| Textures.GetTextureSetData | src/renderer/texture_manager.rs:47-53 | the stored pair for an existing set, (0, 0) otherwise |
| Textures.ClearAllTextures | src/renderer/texture_manager.rs:89-95 | textures are forgotten and sets kept |
| Textures.SetIndicesStable | src/renderer/texture_manager.rs:89-150 | a set index keeps naming the same pair across requests and clearing |
| Textures.GetTextureSetSizes | src/renderer/texture_manager.rs:30-45 | as written, always two zero sizes |
| Textures.TextureSetSizes | src/renderer/texture_manager.rs:30-42 | the sizes the loop computes: the albedo's and the emissive's, zero when missing |
| Textures.SizesDiscarded | src/renderer/texture_manager.rs:30-45 | for an 8 × 8 texture the loop finds 8 × 8 but the function answers zero |
| Renderer.AddRenderJob | src/renderer/mod.rs:606-639 | a job is appended to exactly its bucket when all three keys exist; keys never change |
| Renderer.AddRenderJobMissingKey | src/renderer/mod.rs:606-639 | a job with a missing key is dropped |
| Renderer.EmptySets | src/renderer/mod.rs:449-455 | an empty job list for every texture set below the count |
| Renderer.RebuildJobQueues | src/renderer/mod.rs:420-456 | every shader, model and set below the count gets an empty bucket; every bucket is empty |
| Renderer.RebuildAcceptsJobs | src/renderer/mod.rs:420-456 | after a rebuild a job with known keys lands in its bucket |
| Renderer.UniqueInfos | src/renderer/model.rs:86-92 | distinct models give distinct vertex arrays |
| Renderer.Rebuild | src/renderer/mod.rs:420-456 | the rebuild from the managers makes every bucket a job could need |
| Renderer.GetTextureSetAndRebuild | src/renderer/mod.rs:505-514 | rebuilds exactly when the set is new |
| Renderer.GetModelAndRebuild | src/renderer/mod.rs:520-534 | rebuilds exactly when the model was loaded |
| Renderer.TextureTriggerKeepsComplete | src/renderer/mod.rs:505-514 | a texture-set request keeps every needed bucket |
| Renderer.ModelTriggerKeepsComplete | src/renderer/mod.rs:520-534 | a model request keeps every needed bucket |
| Renderer.CompleteAcceptsJobs | src/renderer/mod.rs:606-639 | in a complete state a job with known keys lands in its bucket |
| Renderer.Resolve | src/ecs/components/drawable.rs:87-98 | the lookups of a builder succeed exactly when the shader is known, the model is cached or loads, and both textures are cached or decode; then the model's and set's handles |
| Renderer.ResolvedJobsAccepted | src/renderer/mod.rs:505-639 | the handles a builder resolves name existing buckets |
| Renderer.DrawBucket | src/renderer/mod.rs:733-889 | a non-empty bucket binds its set and is drawn in ceil(n/10000) batches of at most 10000 that cover it in order |
| Renderer.CeilStep | src/renderer/mod.rs:743-745 | each batch advances the batch count towards ceil(n/10000) |
| Renderer.ClearBuckets | src/renderer/mod.rs:889 | after present every bucket is empty and keys stay |
| Renderer.Swap | src/renderer/mod.rs:177-180 | the three XOR assignments exchange front and back |
| Renderer.SwapTwice | src/renderer/mod.rs:177-180 | two swaps restore the framebuffer |
| Renderer.ResizeFramebuffer | src/renderer/mod.rs:203-206 | resize records the size and resets front 0, back 1 |
| Renderer.SwapsAfterResize | src/renderer/mod.rs:177-206 | after a resize front and back are always 0 and 1 in some order |
| Renderer.Letterbox | src/renderer/mod.rs:641-655 | narrower windows keep their width, wider keep their height, equal ratios use the whole window |
| Renderer.LetterboxFits | src/renderer/mod.rs:641-655 | the viewport has the target's aspect ratio, fits, fills one dimension and is centred |
| Renderer.TruncateU32 | src/renderer/mod.rs:657-660 | `as u32` truncates toward zero and saturates |
| Renderer.ResizedViewportFits | src/renderer/mod.rs:641-660 | the truncated viewport is whole, fits the window, and is within 1 of the exact values |
| Particles.DefaultRanges | src/ecs/components/particle_emitter.rs:45-48 | lifetime 0.25–0.5 and velocity ±0.25 per axis, all ordered |
| Particles.AsUsize | src/ecs/components/particle_emitter.rs:53 | `as usize` truncates toward zero, saturating at 0 |
| Particles.PoolSizeRounds | src/ecs/components/particle_emitter.rs:53 | the pool size is max lifetime / period rounded to nearest |
| Particles.DefaultPoolSize | src/ecs/components/particle_emitter.rs:45-53 | the built-in settings give 25 particles |
| Particles.ParticleLookResolved | src/ecs/components/particle_emitter.rs:77-83 | particles are drawn with the `test` shader, the `cube` model and the (box.png, black.png) set, with default window and tints |
| Particles.ParticleTransformationBuilt | src/ecs/components/particle_emitter.rs:61-65 | particle transformations sit at the origin, scaled to 1/64 on every axis, unpivoted and unrotated |
| Particles.ParticleBodyBuilt | src/ecs/components/particle_emitter.rs:67-75 | particle bodies have extent 1/128, inverse mass 10000, elasticity 0.25, gravity immunity |
| Particles.NewInactiveEntity | src/ecs/mod.rs:57-83 | a created entity switched off; only its slot's flag changes; below the reuse threshold it takes the next new slot |
| Particles.AddParticleRecords | src/ecs/components/particle_emitter.rs:61-83 | the three adds give the entity a transformation, a body and a drawable; every new record is the particle's, every old record is kept |
| Particles.SpawnOne | src/ecs/components/particle_emitter.rs:58-85 | a new entity, switched off, with transformation, body and drawable; an entity without a drawable gets `look`; the stores only grow with particle records; earlier particles stay pooled; other flags kept |
| Particles.SpawnStep | src/ecs/components/particle_emitter.rs:57-86 | one more spawn extends what the loop has built |
| Particles.FlagsKeptAppend | src/ecs/components/particle_emitter.rs:57-86 | flags kept outside the earlier pool and the new particle are kept outside both |
| Particles.SpawnedAppend | src/ecs/components/particle_emitter.rs:57-86 | one more pooled particle extends what the loop has built |
| Particles.PooledAppend | src/ecs/components/particle_emitter.rs:57-86 | earlier particles stay pooled next to the new one |
| Particles.FreshAppend | src/ecs/components/particle_emitter.rs:57-86 | while no slot is due for reuse, every pooled particle takes a new slot |
| Particles.Spawn | src/ecs/components/particle_emitter.rs:57-86 | n rounds give n pooled particles with fresh ages, the stores grown only by particle records, and new slots only while none is due for reuse |
| Particles.PoolRecords | src/ecs/components/particle_emitter.rs:57-86 | every pooled particle holds the particle transformation, body and drawable, unless its entity already had that record |
| Particles.FreshPool | src/ecs/mod.rs:70-83 | in a settled scene no pooled particle had a record before |
| Particles.Pool | src/ecs/components/particle_emitter.rs:53-86 | the loop run 25 times: pooled particles in range holding the particle records |
| Particles.PoolSpawned | src/ecs/components/particle_emitter.rs:57-86 | n rounds with the particle look leave n pooled particles in range holding the particle records, none recorded before in a settled scene |
| Particles.Build | src/ecs/components/particle_emitter.rs:36-89 | default ranges, empty accumulator, 25 pooled particles in range, each holding the particle transformation, body and drawable unless it already had that record, and none had one in a settled scene |
| Particles.FreshPoolLooks | src/ecs/components/particle_emitter.rs:58-85 | in a settled scene every pooled particle holds exactly the particle transformation, body and the drawable resolved from the particle look |
| Particles.Emit | src/ecs/components/particle_emitter.rs:93-100 | `emit` changes nothing |
| Particles.AgeParticles | src/ecs/components/particle_emitter.rs:112-120 | ageing keeps entities, lifetimes, generations and queue |
| Particles.AgeParticlesSpec | src/ecs/components/particle_emitter.rs:112-120 | each active particle ages by dt and is switched off at or past its lifetime; inactive ones unchanged; other flags kept |
| Particles.FirstInactive | src/ecs/components/particle_emitter.rs:125-140 | the first inactive particle from a position, or all are active |
| Particles.OwnerPosition | src/ecs/components/particle_emitter.rs:128 | present exactly when the owner has a transformation |
| Particles.Launch | src/ecs/components/particle_emitter.rs:133-137 | the particle gets velocity, owner's position, on flag, age 0 and the lifetime; nothing else |
| Particles.DrawLifetime | src/ecs/components/particle_emitter.rs:127 | a bounded generator draws within the lifetime range |
| Particles.DrawVelocity | src/ecs/components/particle_emitter.rs:129-131 | a bounded generator draws within each velocity range |
| Particles.Relaunch | src/ecs/components/particle_emitter.rs:125-140 | a pass keeps the scene consistent and the accumulator |
| Particles.RelaunchSpec | src/ecs/components/particle_emitter.rs:125-140 | no change when every particle is active; otherwise the first inactive is launched, failing when the owner has no transformation |
| Particles.FloorStep | src/ecs/components/particle_emitter.rs:122-123 | taking one whole period lowers the count of whole periods by one |
| Particles.SpentStep | src/ecs/components/particle_emitter.rs:122-123 | spending one period then the rest spends all whole periods |
| Particles.PendingStep | src/ecs/components/particle_emitter.rs:122-123 | each iteration lowers the number of periods still to spend |
| Particles.LeftoverSpent | src/ecs/components/particle_emitter.rs:122-123 | the loop leaves less than one period, not negative, and takes whole periods only |
| Particles.Emissions | src/ecs/components/particle_emitter.rs:122-141 | a successful loop keeps the scene consistent and leaves the accumulator's leftover; below one period it does nothing |
| Particles.Update | src/ecs/components/particle_emitter.rs:102-142 | `update` adds dt, ages, then emits, leaving the leftover of accumulator + dt |
| Particles.AgedCarries | src/ecs/components/particle_emitter.rs:112-120 | ageing keeps the scene consistent and the pool in range |
| Particles.AgeKeepsOutside | src/ecs/components/particle_emitter.rs:112-120 | ageing switches off only slots of the pool |
| Particles.ShortUpdateOnlyAges | src/ecs/components/particle_emitter.rs:102-142 | below one period the update only ages |
| Particles.AddEmitter | src/ecs/components/particle_emitter.rs:153-174 | ignored when the entity has an emitter; otherwise the built emitter is added |
| Particles.DestroyAll | src/ecs/components/particle_emitter.rs:185-187 | every particle is destroyed and queued in pool order; other slots unchanged |
| Particles.DestroyAllKills | src/ecs/components/particle_emitter.rs:185-187 | alive particle handles are dead after removal |
| Particles.RemoveEmitter | src/ecs/components/particle_emitter.rs:176-207 | removal destroys the pool and removes exactly the emitter; the null or an absent entity is a no-op |
| Particles.UpdateAt | src/ecs/components/particle_emitter.rs:217-227 | one emitter run in place: it fails exactly when that emitter's `update` fails; otherwise its record holds the updated emitter under the same owner, the scene and draw counter are the ones that `update` leaves, and every other record and the map are kept |
| Particles.UpdateAtKeeps | src/ecs/components/particle_emitter.rs:217-227 | when no owner sits in a pool, running one emitter switches no owner on or off, keeps owners out of the pools, and leaves that emitter with the leftover of accumulator + dt, its ranges and its pool entities |
| Particles.ReplaceBody | src/ecs/components/particle_emitter.rs:217-227 | replacing one emitter keeps the pools in range |
| Particles.UpdateFrom | src/ecs/components/particle_emitter.rs:217-227 | the loop keeps the system valid and its owners, leaves earlier emitters unchanged, changes nothing when no owner from the position on is active, and, when no owner sits in a pool, leaves every emitter with an inactive owner as it was and updates every one with an active owner |
| Particles.ActiveStep | src/ecs/components/particle_emitter.rs:218-227 | an active owner's emitter is updated and the pass from the next position does the rest |
| Particles.SkipStep | src/ecs/components/particle_emitter.rs:218 | an inactive owner's emitter is left as it was |
| Particles.RunStep | src/ecs/components/particle_emitter.rs:217-227 | one emitter's update followed by the rest of the pass is a pass from that position |
| Particles.SystemUpdate | src/ecs/components/particle_emitter.rs:209-228 | the system update keeps the store; with no active owner it changes nothing; when no owner sits in a pool, emitters with inactive owners keep their records and every emitter with an active owner is updated |
| Particles.SkipOne | src/ecs/components/particle_emitter.rs:218 | an emitter with an inactive owner is skipped by the pass |
| Particles.SoleActiveOwner | src/ecs/components/particle_emitter.rs:209-228 | with one active owner and no owner in a pool, the system update is exactly that emitter's update in place: the same failure, or the same system, scene and draw counter |
| Particles.SoleActiveHere | src/ecs/components/particle_emitter.rs:217-227 | after the sole active owner's emitter runs, the rest of the pass changes nothing |

## Left out

- Floating point: `f32` is modelled as exact `real`. NaN, infinities, rounding and overflow are not modelled. Where the source divides by a value that could be zero (the impulse over zero total inverse mass, the letterbox ratio, the ray's inverse direction), the model requires it non-zero.
- The GL calls, the shader manager, PNG decoding and file I/O are left out. Each shows up only through what it returns: generated names, image sizes, file contents.
- The pseudo-random generator is a parameter, `Prng`, giving the n-th draw for given bounds. Its internal state and algorithm are not modelled.
- The timer module, lights, cameras, skyboxes, cube maps, `add_shader`, `add_model`, `add_texture_set` and `purge` are not part of this model.
- The matrix and quaternion arithmetic of `add_render_job` is left out: an instance keeps the scale, pivot, rotation and position it is built from. `rotate` on a transformation is left out with it. So are `get_forward_vector` and `get_right_vector`.
- Entity tables larger than 2^24 slots are left out: the index would be masked and alias another slot.
- `destroy_entity` on a generation of 255: the model wraps to 0, as a release build does. A debug build panics there.
- `write_struct` writes a value's raw memory image. The model fixes that image as little-endian with no padding.
- Counts at or above 2^32 are left out: the model builder's `len() as u32` cast would truncate them. `ModelFile.ModelFileRoundTrip` requires fewer.
- HashMap iteration order is left out. The texture set sizes loop takes the order as a parameter. Rebuilding and bucketing are stated per key, and need no order.
- Concurrency and lifetimes are left out. So is the `Drop` behaviour of the managers.
- The emission period is a constant 1/50 s: `build` sets it and nothing changes it.
- The particle drawable's names are resolved once, as `Renderer.Resources`, and used for every particle. After the first particle the source's lookups hit the renderer's caches, so every later lookup gives the same handles. The renderer state that first resolution leaves is not threaded through `Particles.Build`.
- Particles.Build: a particle whose handle already had a record keeps it, since every add is ignored for an entity that has one. That happens only when the allocator hands out a handle again, after a slot's generation wraps or a slot queued twice is reused twice. `Particles.FreshPoolLooks` states the exact records for a settled scene: one with no slot due for reuse and every record naming a slot of the tables.
- Particles.AgeParticlesSpec: requires the pool's particles to occupy distinct slots. With shared slots, a later particle sees an earlier one's flag change.
- Particles.DestroyAllKills: requires distinct slots, for the same reason.
- Particles.SystemUpdate: states the per-emitter outcome only when no owner sits in a slot of any pool. An emitter ages and relaunches its particles by slot, so a particle whose slot another emitter's owner holds switches that owner on or off before the loop reaches it. The outcome is then stated only through `Particles.UpdateAt` one emitter at a time.
- Particles.UpdateFrom: the per-emitter statement carries the same condition, for the same reason.
- RigidBodies.RayCast: requires a non-zero x direction, because the real model has no infinity. It models the x-only slab test as written.
- Memory exhaustion is left out: an allocation that fits under `isize::MAX` bytes but not in memory aborts the process, and the model does not know the memory size.
- Creating the model builder's output file is taken to succeed, and every write is taken to accept its whole buffer. The model does not cover a failed create, which ends `main` quietly, or a short write, which leaves a truncated file.
- ModelFile.ReadModelFile: states only the short-input failure directly. Its full meaning is in `ModelFile.ReadModelFileConsumesImage` and `ModelFile.ModelFileRoundTrip`.
- Renderer.Letterbox: requires non-zero target sizes and a non-zero window height, since the ratio is a division.

## Findings

| source | as written | input that shows it | evidently intended | confidence | as-written member | corrected member |
|---|---|---|---|---|---|---|
| src/renderer/texture_manager.rs:30-45 | the loop fills `result`, then the function returns a fresh pair of zero vectors | one loaded 8 × 8 texture used as both halves of set 0: the loop finds (8, 8), the call answers (0, 0) | return `result`: the albedo and emissive sizes | high, not executed | Textures.GetTextureSetSizes, Textures.SizesDiscarded | Textures.TextureSetSizes |
