/** `src/ecs/components/particle_emitter.rs`: an emitter owns a fixed pool of
    particle entities, created inactive when the emitter is added. Every
    update ages the active particles, retires those past their lifetime, and
    spends the emission accumulator one period at a time, each period
    relaunching the first retired particle from the owner's position. */
module Particles {
  import opened Entities
  import opened Wrappers
  import opened VecMath
  import opened ComponentStore
  import opened Ranges
  import T = Transformation
  import RB = RigidBodies
  import D = Drawables
  import R = Renderer
  import MB = ModelBuilder

  /** A pooled particle: its entity, its age and its lifetime, in seconds. */
  datatype Particle = Particle(entity: Entity, age: real, lifetime: real)

  /** The emitter. Its emission timer is the accumulator below plus the
      period, which `build` sets to 1/50 s and nothing reassigns, so the
      period is the constant EmissionPeriod. */
  datatype EmitterData = EmitterData(
    lifetime: Range,
    velocity: (Range, Range, Range),
    accumulator: real,
    particles: seq<Particle>)

  type EmitterSystem = Store<EmitterData>

  /** The systems a particle lives in. */
  datatype Scene = Scene(
    em: EntityManager,
    ts: T.TransformationSystem,
    bodies: RB.RigidBodyStore,
    drawables: D.DrawableSystem)

  predicate ValidScene(sc: Scene) {
    ValidManager(sc.em) && Valid(sc.ts) && Valid(sc.bodies) && Valid(sc.drawables)
  }

  /** `prng.range(lo, hi)` for the n-th draw of the generator. */
  type Prng = (nat, real, real) -> real

  /** A generator whose draws stay inside the requested bounds. */
  ghost predicate Bounded(prng: Prng) {
    forall n: nat, lo: real, hi: real :: lo <= hi ==> lo <= prng(n, lo, hi) <= hi
  }

  const EmissionPeriod: real := 1.0 / 50.0
  const DefaultLifetime: Range := Range(0.25, 0.25)
  const DefaultVelocity: Range := Range(-0.25, 0.5)
  const ParticleScale: real := 0.015625
  const ParticleExtent: real := 0.0078125
  const ParticleMass: real := 0.0001
  const ParticleElasticity: real := 0.25

  /** The ranges `build` starts from. */
  lemma DefaultRanges()
    ensures DefaultLifetime == NewRange(0.25, 0.5)
    ensures DefaultVelocity == NewRange(-0.25, 0.25)
    ensures Ordered(DefaultLifetime) && Ordered(DefaultVelocity)
  {
  }

  // ---------------------------------------------------------------------
  // Pool sizing

  /** `x as usize` on ordinary values: below one gives 0 (negative values
      saturate at 0), otherwise the value is truncated toward zero and
      saturates at the largest `usize`. */
  function AsUsize(x: real): (n: nat)
    ensures n < MB.UsizeLimit
    ensures 0.0 <= x < MB.UsizeLimit as real ==> n as real <= x < n as real + 1.0
    ensures x < 0.0 ==> n == 0
  {
    if x <= 0.0 then 0
    else if x >= MB.UsizeLimit as real then MB.UsizeLimit - 1
    else x.Floor
  }

  /** The pool size: enough particles to cover the longest lifetime at one
      emission per period, rounded to the nearest whole number. */
  function PoolSize(lifetime: Range, period: real): nat
    requires period != 0.0
  {
    AsUsize(GetMax(lifetime) * (1.0 / period) + 0.5)
  }

  /** The size is the nearest whole number to max lifetime / period (halves
      round up). */
  lemma PoolSizeRounds(lifetime: Range, period: real)
    requires period > 0.0 && GetMax(lifetime) >= 0.0
    requires GetMax(lifetime) / period + 0.5 < MB.UsizeLimit as real
    ensures var n := PoolSize(lifetime, period) as real;
            n - 0.5 <= GetMax(lifetime) / period < n + 0.5
  {
    assert GetMax(lifetime) * (1.0 / period) == GetMax(lifetime) / period;
  }

  /** With the built-in settings the pool holds 25 particles. */
  lemma DefaultPoolSize()
    ensures PoolSize(DefaultLifetime, EmissionPeriod) == 25
  {
    assert GetMax(DefaultLifetime) * (1.0 / EmissionPeriod) + 0.5 == 25.5;
  }

  // ---------------------------------------------------------------------
  // Build

  function ParticleTransformation(): T.TransformationBuilder {
    T.WithScale(T.NewBuilder(), Vec3(ParticleScale, ParticleScale, ParticleScale))
  }

  /** The particles' transformations: at the origin, scaled down to
      ParticleScale on every axis, unpivoted and unrotated. */
  lemma ParticleTransformationBuilt()
    ensures T.Build(ParticleTransformation()) ==
              T.TransformationData(Zero3, Vec3(ParticleScale, ParticleScale, ParticleScale), Zero3, IdentityQuat)
  {
  }

  function ParticleBody(): RB.RigidBodyBuilder {
    RB.IsGravityImmune(
      RB.WithElasticity(
        RB.WithMass(RB.WithExtents(RB.NewBuilder(), Vec3(ParticleExtent, ParticleExtent, ParticleExtent)),
                    ParticleMass),
        ParticleElasticity))
  }

  /** The names the particles' drawables are resolved from. */
  function ParticleLook(): D.DrawableBuilder {
    D.NewBuilder().(shader := Some("test"), model := Some("cube"), textureSet := Some(("box.png", "black.png")))
  }

  /** The particles' drawable: the `test` shader, the `cube` model and the
      `box.png` texture set, as resolved by the renderer, with the default
      texture window and tints. */
  lemma ParticleLookResolved(res: R.Resources)
    ensures D.ShaderName(ParticleLook()) == "test" && D.ModelName(ParticleLook()) == "cube"
    ensures D.TextureSetNames(ParticleLook()) == ("box.png", "black.png")
    ensures D.Build(ParticleLook(), res) ==
              D.DrawableData(res.shader, res.model, res.textureSet, One2, Zero2, One4, Zero4)
  {
  }

  /** The particles' bodies: tiny, light, a little bouncy, untouched by
      gravity, and dynamic. */
  lemma ParticleBodyBuilt()
    ensures var b := RB.Build(ParticleBody());
            && b.extents == Vec3(ParticleExtent, ParticleExtent, ParticleExtent)
            && b.elasticity == ParticleElasticity && b.gravityImmune
            && b.invMass * ParticleMass == 1.0
  {
  }

  /** The slots the pool's particles occupy. */
  predicate PoolInRange(em: EntityManager, ps: seq<Particle>) {
    forall k :: 0 <= k < |ps| ==> InRange(em, ps[k].entity)
  }

  /** No two particles share a slot. */
  predicate DistinctSlots(ps: seq<Particle>) {
    forall i, j :: 0 <= i < j < |ps| ==> Index(ps[i].entity) != Index(ps[j].entity)
  }

  /** No particle of the pool occupies slot `s`. */
  predicate OutsidePool(ps: seq<Particle>, s: nat) {
    forall k :: 0 <= k < |ps| ==> Index(ps[k].entity) != s
  }

  /** Every slot outside the pool keeps its active flag. */
  predicate FlagsKeptOutside(em: EntityManager, em': EntityManager, ps: seq<Particle>) {
    |em.active| <= |em'.active| &&
    forall s: nat :: s < |em.active| && OutsidePool(ps, s) ==> em'.active[s] == em.active[s]
  }

  /** A particle as `build` leaves it: a slot of the tables, switched off,
      with a transformation, a body and a drawable, age and lifetime 0. */
  predicate Pooled(sc: Scene, p: Particle) {
    && InRange(sc.em, p.entity) && !EntityIsActive(sc.em, p.entity)
    && Has(sc.ts, p.entity) && Has(sc.bodies, p.entity) && Has(sc.drawables, p.entity)
    && p.age == 0.0 && p.lifetime == 0.0
  }

  /** Every record of `s` is kept in `s'`, and every record `s'` adds is
      `fill`. */
  ghost predicate Grown<X>(s: Store<X>, s': Store<X>, fill: X)
    requires Valid(s) && Valid(s')
  {
    && (forall x :: Has(s, x) ==> Has(s', x) && Get(s', x) == Get(s, x))
    && (forall x :: Has(s', x) && !Has(s, x) ==> Get(s', x) == fill)
  }

  /** The records spawning adds to a scene: the particle transformation,
      the particle body and the drawable `look`; the records already there
      are kept. */
  ghost predicate Dressed(sc: Scene, sc': Scene, look: D.DrawableData)
    requires ValidScene(sc) && ValidScene(sc')
  {
    && Grown(sc.ts, sc'.ts, T.Build(ParticleTransformation()))
    && Grown(sc.bodies, sc'.bodies, RB.Build(ParticleBody()))
    && Grown(sc.drawables, sc'.drawables, look)
  }

  /** An add that is either ignored or puts `fill` under a new entity
      grows the store. */
  lemma AddGrows<X>(s: Store<X>, s': Store<X>, e: Entity, fill: X)
    requires Valid(s) && Valid(s')
    requires Has(s, e) ==> s' == s
    requires !Has(s, e) ==> Has(s', e) && Get(s', e) == fill
    requires forall x :: x != e ==> (Has(s', x) <==> Has(s, x))
    requires forall x :: x != e && Has(s, x) ==> Get(s', x) == Get(s, x)
    ensures Grown(s, s', fill)
  {
  }

  /** `create_new_entity` followed by `set_entity_is_active(false)`: a
      switched-off entity whose slot is the only one whose flag changes.
      Below the reuse threshold it takes the next new slot and leaves the
      queue alone. */
  function NewInactiveEntity(em: EntityManager): (r: (EntityManager, Entity))
    requires ValidManager(em) && |em.generation| < IndexLimit
    ensures ValidManager(r.0)
    ensures |em.generation| <= |r.0.generation| <= |em.generation| + 1
    ensures InRange(r.0, r.1) && !EntityIsActive(r.0, r.1)
    ensures forall s :: 0 <= s < |em.active| && s != Index(r.1) ==> r.0.active[s] == em.active[s]
    ensures FlagsKeptOutside(em, r.0, [Particle(r.1, 0.0, 0.0)])
    ensures |em.freeIndices| <= MinimumFreeIndices ==>
              r.0.freeIndices == em.freeIndices && Index(r.1) == |em.generation|
  {
    var (em1, p) := CreateNewEntity(em);
    var em2 := SetEntityIsActive(em1, p, false);
    assert |em.freeIndices| <= MinimumFreeIndices ==> Index(p) == |em.generation| by {
      assert |em.generation| % IndexLimit == |em.generation|;
    }
    assert FlagsKeptOutside(em, em2, [Particle(p, 0.0, 0.0)]) by {
      forall s: nat | s < |em.active| && OutsidePool([Particle(p, 0.0, 0.0)], s)
        ensures em2.active[s] == em.active[s]
      {
        assert Index([Particle(p, 0.0, 0.0)][0].entity) != s;
      }
    }
    (em2, p)
  }

  /** The three adds of one spawn: the particle transformation, the
      particle body and the drawable `look`, each ignored when `p` already
      has one. */
  function AddParticleRecords(sc: Scene, em: EntityManager, p: Entity, look: D.DrawableData): (r: Scene)
    requires ValidScene(sc) && ValidManager(em)
    ensures ValidScene(r) && r.em == em
    ensures Has(r.ts, p) && Has(r.bodies, p) && Has(r.drawables, p)
    ensures Dressed(sc, r, look)
  {
    var ts := T.AddTransformation(sc.ts, p, ParticleTransformation());
    var bodies := RB.AddRigidBody(sc.bodies, p, ParticleBody(), ts);
    var ds := D.AddDrawable(sc.drawables, p, ts, look);
    AddGrows(sc.ts, ts, p, T.Build(ParticleTransformation()));
    AddGrows(sc.bodies, bodies, p, RB.Build(ParticleBody()));
    AddGrows(sc.drawables, ds, p, look);
    Scene(em, ts, bodies, ds)
  }

  /** Spawning `p` keeps every particle pooled before pooled: the tables
      only grow, only `p`'s flag changes and it is switched off, and no
      record goes away. */
  lemma PooledKept(sc: Scene, sc2: Scene, p: Entity, look: D.DrawableData)
    requires ValidScene(sc) && ValidScene(sc2) && Dressed(sc, sc2, look)
    requires |sc.em.generation| <= |sc2.em.generation|
    requires forall s :: 0 <= s < |sc.em.active| && s != Index(p) ==> sc2.em.active[s] == sc.em.active[s]
    requires InRange(sc2.em, p) && !EntityIsActive(sc2.em, p)
    ensures forall x :: Pooled(sc, x) ==> Pooled(sc2, x)
  {
    forall x | Pooled(sc, x)
      ensures Pooled(sc2, x)
    {
      if Index(x.entity) != Index(p) {
        assert sc2.em.active[Index(x.entity)] == sc.em.active[Index(x.entity)];
      }
    }
  }

  lemma DressedTrans(sc: Scene, sc1: Scene, sc2: Scene, look: D.DrawableData)
    requires ValidScene(sc) && ValidScene(sc1) && ValidScene(sc2)
    requires Dressed(sc, sc1, look) && Dressed(sc1, sc2, look)
    ensures Dressed(sc, sc2, look)
  {
  }

  /** One pooled particle: a new entity, switched off, with a small
      transformation, a body and the particle drawable. Particles pooled
      before stay pooled, even one whose slot the new entity reuses. With
      no more than MinimumFreeIndices slots queued, the entity takes a new
      slot at the end of the tables. */
  function SpawnOne(sc: Scene, look: D.DrawableData): (r: (Scene, Entity))
    requires ValidScene(sc) && |sc.em.generation| < IndexLimit
    ensures ValidScene(r.0)
    ensures |r.0.em.generation| <= |sc.em.generation| + 1 && |sc.em.generation| <= |r.0.em.generation|
    ensures Pooled(r.0, Particle(r.1, 0.0, 0.0))
    ensures forall x :: Pooled(sc, x) ==> Pooled(r.0, x)
    ensures FlagsKeptOutside(sc.em, r.0.em, [Particle(r.1, 0.0, 0.0)])
    ensures Dressed(sc, r.0, look)
    ensures !Has(sc.drawables, r.1) ==> Get(r.0.drawables, r.1) == look
    ensures |sc.em.freeIndices| <= MinimumFreeIndices ==>
              r.0.em.freeIndices == sc.em.freeIndices && Index(r.1) == |sc.em.generation|
  {
    var (em2, p) := NewInactiveEntity(sc.em);
    var sc2 := AddParticleRecords(sc, em2, p, look);
    PooledKept(sc, sc2, p, look);
    (sc2, p)
  }

  /** What `n` rounds of spawning leave behind: valid systems, `n` pooled
      particles, at most `n` new slots, and every slot outside the pool with
      the active flag it had. */
  ghost predicate SpawnedFrom(sc: Scene, sc': Scene, ps: seq<Particle>, n: nat, look: D.DrawableData) {
    && ValidScene(sc) && ValidScene(sc') && |ps| == n
    && |sc.em.generation| <= |sc'.em.generation| <= |sc.em.generation| + n
    && (forall k :: 0 <= k < n ==> Pooled(sc', ps[k]))
    && FlagsKeptOutside(sc.em, sc'.em, ps)
    && Dressed(sc, sc', look)
    && (|sc.em.freeIndices| <= MinimumFreeIndices ==>
          && sc'.em.freeIndices == sc.em.freeIndices
          && forall k :: 0 <= k < n ==> |sc.em.generation| <= Index(ps[k].entity))
  }

  lemma SpawnStep(sc: Scene, sc1: Scene, ps: seq<Particle>, n: nat, look: D.DrawableData)
    requires SpawnedFrom(sc, sc1, ps, n, look) && |sc.em.generation| + n + 1 < IndexLimit
    ensures SpawnedFrom(sc, SpawnOne(sc1, look).0, ps + [Particle(SpawnOne(sc1, look).1, 0.0, 0.0)], n + 1, look)
  {
    var (sc2, p) := SpawnOne(sc1, look);
    DressedTrans(sc, sc1, sc2, look);
    SpawnedAppend(sc, sc1, sc2, ps, Particle(p, 0.0, 0.0), n, look);
  }

  /** SpawnedFrom extended by one particle `q` whose spawn took `sc1` to
      `sc2`. */
  lemma SpawnedAppend(sc: Scene, sc1: Scene, sc2: Scene, ps: seq<Particle>, q: Particle, n: nat, look: D.DrawableData)
    requires SpawnedFrom(sc, sc1, ps, n, look) && ValidScene(sc2)
    requires |sc1.em.generation| <= |sc2.em.generation| <= |sc1.em.generation| + 1
    requires Pooled(sc2, q) && forall x :: Pooled(sc1, x) ==> Pooled(sc2, x)
    requires FlagsKeptOutside(sc1.em, sc2.em, [q]) && Dressed(sc, sc2, look)
    requires |sc1.em.freeIndices| <= MinimumFreeIndices ==>
               sc2.em.freeIndices == sc1.em.freeIndices && Index(q.entity) == |sc1.em.generation|
    ensures SpawnedFrom(sc, sc2, ps + [q], n + 1, look)
  {
    PooledAppend(sc1, sc2, ps, q);
    FlagsKeptAppend(sc.em, sc1.em, sc2.em, ps, q);
    if |sc.em.freeIndices| <= MinimumFreeIndices {
      FreshAppend(|sc.em.generation|, ps, q);
    }
  }

  /** A pool that stays pooled, extended by a newly pooled particle. */
  lemma PooledAppend(sc1: Scene, sc2: Scene, ps: seq<Particle>, q: Particle)
    requires forall k :: 0 <= k < |ps| ==> Pooled(sc1, ps[k])
    requires forall x :: Pooled(sc1, x) ==> Pooled(sc2, x)
    requires Pooled(sc2, q)
    ensures forall k :: 0 <= k < |ps| + 1 ==> Pooled(sc2, (ps + [q])[k])
  {
    forall k | 0 <= k < |ps| + 1
      ensures Pooled(sc2, (ps + [q])[k])
    {
      if k < |ps| {
        assert (ps + [q])[k] == ps[k] && Pooled(sc1, ps[k]);
      }
    }
  }

  /** Slots at or above `lo`, extended by one more such slot. */
  lemma FreshAppend(lo: nat, ps: seq<Particle>, q: Particle)
    requires forall k :: 0 <= k < |ps| ==> lo <= Index(ps[k].entity)
    requires lo <= Index(q.entity)
    ensures forall k :: 0 <= k < |ps| + 1 ==> lo <= Index((ps + [q])[k].entity)
  {
    forall k | 0 <= k < |ps| + 1
      ensures lo <= Index((ps + [q])[k].entity)
    {
      if k < |ps| {
        assert (ps + [q])[k] == ps[k];
      }
    }
  }

  /** Flags kept outside `ps` and then outside `[q]` are kept outside
      `ps + [q]`. */
  lemma FlagsKeptAppend(em: EntityManager, em1: EntityManager, em2: EntityManager, ps: seq<Particle>, q: Particle)
    requires FlagsKeptOutside(em, em1, ps) && FlagsKeptOutside(em1, em2, [q])
    ensures FlagsKeptOutside(em, em2, ps + [q])
  {
    var ps' := ps + [q];
    forall s: nat | s < |em.active| && OutsidePool(ps', s)
      ensures em2.active[s] == em.active[s]
    {
      assert OutsidePool(ps, s) by {
        forall k | 0 <= k < |ps| ensures Index(ps[k].entity) != s {
          assert ps'[k] == ps[k];
        }
      }
      assert ps'[|ps|] == [q][0];
      assert OutsidePool([q], s);
    }
  }

  /** The loop of `build`: `n` particles, each spawned inactive with age and
      lifetime 0. Every pooled particle is still inactive when the loop
      ends, and only the pool's slots change their active flag. */
  function Spawn(sc: Scene, n: nat, look: D.DrawableData): (r: (Scene, seq<Particle>))
    requires ValidScene(sc) && |sc.em.generation| + n < IndexLimit
    ensures SpawnedFrom(sc, r.0, r.1, n, look)
  {
    if n == 0 then (sc, [])
    else
      var (sc1, ps) := Spawn(sc, n - 1, look);
      SpawnStep(sc, sc1, ps, n - 1, look);
      (SpawnOne(sc1, look).0, ps + [Particle(SpawnOne(sc1, look).1, 0.0, 0.0)])
  }

  /** What a particle entity `e` of a pool built from `sc` holds: the
      particle transformation, the particle body and the drawable resolved
      from ParticleLook, except for a record `e` already had in `sc`, which
      the add leaves alone. */
  predicate ParticleRecords(sc: Scene, sc': Scene, e: Entity, res: R.Resources)
    requires ValidScene(sc) && ValidScene(sc')
  {
    && Has(sc'.ts, e) && Has(sc'.bodies, e) && Has(sc'.drawables, e)
    && Get(sc'.ts, e) == (if Has(sc.ts, e) then Get(sc.ts, e) else T.Build(ParticleTransformation()))
    && Get(sc'.bodies, e) == (if Has(sc.bodies, e) then Get(sc.bodies, e) else RB.Build(ParticleBody()))
    && Get(sc'.drawables, e) == (if Has(sc.drawables, e) then Get(sc.drawables, e) else D.Build(ParticleLook(), res))
  }

  /** An owner of a store whose owners name slots of the tables names one. */
  lemma OwnerInRange<X>(s: Store<X>, em: EntityManager, e: Entity)
    requires Valid(s) && OwnersInRange(s, em) && Has(s, e)
    ensures InRange(em, e)
  {
    assert s.data[s.index[e]].owner == e;
  }

  /** Every particle of a spawned pool holds the particle records, or the
      records its entity already had. */
  lemma PoolRecords(sc: Scene, sc': Scene, ps: seq<Particle>, n: nat, res: R.Resources)
    requires SpawnedFrom(sc, sc', ps, n, D.Build(ParticleLook(), res))
    ensures forall k :: 0 <= k < n ==> ParticleRecords(sc, sc', ps[k].entity, res)
  {
    forall k | 0 <= k < n
      ensures ParticleRecords(sc, sc', ps[k].entity, res)
    {
      assert Pooled(sc', ps[k]);
    }
  }

  /** No slot is due for reuse and every record names a slot of the
      tables: the state of a scene whose handles were all handed out by the
      allocator and none reused. */
  predicate Settled(sc: Scene) {
    && |sc.em.freeIndices| <= MinimumFreeIndices
    && OwnersInRange(sc.ts, sc.em) && OwnersInRange(sc.bodies, sc.em) && OwnersInRange(sc.drawables, sc.em)
  }

  /** `e` has none of the records a particle gets. */
  predicate Unrecorded(sc: Scene, e: Entity) {
    !Has(sc.ts, e) && !Has(sc.bodies, e) && !Has(sc.drawables, e)
  }

  /** A pool spawned while no slot is due for reuse takes new slots only,
      so in a scene whose records all name existing slots none of its
      particles had a record before. */
  lemma FreshPool(sc: Scene, sc': Scene, ps: seq<Particle>, n: nat, look: D.DrawableData)
    requires SpawnedFrom(sc, sc', ps, n, look)
    ensures Settled(sc) ==> forall k :: 0 <= k < n ==> Unrecorded(sc, ps[k].entity)
  {
    if Settled(sc) {
      forall k | 0 <= k < n
        ensures Unrecorded(sc, ps[k].entity)
      {
        assert !InRange(sc.em, ps[k].entity);
        if Has(sc.ts, ps[k].entity) { OwnerInRange(sc.ts, sc.em, ps[k].entity); }
        if Has(sc.bodies, ps[k].entity) { OwnerInRange(sc.bodies, sc.em, ps[k].entity); }
        if Has(sc.drawables, ps[k].entity) { OwnerInRange(sc.drawables, sc.em, ps[k].entity); }
      }
    }
  }

  /** The loop of `build` run PoolSize times with the built-in settings. */
  function Pool(sc: Scene, res: R.Resources): (r: (Scene, seq<Particle>))
    requires ValidScene(sc) && |sc.em.generation| + 25 < IndexLimit
    ensures ValidScene(r.0) && |r.1| == 25
    ensures forall k :: 0 <= k < 25 ==> Pooled(r.0, r.1[k])
    ensures PoolInRange(r.0.em, r.1)
    ensures forall k :: 0 <= k < 25 ==> ParticleRecords(sc, r.0, r.1[k].entity, res)
    ensures Settled(sc) ==> forall k :: 0 <= k < 25 ==> Unrecorded(sc, r.1[k].entity)
  {
    DefaultPoolSize();
    var n := PoolSize(DefaultLifetime, EmissionPeriod);
    var (sc', ps) := Spawn(sc, n, D.Build(ParticleLook(), res));
    PoolSpawned(sc, res, n, sc', ps);
    (sc', ps)
  }

  /** What spawning `n` particles with the particle look leaves behind. */
  lemma PoolSpawned(sc: Scene, res: R.Resources, n: nat, sc': Scene, ps: seq<Particle>)
    requires ValidScene(sc) && |sc.em.generation| + n < IndexLimit
    requires (sc', ps) == Spawn(sc, n, D.Build(ParticleLook(), res))
    ensures ValidScene(sc') && |ps| == n
    ensures forall k :: 0 <= k < n ==> Pooled(sc', ps[k])
    ensures PoolInRange(sc'.em, ps)
    ensures forall k :: 0 <= k < n ==> ParticleRecords(sc, sc', ps[k].entity, res)
    ensures Settled(sc) ==> forall k :: 0 <= k < n ==> Unrecorded(sc, ps[k].entity)
  {
    var look := D.Build(ParticleLook(), res);
    FreshPool(sc, sc', ps, n, look);
    PoolRecords(sc, sc', ps, n, res);
  }

  /** `ParticleEmitterBuilder::build`: the default ranges, an empty
      accumulator and a pool of PoolSize particles. */
  function Build(sc: Scene, res: R.Resources): (r: (Scene, EmitterData))
    requires ValidScene(sc) && |sc.em.generation| + 25 < IndexLimit
    ensures ValidScene(r.0)
    ensures r.1.lifetime == DefaultLifetime && r.1.velocity == (DefaultVelocity, DefaultVelocity, DefaultVelocity)
    ensures r.1.accumulator == 0.0 && |r.1.particles| == 25
    ensures forall k :: 0 <= k < 25 ==> Pooled(r.0, r.1.particles[k])
    ensures PoolInRange(r.0.em, r.1.particles)
    ensures forall k :: 0 <= k < 25 ==> ParticleRecords(sc, r.0, r.1.particles[k].entity, res)
    ensures Settled(sc) ==> forall k :: 0 <= k < 25 ==> Unrecorded(sc, r.1.particles[k].entity)
  {
    var (sc', ps) := Pool(sc, res);
    (sc', EmitterData(DefaultLifetime, (DefaultVelocity, DefaultVelocity, DefaultVelocity), 0.0, ps))
  }

  /** In a scene whose records all name existing slots and with no slot
      due for reuse, every pooled particle holds exactly the particle
      transformation, the particle body and the drawable resolved from
      ParticleLook. */
  lemma FreshPoolLooks(sc: Scene, res: R.Resources)
    requires ValidScene(sc) && |sc.em.generation| + 25 < IndexLimit
    requires Settled(sc)
    ensures var (sc', d) := Build(sc, res);
            forall k :: 0 <= k < 25 ==>
              && Get(sc'.drawables, d.particles[k].entity) == D.Build(ParticleLook(), res)
              && Get(sc'.ts, d.particles[k].entity) == T.Build(ParticleTransformation())
              && Get(sc'.bodies, d.particles[k].entity) == RB.Build(ParticleBody())
  {
    var (sc', d) := Build(sc, res);
    forall k | 0 <= k < 25
      ensures && Get(sc'.drawables, d.particles[k].entity) == D.Build(ParticleLook(), res)
              && Get(sc'.ts, d.particles[k].entity) == T.Build(ParticleTransformation())
              && Get(sc'.bodies, d.particles[k].entity) == RB.Build(ParticleBody())
    {
      assert ParticleRecords(sc, sc', d.particles[k].entity, res);
    }
  }

  /** `emit`: has no effect on anything. */
  function Emit(d: EmitterData, sc: Scene, lifetime: real, position: Vec3, velocity: Vec3): (r: (EmitterData, Scene))
    ensures r.0 == d && r.1 == sc
  {
    (d, sc)
  }

  // ---------------------------------------------------------------------
  // Ageing

  /** The first loop of `update`: every active particle ages by `dt` and is
      switched off once its age reaches its lifetime; inactive particles are
      left alone. */
  function AgeParticles(em: EntityManager, ps: seq<Particle>, dt: real): (r: (EntityManager, seq<Particle>))
    requires ValidManager(em) && PoolInRange(em, ps)
    decreases |ps|
    ensures ValidManager(r.0) && r.0.generation == em.generation && r.0.freeIndices == em.freeIndices
    ensures |r.0.active| == |em.active| && |r.1| == |ps|
    ensures forall k :: 0 <= k < |ps| ==> r.1[k].entity == ps[k].entity && r.1[k].lifetime == ps[k].lifetime
  {
    if |ps| == 0 then (em, [])
    else
      var p := ps[0];
      var active := EntityIsActive(em, p.entity);
      var p1 := if active then p.(age := p.age + dt) else p;
      var em1 := if active && p1.age >= p1.lifetime then SetEntityIsActive(em, p.entity, false) else em;
      var (em2, rest) := AgeParticles(em1, ps[1..], dt);
      (em2, [p1] + rest)
  }

  /** What ageing does to one particle `p` that became `p'` while the
      tables went from `em` to `em'`: an active particle ages by `dt` and
      stays active unless its new age reaches its lifetime (a stale handle
      cannot switch its slot off); an inactive particle keeps its age and
      stays off. */
  predicate AgedOne(em: EntityManager, p: Particle, em': EntityManager, p': Particle, dt: real)
    requires InRange(em, p.entity) && InRange(em', p.entity)
  {
    var was := EntityIsActive(em, p.entity);
    && p'.age == (if was then p.age + dt else p.age)
    && EntityIsActive(em', p.entity) == (was && !(EntityIsAlive(em, p.entity) && p.age + dt >= p.lifetime))
  }

  /** Ageing changes only the flags of the pool's slots. */
  lemma {:induction false} AgeKeepsOutside(em: EntityManager, ps: seq<Particle>, dt: real)
    requires ValidManager(em) && PoolInRange(em, ps)
    decreases |ps|
    ensures FlagsKeptOutside(em, AgeParticles(em, ps, dt).0, ps)
  {
    if |ps| > 0 {
      var p := ps[0];
      var active := EntityIsActive(em, p.entity);
      var p1 := if active then p.(age := p.age + dt) else p;
      var em1 := if active && p1.age >= p1.lifetime then SetEntityIsActive(em, p.entity, false) else em;
      var tail := ps[1..];
      assert forall k :: 0 <= k < |tail| ==> tail[k] == ps[k + 1];
      AgeKeepsOutside(em1, tail, dt);
      var r := AgeParticles(em, ps, dt);
      assert r.0 == AgeParticles(em1, tail, dt).0;
      forall s: nat | s < |em.active| && OutsidePool(ps, s)
        ensures r.0.active[s] == em.active[s]
      {
        assert Index(ps[0].entity) != s;
        assert OutsidePool(tail, s);
      }
    }
  }

  /** Ageing a pool whose particles occupy distinct slots ages each
      particle as AgedOne says, and every other slot keeps its flag. */
  lemma {:induction false} AgeParticlesSpec(em: EntityManager, ps: seq<Particle>, dt: real)
    requires ValidManager(em) && PoolInRange(em, ps) && DistinctSlots(ps)
    decreases |ps|
    ensures var r := AgeParticles(em, ps, dt);
            forall k :: 0 <= k < |ps| ==> AgedOne(em, ps[k], r.0, r.1[k], dt)
    ensures FlagsKeptOutside(em, AgeParticles(em, ps, dt).0, ps)
  {
    if |ps| > 0 {
      var p := ps[0];
      var active := EntityIsActive(em, p.entity);
      var p1 := if active then p.(age := p.age + dt) else p;
      var em1 := if active && p1.age >= p1.lifetime then SetEntityIsActive(em, p.entity, false) else em;
      var tail := ps[1..];
      assert forall k :: 0 <= k < |tail| ==> tail[k] == ps[k + 1];
      assert DistinctSlots(tail);
      AgeParticlesSpec(em1, tail, dt);
      var r := AgeParticles(em, ps, dt);
      var r1 := AgeParticles(em1, tail, dt);
      assert r.0 == r1.0 && r.1 == [p1] + r1.1;
      assert OutsidePool(tail, Index(p.entity));
      assert AgedOne(em, p, r.0, r.1[0], dt);
      forall k | 1 <= k < |ps|
        ensures AgedOne(em, ps[k], r.0, r.1[k], dt)
      {
        assert Index(ps[k].entity) != Index(p.entity);
        assert EntityIsActive(em1, ps[k].entity) == EntityIsActive(em, ps[k].entity);
        assert EntityIsAlive(em1, ps[k].entity) == EntityIsAlive(em, ps[k].entity);
        assert AgedOne(em1, tail[k - 1], r1.0, r1.1[k - 1], dt);
      }
    }
    AgeKeepsOutside(em, ps, dt);
  }

  // ---------------------------------------------------------------------
  // Emission

  /** The index of the first inactive particle, if any. */
  function FirstInactive(em: EntityManager, ps: seq<Particle>, from: nat): (r: Option<nat>)
    requires PoolInRange(em, ps) && from <= |ps|
    decreases |ps| - from
    ensures r.Some? ==> from <= r.value < |ps| && !EntityIsActive(em, ps[r.value].entity)
    ensures r.Some? ==> forall j :: from <= j < r.value ==> EntityIsActive(em, ps[j].entity)
    ensures r.None? ==> forall j :: from <= j < |ps| ==> EntityIsActive(em, ps[j].entity)
  {
    if from == |ps| then None
    else if !EntityIsActive(em, ps[from].entity) then Some(from)
    else FirstInactive(em, ps, from + 1)
  }

  /** `get_position(owner).unwrap()`. */
  function OwnerPosition(ts: T.TransformationSystem, owner: Entity): (r: Result<Vec3>)
    requires Valid(ts)
    ensures r.Success? <==> Has(ts, owner)
    ensures r.Success? ==> r.value == Get(ts, owner).position
  {
    match T.GetPosition(ts, owner)
    case Some(p) => Success(p)
    case None => Failure("called `Option::unwrap()` on a `None` value")
  }

  /** The pool keeps its particles' entities, in order. */
  predicate SameEntities(ps: seq<Particle>, ps': seq<Particle>) {
    |ps'| == |ps| && forall k :: 0 <= k < |ps| ==> ps'[k].entity == ps[k].entity
  }

  /** What every step of `update` keeps: valid systems, the entity tables'
      generations and size, the active flag of every slot outside the pool,
      the emitter's ranges and its pool's entities. */
  predicate Carries(sc: Scene, d: EmitterData, sc': Scene, d': EmitterData) {
    && ValidScene(sc') && sc'.em.generation == sc.em.generation && |sc'.em.active| == |sc.em.active|
    && FlagsKeptOutside(sc.em, sc'.em, d.particles)
    && d'.lifetime == d.lifetime && d'.velocity == d.velocity
    && SameEntities(d.particles, d'.particles)
  }

  /** Pools with the same entities occupy the same slots. */
  lemma SameEntitiesOutside(ps: seq<Particle>, ps': seq<Particle>, s: nat)
    requires SameEntities(ps, ps')
    ensures OutsidePool(ps, s) <==> OutsidePool(ps', s)
  {
    if OutsidePool(ps, s) {
      forall k | 0 <= k < |ps'| ensures Index(ps'[k].entity) != s {
        assert ps'[k].entity == ps[k].entity;
      }
    }
  }

  /** Relaunching particle `k`: its body gets velocity `v`, its
      transformation the position `p`, its slot is switched on, and its
      record restarts at age 0 with lifetime `t`. */
  function Launch(sc: Scene, d: EmitterData, k: nat, p: Vec3, v: Vec3, t: real): (r: (Scene, EmitterData))
    requires ValidScene(sc) && PoolInRange(sc.em, d.particles) && k < |d.particles|
    ensures Carries(sc, d, r.0, r.1) && r.1.accumulator == d.accumulator
    ensures var e := d.particles[k].entity;
            && r.1.particles == d.particles[k := Particle(e, 0.0, t)]
            && (EntityIsAlive(sc.em, e) ==> EntityIsActive(r.0.em, e))
            && (forall s :: 0 <= s < |sc.em.active| && s != Index(e) ==> r.0.em.active[s] == sc.em.active[s])
            && (e != Null() && Has(sc.ts, e) ==> Has(r.0.ts, e) && Get(r.0.ts, e).position == p)
            && (Has(sc.bodies, e) ==> Has(r.0.bodies, e) && Get(r.0.bodies, e).velocity == v)
  {
    var e := d.particles[k].entity;
    var bodies := RB.SetVelocity(sc.bodies, e, v);
    var ts := T.SetPosition(sc.ts, e, p);
    var em := SetEntityIsActive(sc.em, e, true);
    (Scene(em, ts, bodies, sc.drawables), d.(particles := d.particles[k := Particle(e, 0.0, t)]))
  }

  /** The lifetime drawn for a relaunch: the first of its four draws. */
  function DrawLifetime(d: EmitterData, prng: Prng, n: nat): (t: real)
    ensures Bounded(prng) && Ordered(d.lifetime) ==> GetMin(d.lifetime) <= t <= GetMax(d.lifetime)
  {
    prng(n, GetMin(d.lifetime), GetMax(d.lifetime))
  }

  /** The velocity drawn for a relaunch: one draw per axis after the
      lifetime's. */
  function DrawVelocity(d: EmitterData, prng: Prng, n: nat): (v: Vec3)
    ensures Bounded(prng) && Ordered(d.velocity.0) ==> GetMin(d.velocity.0) <= v.x <= GetMax(d.velocity.0)
    ensures Bounded(prng) && Ordered(d.velocity.1) ==> GetMin(d.velocity.1) <= v.y <= GetMax(d.velocity.1)
    ensures Bounded(prng) && Ordered(d.velocity.2) ==> GetMin(d.velocity.2) <= v.z <= GetMax(d.velocity.2)
  {
    var (vx, vy, vz) := d.velocity;
    Vec3(prng(n + 1, GetMin(vx), GetMax(vx)),
         prng(n + 2, GetMin(vy), GetMax(vy)),
         prng(n + 3, GetMin(vz), GetMax(vz)))
  }

  /** One pass of the emission loop's body after the accumulator is
      decremented: the first inactive particle, if any, draws a lifetime and
      a velocity (four draws from draw `n` on), is moved to the owner's
      position (the owner must have a transformation) and relaunched; at
      most one particle is relaunched per pass. */
  function Relaunch(sc: Scene, d: EmitterData, owner: Entity, prng: Prng, n: nat): (r: Result<(Scene, EmitterData, nat)>)
    requires ValidScene(sc) && PoolInRange(sc.em, d.particles)
    ensures r.Success? ==> Carries(sc, d, r.value.0, r.value.1) && r.value.1.accumulator == d.accumulator
  {
    match FirstInactive(sc.em, d.particles, 0)
    case None => Success((sc, d, n))
    case Some(k) =>
      var t := DrawLifetime(d, prng, n);
      var p :- OwnerPosition(sc.ts, owner);
      var v := DrawVelocity(d, prng, n);
      var (sc', d') := Launch(sc, d, k, p, v, t);
      Success((sc', d', n + 4))
  }

  /** Which particle a pass relaunches: none when every particle is active,
      otherwise the first inactive one, moved to the owner's position with
      the drawn velocity and lifetime, four draws later; an owner without a
      transformation fails the pass. */
  lemma RelaunchSpec(sc: Scene, d: EmitterData, owner: Entity, prng: Prng, n: nat)
    requires ValidScene(sc) && PoolInRange(sc.em, d.particles)
    ensures FirstInactive(sc.em, d.particles, 0).None? ==> Relaunch(sc, d, owner, prng, n) == Success((sc, d, n))
    ensures FirstInactive(sc.em, d.particles, 0).Some? ==>
              var k := FirstInactive(sc.em, d.particles, 0).value;
              if Has(sc.ts, owner) then
                var l := Launch(sc, d, k, Get(sc.ts, owner).position, DrawVelocity(d, prng, n), DrawLifetime(d, prng, n));
                Relaunch(sc, d, owner, prng, n) == Success((l.0, l.1, n + 4))
              else Relaunch(sc, d, owner, prng, n).Failure?
  {
  }

  /** A real that is a whole number. */
  predicate Whole(x: real) {
    x.Floor as real == x
  }

  lemma FloorStep(x: real)
    ensures (x - 1.0).Floor == x.Floor - 1
    ensures Whole(x) ==> Whole(x + 1.0)
  {
  }

  /** Periods still to spend: the measure the emission loop decreases. */
  function Pending(acc: real): nat {
    if acc < EmissionPeriod then 0 else (acc * 50.0).Floor
  }

  /** The accumulator after spending whole periods of `acc`: below one
      period, not below zero when `acc` was not, and `acc` less a whole
      number of periods. */
  predicate Spent(acc: real, acc': real) {
    && acc' < EmissionPeriod
    && (acc >= 0.0 ==> acc' >= 0.0)
    && Whole((acc - acc') * 50.0)
  }

  lemma SpentStep(acc: real, mid: real, acc': real)
    requires acc >= EmissionPeriod && mid == acc - EmissionPeriod && Spent(mid, acc')
    ensures Spent(acc, acc')
  {
    assert (acc - acc') * 50.0 == (mid - acc') * 50.0 + 1.0;
    FloorStep((mid - acc') * 50.0 + 1.0);
  }

  lemma PendingStep(acc: real)
    requires acc >= EmissionPeriod
    ensures Pending(acc - EmissionPeriod) < Pending(acc)
  {
    FloorStep(acc * 50.0);
    assert (acc - EmissionPeriod) * 50.0 == acc * 50.0 - 1.0;
  }

  /** What the emission loop leaves of `acc`: whole periods are taken
      off until less than one remains. */
  function Leftover(acc: real): real
    decreases Pending(acc)
  {
    if acc < EmissionPeriod then acc
    else
      PendingStep(acc);
      Leftover(acc - EmissionPeriod)
  }

  /** The leftover is below one period, not negative when `acc` was not,
      and `acc` less a whole number of periods. */
  lemma {:induction false} LeftoverSpent(acc: real)
    decreases Pending(acc)
    ensures Spent(acc, Leftover(acc))
  {
    if acc < EmissionPeriod {
      assert (acc - acc) * 50.0 == 0.0;
    } else {
      PendingStep(acc);
      LeftoverSpent(acc - EmissionPeriod);
      SpentStep(acc, acc - EmissionPeriod, Leftover(acc));
    }
  }

  /** A successful emission run from `sc` and `d` with `acc` accumulated:
      what Carries keeps is kept, and the accumulator holds the leftover of
      `acc`. */
  predicate Emitted(sc: Scene, d: EmitterData, acc: real, r: Result<(Scene, EmitterData, nat)>) {
    r.Success? ==> Carries(sc, d, r.value.0, r.value.1) && r.value.1.accumulator == Leftover(acc)
  }

  lemma EmittedAfter(sc: Scene, d: EmitterData, sc1: Scene, d1: EmitterData, acc: real,
                     r: Result<(Scene, EmitterData, nat)>)
    requires Carries(sc, d, sc1, d1) && Emitted(sc1, d1, acc, r)
    ensures Emitted(sc, d, acc, r)
  {
    if r.Success? {
      CarriesTrans(sc, d, sc1, d1, r.value.0, r.value.1);
    }
  }

  /** One period spent and one relaunch done, then the rest of the loop. */
  lemma EmittedStep(sc: Scene, d: EmitterData, sc2: Scene, d2: EmitterData, r: Result<(Scene, EmitterData, nat)>)
    requires d.accumulator >= EmissionPeriod && d2.accumulator == d.accumulator - EmissionPeriod
    requires Carries(sc, d, sc2, d2) && Emitted(sc2, d2, d2.accumulator, r)
    ensures Emitted(sc, d, d.accumulator, r)
  {
    if r.Success? {
      assert Leftover(d.accumulator) == Leftover(d2.accumulator);
      CarriesTrans(sc, d, sc2, d2, r.value.0, r.value.1);
    }
  }

  lemma CarriesTrans(sc: Scene, d: EmitterData, sc1: Scene, d1: EmitterData, sc2: Scene, d2: EmitterData)
    requires Carries(sc, d, sc1, d1) && Carries(sc1, d1, sc2, d2)
    ensures Carries(sc, d, sc2, d2)
  {
    forall s: nat | s < |sc.em.active| && OutsidePool(d.particles, s)
      ensures sc2.em.active[s] == sc.em.active[s]
    {
      SameEntitiesOutside(d.particles, d1.particles, s);
    }
  }

  /** The `while` loop of `update`: while a whole period is accumulated,
      spend it and relaunch one particle. */
  function Emissions(sc: Scene, d: EmitterData, owner: Entity, prng: Prng, n: nat): (r: Result<(Scene, EmitterData, nat)>)
    requires ValidScene(sc) && PoolInRange(sc.em, d.particles)
    decreases Pending(d.accumulator)
    ensures Emitted(sc, d, d.accumulator, r)
    ensures d.accumulator < EmissionPeriod ==> r == Success((sc, d, n))
  {
    if d.accumulator < EmissionPeriod then
      Success((sc, d, n))
    else
      var d1 := d.(accumulator := d.accumulator - EmissionPeriod);
      PendingStep(d.accumulator);
      var (sc2, d2, n2) :- Relaunch(sc, d1, owner, prng, n);
      assert PoolInRange(sc2.em, d2.particles);
      var r := Emissions(sc2, d2, owner, prng, n2);
      EmittedStep(sc, d, sc2, d2, r);
      r
  }

  /** `ParticleEmitterData::update`: add `dt` to the accumulator, age the
      pool, then run the emission loop. */
  function Update(sc: Scene, d: EmitterData, owner: Entity, dt: real, prng: Prng, n: nat)
    : (r: Result<(Scene, EmitterData, nat)>)
    requires ValidScene(sc) && PoolInRange(sc.em, d.particles)
    ensures Emitted(sc, d, d.accumulator + dt, r)
  {
    var aged := AgeParticles(sc.em, d.particles, dt);
    AgedCarries(sc, d, dt);
    var sc1 := sc.(em := aged.0);
    var d1 := d.(accumulator := d.accumulator + dt, particles := aged.1);
    var r := Emissions(sc1, d1, owner, prng, n);
    EmittedAfter(sc, d, sc1, d1, d1.accumulator, r);
    r
  }

  /** The aged pool stays in range and ageing keeps what Carries keeps. */
  lemma AgedCarries(sc: Scene, d: EmitterData, dt: real)
    requires ValidScene(sc) && PoolInRange(sc.em, d.particles)
    ensures var aged := AgeParticles(sc.em, d.particles, dt);
            && PoolInRange(aged.0, aged.1)
            && Carries(sc, d, sc.(em := aged.0), d.(accumulator := d.accumulator + dt, particles := aged.1))
  {
    var aged := AgeParticles(sc.em, d.particles, dt);
    AgeKeepsOutside(sc.em, d.particles, dt);
    forall k | 0 <= k < |aged.1| ensures InRange(aged.0, aged.1[k].entity) {
      assert aged.1[k].entity == d.particles[k].entity;
    }
  }

  /** Below one period the update only ages: no particle is relaunched and
      the accumulator keeps the time. */
  lemma ShortUpdateOnlyAges(sc: Scene, d: EmitterData, owner: Entity, dt: real, prng: Prng, n: nat)
    requires ValidScene(sc) && PoolInRange(sc.em, d.particles)
    requires d.accumulator + dt < EmissionPeriod
    ensures var aged := AgeParticles(sc.em, d.particles, dt);
            Update(sc, d, owner, dt, prng, n) ==
              Success((sc.(em := aged.0), d.(accumulator := d.accumulator + dt, particles := aged.1), n))
  {
  }

  // ---------------------------------------------------------------------
  // The system

  /** Every emitter's pool lives in slots of the entity tables. */
  predicate PoolsInRange(sys: EmitterSystem, em: EntityManager) {
    forall k :: 0 <= k < |sys.data| ==> PoolInRange(em, sys.data[k].body.particles)
  }

  /** `add_particle_emitter_to_entity`: ignored when the entity already has
      an emitter; otherwise an emitter is built (spawning its pool) and
      appended. No transformation is required of the owner. */
  function AddEmitter(sys: EmitterSystem, e: Entity, sc: Scene, res: R.Resources): (r: (EmitterSystem, Scene))
    requires Valid(sys) && ValidScene(sc) && |sc.em.generation| + 25 < IndexLimit
    ensures Valid(r.0) && ValidScene(r.1)
    ensures Has(sys, e) ==> r == (sys, sc)
    ensures !Has(sys, e) ==> Has(r.0, e) && Get(r.0, e) == Build(sc, res).1 && r.1 == Build(sc, res).0
    ensures forall x :: x != e ==> (Has(r.0, x) <==> Has(sys, x))
    ensures forall x :: x != e && Has(sys, x) ==> Get(r.0, x) == Get(sys, x)
  {
    if Has(sys, e) then (sys, sc)
    else
      var (sc', d) := Build(sc, res);
      (Append(sys, e, d), sc')
  }

  /** Destroys every particle entity in pool order. */
  function DestroyAll(em: EntityManager, ps: seq<Particle>): (em': EntityManager)
    requires ValidManager(em) && PoolInRange(em, ps)
    decreases |ps|
    ensures ValidManager(em') && em'.active == em.active && |em'.generation| == |em.generation|
    ensures em'.freeIndices == em.freeIndices + seq(|ps|, k requires 0 <= k < |ps| => Index(ps[k].entity))
    ensures forall s :: 0 <= s < |em.generation| && (forall k :: 0 <= k < |ps| ==> Index(ps[k].entity) != s) ==>
              em'.generation[s] == em.generation[s]
  {
    if |ps| == 0 then em
    else
      var em1 := DestroyEntity(em, ps[0].entity);
      var rest := DestroyAll(em1, ps[1..]);
      assert seq(|ps|, k requires 0 <= k < |ps| => Index(ps[k].entity)) ==
             [Index(ps[0].entity)] + seq(|ps| - 1, k requires 0 <= k < |ps| - 1 => Index(ps[1..][k].entity));
      rest
  }

  /** With distinct slots, every particle handle that was alive is stale
      once the pool is destroyed. */
  lemma {:induction false} DestroyAllKills(em: EntityManager, ps: seq<Particle>)
    requires ValidManager(em) && PoolInRange(em, ps) && DistinctSlots(ps)
    decreases |ps|
    ensures forall k :: 0 <= k < |ps| && EntityIsAlive(em, ps[k].entity) ==>
              !EntityIsAlive(DestroyAll(em, ps), ps[k].entity)
  {
    if |ps| > 0 {
      var em1 := DestroyEntity(em, ps[0].entity);
      var tail := ps[1..];
      assert forall k :: 0 <= k < |tail| ==> tail[k] == ps[k + 1];
      DestroyAllKills(em1, tail);
      var s0 := Index(ps[0].entity);
      assert DestroyAll(em1, tail).generation[s0] == em1.generation[s0] by {
        assert forall k :: 0 <= k < |tail| ==> Index(tail[k].entity) != s0;
      }
      if EntityIsAlive(em, ps[0].entity) {
        DestroyKills(em, ps[0].entity);
      }
      forall k | 1 <= k < |ps| && EntityIsAlive(em, ps[k].entity)
        ensures EntityIsAlive(em1, tail[k - 1].entity)
      {
        assert Index(ps[k].entity) != s0;
      }
    }
  }

  /** `remove_particle_emitter_from_entity`: a no-op for the null or an
      absent entity; otherwise every particle of the pool is destroyed and
      the emitter is swap-removed. */
  function RemoveEmitter(sys: EmitterSystem, e: Entity, em: EntityManager): (r: (EmitterSystem, EntityManager))
    requires Valid(sys) && ValidManager(em) && PoolsInRange(sys, em)
    ensures Valid(r.0) && ValidManager(r.1)
    ensures e == Null() || !Has(sys, e) ==> r == (sys, em)
    ensures e != Null() && Has(sys, e) ==>
              && !Has(r.0, e) && |r.0.data| == |sys.data| - 1
              && r.1 == DestroyAll(em, Get(sys, e).particles)
    ensures forall x :: x != e ==> (Has(r.0, x) <==> Has(sys, x))
    ensures forall x :: x != e && Has(sys, x) ==> Get(r.0, x) == Get(sys, x)
  {
    RemoveSpec(sys, e);
    if e == Null() || !Has(sys, e) then (sys, em)
    else (Remove(sys, e), DestroyAll(em, sys.data[sys.index[e]].body.particles))
  }

  /** Same-shaped tables: an entity in range of one is in range of the other. */
  predicate SameShape(em: EntityManager, em': EntityManager) {
    em'.generation == em.generation && |em'.active| == |em.active|
  }

  /** One emitter of the system updated in place: it fails exactly when the
      emitter's update fails; otherwise the record at dense position `i`
      gets the updated emitter under the same owner, the scene and the draw
      counter are the ones that update leaves, every other record and the
      map are untouched, and the scene keeps its shape. */
  function UpdateAt(sys: EmitterSystem, sc: Scene, dt: real, prng: Prng, n: nat, i: nat)
    : (r: Result<(EmitterSystem, Scene, nat)>)
    requires Valid(sys) && ValidScene(sc) && OwnersInRange(sys, sc.em) && PoolsInRange(sys, sc.em)
    requires i < |sys.data|
    ensures r.Success? ==>
              && Valid(r.value.0) && r.value.0.index == sys.index && Owners(r.value.0) == Owners(sys)
              && ValidScene(r.value.1) && SameShape(sc.em, r.value.1.em)
              && OwnersInRange(r.value.0, r.value.1.em) && PoolsInRange(r.value.0, r.value.1.em)
              && |r.value.0.data| == |sys.data|
              && (forall k :: 0 <= k < |sys.data| && k != i ==> r.value.0.data[k] == sys.data[k])
    ensures var u := Update(sc, sys.data[i].body, sys.data[i].owner, dt, prng, n);
            && (r.Success? <==> u.Success?)
            && (r.Success? ==>
                  && r.value.0.data[i] == Record(sys.data[i].owner, u.value.1)
                  && r.value.1 == u.value.0 && r.value.2 == u.value.2)
  {
    var rec := sys.data[i];
    var u :- Update(sc, rec.body, rec.owner, dt, prng, n);
    ReplaceBody(sys, sc.em, u.0.em, i, u.1);
    Success((Store(sys.index, sys.data[i := Record(rec.owner, u.1)]), u.0, u.2))
  }

  /** Replacing one emitter's record body by one whose pool is in range of
      same-shaped tables keeps the store valid and everything in range. */
  lemma ReplaceBody(sys: EmitterSystem, em: EntityManager, em': EntityManager, i: nat, d: EmitterData)
    requires Valid(sys) && OwnersInRange(sys, em) && PoolsInRange(sys, em)
    requires SameShape(em, em') && i < |sys.data| && PoolInRange(em', d.particles)
    ensures var sys1 := Store(sys.index, sys.data[i := Record(sys.data[i].owner, d)]);
            && Valid(sys1) && Owners(sys1) == Owners(sys)
            && OwnersInRange(sys1, em') && PoolsInRange(sys1, em')
  {
    var sys1 := Store(sys.index, sys.data[i := Record(sys.data[i].owner, d)]);
    SameOwnersKeepValid(sys, sys1.data);
    forall k | 0 <= k < |sys1.data|
      ensures PoolInRange(em', sys1.data[k].body.particles)
    {
      if k != i {
        assert PoolInRange(em, sys.data[k].body.particles);
      }
    }
  }

  /** No emitter's owner occupies a slot of any emitter's pool, so running
      one emitter never switches another emitter's owner on or off. */
  predicate OwnersOutsidePools(sys: EmitterSystem) {
    forall j, k :: 0 <= j < |sys.data| && 0 <= k < |sys.data| ==>
      OutsidePool(sys.data[k].body.particles, Index(sys.data[j].owner))
  }

  /** What one run of `emitter.update` makes of an emitter: the leftover of
      its accumulator plus `dt`, the same ranges and the same pool
      entities. */
  predicate Updated(d: EmitterData, d': EmitterData, dt: real) {
    && d'.accumulator == Leftover(d.accumulator + dt)
    && d'.lifetime == d.lifetime && d'.velocity == d.velocity
    && SameEntities(d.particles, d'.particles)
  }

  /** Updating emitter `i` keeps its owners clear of the pools and every
      owner's flag as it was, and updates record `i` as Updated says. */
  lemma UpdateAtKeeps(sys: EmitterSystem, sc: Scene, dt: real, prng: Prng, n: nat, i: nat)
    requires Valid(sys) && ValidScene(sc) && OwnersInRange(sys, sc.em) && PoolsInRange(sys, sc.em)
    requires i < |sys.data| && OwnersOutsidePools(sys)
    requires UpdateAt(sys, sc, dt, prng, n, i).Success?
    ensures var (sys1, sc1, _) := UpdateAt(sys, sc, dt, prng, n, i).value;
            && OwnersOutsidePools(sys1)
            && Updated(sys.data[i].body, sys1.data[i].body, dt)
            && forall j :: 0 <= j < |sys.data| ==>
                 sc1.em.active[Index(sys.data[j].owner)] == sc.em.active[Index(sys.data[j].owner)]
  {
    var (sys1, sc1, _) := UpdateAt(sys, sc, dt, prng, n, i).value;
    var u := Update(sc, sys.data[i].body, sys.data[i].owner, dt, prng, n);
    assert Carries(sc, sys.data[i].body, u.value.0, u.value.1);
    forall j, k | 0 <= j < |sys1.data| && 0 <= k < |sys1.data|
      ensures OutsidePool(sys1.data[k].body.particles, Index(sys1.data[j].owner))
    {
      assert sys1.data[j].owner == sys.data[j].owner;
      assert OutsidePool(sys.data[k].body.particles, Index(sys.data[j].owner));
      if k == i {
        SameEntitiesOutside(sys.data[i].body.particles, sys1.data[i].body.particles, Index(sys.data[j].owner));
      }
    }
    forall j | 0 <= j < |sys.data|
      ensures sc1.em.active[Index(sys.data[j].owner)] == sc.em.active[Index(sys.data[j].owner)]
    {
      assert InRange(sc.em, sys.data[j].owner);
      assert OutsidePool(sys.data[i].body.particles, Index(sys.data[j].owner));
    }
  }

  /** What a successful pass from `i` on does when no owner sits in a
      pool: every owner keeps its flag, an emitter whose owner is inactive
      keeps its record, and one whose owner is active is updated. */
  predicate RanFrom(sys: EmitterSystem, sc: Scene, sys': EmitterSystem, sc': Scene, dt: real, i: nat)
    requires Valid(sys) && OwnersInRange(sys, sc.em) && |sys'.data| == |sys.data|
    requires |sc'.em.active| == |sc.em.active|
  {
    && (forall j :: 0 <= j < |sys.data| ==>
          sc'.em.active[Index(sys.data[j].owner)] == sc.em.active[Index(sys.data[j].owner)])
    && (forall k :: i <= k < |sys.data| && !EntityIsActive(sc.em, sys.data[k].owner) ==>
          sys'.data[k] == sys.data[k])
    && (forall k :: i <= k < |sys.data| && EntityIsActive(sc.em, sys.data[k].owner) ==>
          sys'.data[k].owner == sys.data[k].owner && Updated(sys.data[k].body, sys'.data[k].body, dt))
  }

  /** The pass from `i` on, skipping an inactive owner at `i`. */
  lemma SkipStep(sys: EmitterSystem, sc: Scene, sys2: EmitterSystem, sc2: Scene, dt: real, i: nat)
    requires Valid(sys) && OwnersInRange(sys, sc.em) && |sys2.data| == |sys.data|
    requires |sc2.em.active| == |sc.em.active| && i < |sys.data|
    requires !EntityIsActive(sc.em, sys.data[i].owner) && sys2.data[i] == sys.data[i]
    requires RanFrom(sys, sc, sys2, sc2, dt, i + 1)
    ensures RanFrom(sys, sc, sys2, sc2, dt, i)
  {
  }

  /** The pass from `i` on, updating an active owner at `i` and then running
      from `i + 1` on what that update left. */
  lemma RunStep(sys: EmitterSystem, sc: Scene, sys1: EmitterSystem, sc1: Scene,
                sys2: EmitterSystem, sc2: Scene, dt: real, i: nat)
    requires Valid(sys) && OwnersInRange(sys, sc.em) && i < |sys.data|
    requires Valid(sys1) && OwnersInRange(sys1, sc1.em)
    requires |sys1.data| == |sys.data| && |sys2.data| == |sys.data|
    requires |sc1.em.active| == |sc.em.active| && |sc2.em.active| == |sc.em.active|
    requires forall j :: 0 <= j < |sys.data| ==> sys1.data[j].owner == sys.data[j].owner
    requires forall k :: 0 <= k < |sys.data| && k != i ==> sys1.data[k] == sys.data[k]
    requires forall j :: 0 <= j < |sys.data| ==>
               sc1.em.active[Index(sys.data[j].owner)] == sc.em.active[Index(sys.data[j].owner)]
    requires EntityIsActive(sc.em, sys.data[i].owner) && Updated(sys.data[i].body, sys1.data[i].body, dt)
    requires sys2.data[i] == sys1.data[i]
    requires RanFrom(sys1, sc1, sys2, sc2, dt, i + 1)
    ensures RanFrom(sys, sc, sys2, sc2, dt, i)
  {
    forall k | i < k < |sys.data|
      ensures EntityIsActive(sc1.em, sys1.data[k].owner) == EntityIsActive(sc.em, sys.data[k].owner)
    {
      assert sys1.data[k] == sys.data[k];
    }
    forall j | 0 <= j < |sys.data|
      ensures sc2.em.active[Index(sys.data[j].owner)] == sc.em.active[Index(sys.data[j].owner)]
    {
      assert sc2.em.active[Index(sys1.data[j].owner)] == sc1.em.active[Index(sys1.data[j].owner)];
    }
  }

  /** The system's `update` from dense position `i` on: every emitter whose
      owner is active (at the time it is reached) is updated in place. When
      no owner sits in a pool, a successful pass does what RanFrom says. */
  function UpdateFrom(sys: EmitterSystem, sc: Scene, dt: real, prng: Prng, n: nat, i: nat)
    : (r: Result<(EmitterSystem, Scene, nat)>)
    requires Valid(sys) && ValidScene(sc) && OwnersInRange(sys, sc.em) && PoolsInRange(sys, sc.em)
    requires i <= |sys.data|
    decreases |sys.data| - i
    ensures r.Success? ==>
              && Valid(r.value.0) && r.value.0.index == sys.index && Owners(r.value.0) == Owners(sys)
              && ValidScene(r.value.1) && SameShape(sc.em, r.value.1.em)
              && |r.value.0.data| == |sys.data|
              && (forall k :: 0 <= k < i ==> r.value.0.data[k] == sys.data[k])
    ensures (forall k :: i <= k < |sys.data| ==> !EntityIsActive(sc.em, sys.data[k].owner)) ==>
              r == Success((sys, sc, n))
    ensures OwnersOutsidePools(sys) && r.Success? ==> RanFrom(sys, sc, r.value.0, r.value.1, dt, i)
  {
    if i == |sys.data| then Success((sys, sc, n))
    else if EntityIsActive(sc.em, sys.data[i].owner) then
      var (sys1, sc1, n1) :- UpdateAt(sys, sc, dt, prng, n, i);
      var r := UpdateFrom(sys1, sc1, dt, prng, n1, i + 1);
      if OwnersOutsidePools(sys) && r.Success? then
        ActiveStep(sys, sc, dt, prng, n, i, r.value.0, r.value.1);
        r
      else r
    else
      var r := UpdateFrom(sys, sc, dt, prng, n, i + 1);
      if OwnersOutsidePools(sys) && r.Success? then
        SkipStep(sys, sc, r.value.0, r.value.1, dt, i);
        r
      else r
  }

  /** UpdateFrom's RanFrom clause for an active owner at `i`: UpdateAtKeeps
      and RunStep joined, given what the pass from `i + 1` did. */
  lemma ActiveStep(sys: EmitterSystem, sc: Scene, dt: real, prng: Prng, n: nat, i: nat,
                   sys2: EmitterSystem, sc2: Scene)
    requires Valid(sys) && ValidScene(sc) && OwnersInRange(sys, sc.em) && PoolsInRange(sys, sc.em)
    requires i < |sys.data| && OwnersOutsidePools(sys) && EntityIsActive(sc.em, sys.data[i].owner)
    requires UpdateAt(sys, sc, dt, prng, n, i).Success?
    requires var (sys1, sc1, _) := UpdateAt(sys, sc, dt, prng, n, i).value;
             && |sys2.data| == |sys.data| && |sc2.em.active| == |sc.em.active|
             && sys2.data[i] == sys1.data[i]
             && (OwnersOutsidePools(sys1) ==> RanFrom(sys1, sc1, sys2, sc2, dt, i + 1))
    ensures RanFrom(sys, sc, sys2, sc2, dt, i)
  {
    var (sys1, sc1, _) := UpdateAt(sys, sc, dt, prng, n, i).value;
    UpdateAtKeeps(sys, sc, dt, prng, n, i);
    forall j | 0 <= j < |sys.data|
      ensures sys1.data[j].owner == sys.data[j].owner
    {
      assert Owners(sys1)[j] == Owners(sys)[j];
    }
    RunStep(sys, sc, sys1, sc1, sys2, sc2, dt, i);
  }

  /** `ParticleEmitterSystem::update`. When no owner sits in a pool, every
      emitter with an active owner is updated and every other emitter is
      left as it was. */
  function SystemUpdate(sys: EmitterSystem, sc: Scene, dt: real, prng: Prng, n: nat)
    : (r: Result<(EmitterSystem, Scene, nat)>)
    requires Valid(sys) && ValidScene(sc) && OwnersInRange(sys, sc.em) && PoolsInRange(sys, sc.em)
    ensures r.Success? ==> Valid(r.value.0) && r.value.0.index == sys.index && Owners(r.value.0) == Owners(sys)
    ensures (forall k :: 0 <= k < |sys.data| ==> !EntityIsActive(sc.em, sys.data[k].owner)) ==>
              r == Success((sys, sc, n))
    ensures OwnersOutsidePools(sys) && r.Success? ==>
              && |r.value.0.data| == |sys.data|
              && (forall k :: 0 <= k < |sys.data| && !EntityIsActive(sc.em, sys.data[k].owner) ==>
                    r.value.0.data[k] == sys.data[k])
              && (forall k :: 0 <= k < |sys.data| && EntityIsActive(sc.em, sys.data[k].owner) ==>
                    Updated(sys.data[k].body, r.value.0.data[k].body, dt))
  {
    UpdateFrom(sys, sc, dt, prng, n, 0)
  }

  /** One inactive owner is skipped. */
  lemma SkipOne(sys: EmitterSystem, sc: Scene, dt: real, prng: Prng, n: nat, i: nat)
    requires Valid(sys) && ValidScene(sc) && OwnersInRange(sys, sc.em) && PoolsInRange(sys, sc.em)
    requires i < |sys.data| && !EntityIsActive(sc.em, sys.data[i].owner)
    ensures UpdateFrom(sys, sc, dt, prng, n, i) == UpdateFrom(sys, sc, dt, prng, n, i + 1)
  {
  }

  /** With no owner in a pool and exactly one active owner, at position
      `j`, the system update is that one emitter's update in place: the same
      failure, or the same system, scene and draw counter. */
  lemma SoleActiveOwner(sys: EmitterSystem, sc: Scene, dt: real, prng: Prng, n: nat, j: nat)
    requires Valid(sys) && ValidScene(sc) && OwnersInRange(sys, sc.em) && PoolsInRange(sys, sc.em)
    requires j < |sys.data| && OwnersOutsidePools(sys) && EntityIsActive(sc.em, sys.data[j].owner)
    requires forall k :: 0 <= k < |sys.data| && k != j ==> !EntityIsActive(sc.em, sys.data[k].owner)
    ensures SystemUpdate(sys, sc, dt, prng, n) == UpdateAt(sys, sc, dt, prng, n, j)
  {
    var r := UpdateFrom(sys, sc, dt, prng, n, 0);
    var k := 0;
    while k < j
      invariant k <= j && r == UpdateFrom(sys, sc, dt, prng, n, k)
    {
      SkipOne(sys, sc, dt, prng, n, k);
      k := k + 1;
    }
    SoleActiveHere(sys, sc, dt, prng, n, k);
  }

  /** The pass from the sole active owner's position `j` is that owner's
      emitter update in place. */
  lemma SoleActiveHere(sys: EmitterSystem, sc: Scene, dt: real, prng: Prng, n: nat, j: nat)
    requires Valid(sys) && ValidScene(sc) && OwnersInRange(sys, sc.em) && PoolsInRange(sys, sc.em)
    requires j < |sys.data| && OwnersOutsidePools(sys) && EntityIsActive(sc.em, sys.data[j].owner)
    requires forall k :: 0 <= k < |sys.data| && k != j ==> !EntityIsActive(sc.em, sys.data[k].owner)
    ensures UpdateFrom(sys, sc, dt, prng, n, j) == UpdateAt(sys, sc, dt, prng, n, j)
  {
    var u := UpdateAt(sys, sc, dt, prng, n, j);
    if u.Success? {
      var (sys1, sc1, n1) := u.value;
      UpdateAtKeeps(sys, sc, dt, prng, n, j);
      forall k | j + 1 <= k < |sys1.data|
        ensures !EntityIsActive(sc1.em, sys1.data[k].owner)
      {
        assert Owners(sys1)[k] == Owners(sys)[k];
      }
    }
  }
}
