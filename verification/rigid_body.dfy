/** `src/ecs/components/rigid_body.rs`: axis-aligned boxes with a velocity,
    integrated at a fixed step of 1/60 s, with an impulse-based response for
    every colliding pair in which at least one body is dynamic. A body's
    position is the position of its owner's transformation. */
module RigidBodies {
  import opened VecMath
  import opened Entities
  import opened Wrappers
  import opened ComponentStore
  import T = Transformation
  import H = Health

  datatype RigidBodyData = RigidBodyData(
    offset: Vec3,
    extents: Vec3,
    velocity: Vec3,
    locomotion: Vec3,
    elasticity: real,
    invMass: real,
    gravityImmune: bool,
    foothold: bool,
    damage: real,
    dieOnCollision: bool)

  datatype RigidBodyBuilder = RigidBodyBuilder(
    offset: Option<Vec3>,
    extents: Option<Vec3>,
    velocity: Option<Vec3>,
    elasticity: Option<real>,
    invMass: Option<real>,
    gravityImmune: bool,
    damage: Option<real>,
    dieOnCollision: bool)

  datatype CollisionManifold = CollisionManifold(penetration: real, normal: Vec3)

  type RigidBodyStore = Store<RigidBodyData>

  /** The system keeps the step accumulator (`timer.0`) and the bodies. The
      step length (`timer.1`) and the gravity vector are set by `new` and never
      reassigned, so they are the constants below. */
  datatype RigidBodySystem = RigidBodySystem(accumulator: real, bodies: RigidBodyStore)

  const FixedStep: real := 1.0 / 60.0
  const Gravity: Vec3 := Vec3(0.0, -9.82, 0.0)
  const Up: Vec3 := Vec3(0.0, 1.0, 0.0)
  const Down: Vec3 := Vec3(0.0, -1.0, 0.0)

  // ---------------------------------------------------------------------
  // Builder

  function NewBuilder(): RigidBodyBuilder {
    RigidBodyBuilder(None, None, None, None, None, false, None, false)
  }

  function WithOffset(b: RigidBodyBuilder, o: Vec3): RigidBodyBuilder {
    b.(offset := Some(o))
  }

  function WithExtents(b: RigidBodyBuilder, e: Vec3): RigidBodyBuilder {
    b.(extents := Some(e))
  }

  function WithVelocity(b: RigidBodyBuilder, v: Vec3): RigidBodyBuilder {
    b.(velocity := Some(v))
  }

  function WithElasticity(b: RigidBodyBuilder, e: real): RigidBodyBuilder {
    b.(elasticity := Some(e))
  }

  function IsGravityImmune(b: RigidBodyBuilder): RigidBodyBuilder {
    b.(gravityImmune := true)
  }

  function DealingDamage(b: RigidBodyBuilder, d: real): RigidBodyBuilder {
    b.(damage := Some(d))
  }

  function DiesOnCollision(b: RigidBodyBuilder): RigidBodyBuilder {
    b.(dieOnCollision := true)
  }

  /** `with_mass`: a positive mass is stored as its inverse; any other mass
      makes the body static. */
  function WithMass(b: RigidBodyBuilder, mass: real): (r: RigidBodyBuilder)
    ensures r.invMass.Some?
    ensures mass > 0.0 ==> r.invMass.value * mass == 1.0
    ensures mass <= 0.0 ==> r.invMass.value == 0.0
    ensures r.invMass.value >= 0.0
    ensures r == b.(invMass := r.invMass)
  {
    b.(invMass := Some(if mass > 0.0 then 1.0 / mass else 0.0))
  }

  /** A builder whose inverse mass, when set, is not negative: the only way to
      set it is `with_mass`. */
  predicate ValidBuilder(b: RigidBodyBuilder) {
    b.invMass.Some? ==> b.invMass.value >= 0.0
  }

  function Build(b: RigidBodyBuilder): RigidBodyData {
    RigidBodyData(
      b.offset.GetOr(Zero3),
      b.extents.GetOr(Vec3(0.5, 0.5, 0.5)),
      b.velocity.GetOr(Zero3),
      Zero3,
      b.elasticity.GetOr(0.0),
      b.invMass.GetOr(0.0),
      b.gravityImmune,
      false,
      b.damage.GetOr(0.0),
      b.dieOnCollision)
  }

  /** Defaults: offset 0, half extents 0.5, at rest, no locomotion, no
      elasticity, static, not gravity immune, no foothold, no damage, does not
      die on collision. A built body is never on a foothold and never has
      locomotion, and every builder reachable from `NewBuilder` is valid. */
  lemma BuilderDefaults(b: RigidBodyBuilder, mass: real)
    ensures Build(NewBuilder()) ==
              RigidBodyData(Zero3, Vec3(0.5, 0.5, 0.5), Zero3, Zero3, 0.0, 0.0,
                            false, false, 0.0, false)
    ensures !Build(b).foothold && Build(b).locomotion == Zero3
    ensures ValidBuilder(NewBuilder())
    ensures ValidBuilder(b) ==> ValidBuilder(WithMass(b, mass))
    ensures ValidBuilder(WithMass(b, mass))
    ensures ValidBuilder(b) ==> Build(b).invMass >= 0.0
  {
  }

  // ---------------------------------------------------------------------
  // Store operations

  function NewSystem(): (s: RigidBodySystem)
    ensures s.accumulator == 0.0 && Valid(s.bodies) && |s.bodies.data| == 0
  {
    RigidBodySystem(0.0, Empty())
  }

  /** Every inverse mass is non-negative, as `with_mass` guarantees. */
  predicate MassesValid(data: seq<Record<RigidBodyData>>) {
    forall k :: 0 <= k < |data| ==> data[k].body.invMass >= 0.0
  }

  /** Every body's owner has a transformation (the physics step unwraps the
      owner's position). */
  predicate Attached(data: seq<Record<RigidBodyData>>, ts: T.TransformationSystem) {
    forall k :: 0 <= k < |data| ==> Has(ts, data[k].owner)
  }

  /** `add_rigid_body_to_entity`: a no-op when the entity already has a body
      or has no transformation; otherwise the built body is appended. The
      null entity is not rejected. */
  function AddRigidBody(rs: RigidBodyStore, e: Entity, b: RigidBodyBuilder, ts: T.TransformationSystem)
    : (r: RigidBodyStore)
    requires Valid(rs) && Valid(ts)
    ensures Valid(r)
    ensures Has(rs, e) || !Has(ts, e) ==> r == rs
    ensures !Has(rs, e) && Has(ts, e) ==>
              && Has(r, e) && Get(r, e) == Build(b)
              && r.index[e] == |rs.data| && |r.data| == |rs.data| + 1
    ensures forall x :: x != e ==> (Has(r, x) <==> Has(rs, x))
    ensures forall x :: x != e && Has(rs, x) ==> Get(r, x) == Get(rs, x)
    ensures Attached(rs.data, ts) ==> Attached(r.data, ts)
    ensures MassesValid(rs.data) && ValidBuilder(b) ==> MassesValid(r.data)
  {
    if Has(rs, e) || !Has(ts, e) then rs else Append(rs, e, Build(b))
  }

  /** `remove_rigid_body_from_entity`: the shared swap-remove. */
  function RemoveRigidBody(rs: RigidBodyStore, e: Entity): (r: RigidBodyStore)
    requires Valid(rs)
    ensures Valid(r)
    ensures e == Null() || !Has(rs, e) ==> r == rs
    ensures e != Null() && Has(rs, e) ==> !Has(r, e) && |r.data| == |rs.data| - 1
    ensures forall x :: x != e ==> (Has(r, x) <==> Has(rs, x))
    ensures forall x :: x != e && Has(rs, x) ==> Get(r, x) == Get(rs, x)
  {
    RemoveSpec(rs, e);
    Remove(rs, e)
  }

  /** `get_extents`: None for the null entity and for entities without a
      body. */
  function GetExtents(rs: RigidBodyStore, e: Entity): (r: Option<Vec3>)
    requires Valid(rs)
    ensures r.Some? <==> e != Null() && Has(rs, e)
    ensures r.Some? ==> r.value == Get(rs, e).extents
  {
    if e == Null() then None
    else match Lookup(rs, e)
      case Some(b) => Some(b.extents)
      case None => None
  }

  /** `set_locomotion`: no null test; replaces the locomotion only. */
  function SetLocomotion(rs: RigidBodyStore, e: Entity, l: Vec3): (r: RigidBodyStore)
    requires Valid(rs)
    ensures Valid(r) && r.index == rs.index
    ensures !Has(rs, e) ==> r == rs
    ensures Has(rs, e) ==> Get(r, e) == Get(rs, e).(locomotion := l)
    ensures forall x :: x != e && Has(rs, x) ==> Get(r, x) == Get(rs, x)
  {
    Update(rs, e, (b: RigidBodyData) => b.(locomotion := l))
  }

  /** `set_gravity_immunity`: rejects the null entity. */
  function SetGravityImmunity(rs: RigidBodyStore, e: Entity, immune: bool): (r: RigidBodyStore)
    requires Valid(rs)
    ensures Valid(r) && r.index == rs.index
    ensures e == Null() || !Has(rs, e) ==> r == rs
    ensures e != Null() && Has(rs, e) ==> Get(r, e) == Get(rs, e).(gravityImmune := immune)
    ensures forall x :: x != e && Has(rs, x) ==> Get(r, x) == Get(rs, x)
  {
    GuardedUpdate(rs, e, (b: RigidBodyData) => b.(gravityImmune := immune))
  }

  /** `apply_force`: adds the force to the velocity. */
  function ApplyForce(rs: RigidBodyStore, e: Entity, force: Vec3): (r: RigidBodyStore)
    requires Valid(rs)
    ensures Valid(r) && r.index == rs.index
    ensures !Has(rs, e) ==> r == rs
    ensures Has(rs, e) ==> Get(r, e) == Get(rs, e).(velocity := Add(Get(rs, e).velocity, force))
    ensures forall x :: x != e && Has(rs, x) ==> Get(r, x) == Get(rs, x)
  {
    Update(rs, e, (b: RigidBodyData) => b.(velocity := Add(b.velocity, force)))
  }

  /** `apply_flight_force`: raises the vertical velocity to at least `force`
      and never lowers it; the other components are kept. */
  function ApplyFlightForce(rs: RigidBodyStore, e: Entity, force: real): (r: RigidBodyStore)
    requires Valid(rs)
    ensures Valid(r) && r.index == rs.index
    ensures !Has(rs, e) ==> r == rs
    ensures Has(rs, e) ==>
              && Get(r, e).velocity.y >= force
              && Get(r, e).velocity.y >= Get(rs, e).velocity.y
              && (Get(r, e).velocity.y == force || Get(r, e).velocity.y == Get(rs, e).velocity.y)
              && Get(r, e).velocity.x == Get(rs, e).velocity.x
              && Get(r, e).velocity.z == Get(rs, e).velocity.z
              && Get(r, e) == Get(rs, e).(velocity := Get(r, e).velocity)
    ensures forall x :: x != e && Has(rs, x) ==> Get(r, x) == Get(rs, x)
  {
    Update(rs, e, (b: RigidBodyData) =>
      if b.velocity.y < force then b.(velocity := b.velocity.(y := force)) else b)
  }

  /** Applying the same flight force twice is the same as applying it once. */
  lemma ApplyFlightForceIdempotent(rs: RigidBodyStore, e: Entity, force: real)
    requires Valid(rs)
    ensures ApplyFlightForce(ApplyFlightForce(rs, e, force), e, force) == ApplyFlightForce(rs, e, force)
  {
    var r1 := ApplyFlightForce(rs, e, force);
    var r2 := ApplyFlightForce(r1, e, force);
    if Has(rs, e) {
      assert r2.data[rs.index[e]] == r1.data[rs.index[e]];
      assert r2.data == r1.data;
    }
  }

  /** `set_velocity`: replaces the velocity. */
  function SetVelocity(rs: RigidBodyStore, e: Entity, v: Vec3): (r: RigidBodyStore)
    requires Valid(rs)
    ensures Valid(r) && r.index == rs.index
    ensures !Has(rs, e) ==> r == rs
    ensures Has(rs, e) ==> Get(r, e) == Get(rs, e).(velocity := v)
    ensures forall x :: x != e && Has(rs, x) ==> Get(r, x) == Get(rs, x)
  {
    Update(rs, e, (b: RigidBodyData) => b.(velocity := v))
  }

  /** `entity_has_foothold`: false for the null entity and entities without a
      body. */
  function EntityHasFoothold(rs: RigidBodyStore, e: Entity): (r: bool)
    requires Valid(rs)
    ensures r <==> e != Null() && Has(rs, e) && Get(rs, e).foothold
  {
    e != Null() && e in rs.index && rs.data[rs.index[e]].body.foothold
  }

  // ---------------------------------------------------------------------
  // Collision test

  /** Per-axis overlap of two boxes whose centres are `dir` apart. */
  function Overlap(a: Vec3, b: Vec3, dir: Vec3): Vec3 {
    Vec3(a.x + b.x - Abs(dir.x), a.y + b.y - Abs(dir.y), a.z + b.z - Abs(dir.z))
  }

  /** The unit normal on one axis, pointing the way `d` points on that axis;
      a zero `d` gives the positive direction. */
  function AxisSign(d: real): real {
    if d < 0.0 then -1.0 else 1.0
  }

  /** `RigidBody::colliding` for the box `a` at `pa` against `b` at `pb`. */
  function Colliding(a: RigidBodyData, b: RigidBodyData, pa: Vec3, pb: Vec3)
    : (r: Option<CollisionManifold>)
    ensures var o := Overlap(a.extents, b.extents, Sub(pb, pa));
            r.Some? <==> o.x > 0.0 && o.y > 0.0 && o.z > 0.0
    ensures var o := Overlap(a.extents, b.extents, Sub(pb, pa));
            r.Some? ==>
              && 0.0 < r.value.penetration
              && r.value.penetration <= o.x && r.value.penetration <= o.y
              && r.value.penetration <= o.z
              && (r.value.penetration == o.x || r.value.penetration == o.y
                  || r.value.penetration == o.z)
    ensures r.Some? ==> IsUnitAxis(r.value.normal)
    ensures var o := Overlap(a.extents, b.extents, Sub(pb, pa));
            var d := Sub(pb, pa);
            r.Some? ==>
              && (r.value.penetration == o.x ==> r.value.normal == Vec3(AxisSign(d.x), 0.0, 0.0))
              && (r.value.penetration != o.x && r.value.penetration == o.y ==>
                    r.value.normal == Vec3(0.0, AxisSign(d.y), 0.0))
              && (r.value.penetration != o.x && r.value.penetration != o.y ==>
                    r.value.normal == Vec3(0.0, 0.0, AxisSign(d.z)))
  {
    var d := Sub(pb, pa);
    var o := Overlap(a.extents, b.extents, d);
    if o.x > 0.0 && o.y > 0.0 && o.z > 0.0 then
      var pen := Min(o.x, Min(o.y, o.z));
      var n :=
        if pen == o.x then (if d.x < 0.0 then Vec3(-1.0, 0.0, 0.0) else Vec3(1.0, 0.0, 0.0))
        else if pen == o.y then (if d.y < 0.0 then Vec3(0.0, -1.0, 0.0) else Vec3(0.0, 1.0, 0.0))
        else (if d.z < 0.0 then Vec3(0.0, 0.0, -1.0) else Vec3(0.0, 0.0, 1.0));
      Some(CollisionManifold(pen, n))
    else
      None
  }

  /** Testing the pair the other way round finds the same contact with the
      same penetration; the normal is reversed whenever the centres differ on
      the chosen axis. */
  lemma {:induction false} CollidingSymmetric(a: RigidBodyData, b: RigidBodyData, pa: Vec3, pb: Vec3)
    ensures Colliding(a, b, pa, pb).Some? <==> Colliding(b, a, pb, pa).Some?
    ensures Colliding(a, b, pa, pb).Some? ==>
              && Colliding(a, b, pa, pb).value.penetration == Colliding(b, a, pb, pa).value.penetration
              && (Dot(Colliding(a, b, pa, pb).value.normal, Sub(pb, pa)) != 0.0 ==>
                    Colliding(b, a, pb, pa).value.normal
                      == Scale(Colliding(a, b, pa, pb).value.normal, -1.0))
  {
    var d := Sub(pb, pa);
    var d' := Sub(pa, pb);
    assert Abs(d'.x) == Abs(d.x) && Abs(d'.y) == Abs(d.y) && Abs(d'.z) == Abs(d.z);
    var o := Overlap(a.extents, b.extents, d);
    assert Overlap(b.extents, a.extents, d') == o;
    var r1 := Colliding(a, b, pa, pb);
    var r2 := Colliding(b, a, pb, pa);
    if r1.Some? {
      var pen := r1.value.penetration;
      assert r2.value.penetration == pen;
      if pen == o.x {
        assert Dot(r1.value.normal, d) == AxisSign(d.x) * d.x;
      } else if pen == o.y {
        assert Dot(r1.value.normal, d) == AxisSign(d.y) * d.y;
      } else {
        assert Dot(r1.value.normal, d) == AxisSign(d.z) * d.z;
      }
    }
  }

  // ---------------------------------------------------------------------
  // Impulse and positional correction

  /** The impulse step: the relative velocity along the normal, `normal_vel`,
      is reflected and scaled by `1 + e`, and shared out by inverse mass. */
  function ResolveVelocities(vi: Vec3, vj: Vec3, n: Vec3, e: real, mi: real, mj: real)
    : (r: (Vec3, Vec3))
    requires mi + mj != 0.0
    ensures IsUnitAxis(n) ==> Dot(Sub(r.1, r.0), n) == -e * Dot(Sub(vj, vi), n)
    ensures Add(Scale(Sub(r.0, vi), mj), Scale(Sub(r.1, vj), mi)) == Zero3
    ensures mi == 0.0 ==> r.0 == vi
    ensures mj == 0.0 ==> r.1 == vj
  {
    var nv := Dot(Sub(vj, vi), n);
    var magnitude := -(1.0 + e) * nv / (mi + mj);
    var impulse := Scale(n, magnitude);
    var r := (Sub(vi, Scale(impulse, mi)), Add(vj, Scale(impulse, mj)));
    RestitutionAlgebra(vi, vj, n, e, mi, mj, magnitude);
    r
  }

  lemma DivMul(x: real, d: real)
    requires d != 0.0
    ensures (x / d) * d == x
  {
  }

  lemma RestitutionAlgebra(vi: Vec3, vj: Vec3, n: Vec3, e: real, mi: real, mj: real, magnitude: real)
    requires mi + mj != 0.0
    requires magnitude == -(1.0 + e) * Dot(Sub(vj, vi), n) / (mi + mj)
    ensures var impulse := Scale(n, magnitude);
            IsUnitAxis(n) ==>
              Dot(Sub(Add(vj, Scale(impulse, mj)), Sub(vi, Scale(impulse, mi))), n)
                == -e * Dot(Sub(vj, vi), n)
  {
    var nv := Dot(Sub(vj, vi), n);
    DivMul(-(1.0 + e) * nv, mi + mj);
    var k := magnitude * mi + magnitude * mj;
    assert k == -(1.0 + e) * nv;
    var impulse := Scale(n, magnitude);
    var rv' := Sub(Add(vj, Scale(impulse, mj)), Sub(vi, Scale(impulse, mi)));
    if n == Vec3(1.0, 0.0, 0.0) {
      assert rv'.x == (vj.x - vi.x) + k;
    } else if n == Vec3(-1.0, 0.0, 0.0) {
      assert rv'.x == (vj.x - vi.x) - k;
    } else if n == Vec3(0.0, 1.0, 0.0) {
      assert rv'.y == (vj.y - vi.y) + k;
    } else if n == Vec3(0.0, -1.0, 0.0) {
      assert rv'.y == (vj.y - vi.y) - k;
    } else if n == Vec3(0.0, 0.0, 1.0) {
      assert rv'.z == (vj.z - vi.z) + k;
    } else if n == Vec3(0.0, 0.0, -1.0) {
      assert rv'.z == (vj.z - vi.z) - k;
    }
  }

  /** The positional corrections: each body is pushed along the normal by its
      inverse-mass share of the penetration. */
  function Corrections(n: Vec3, penetration: real, mi: real, mj: real): (r: (Vec3, Vec3))
    requires mi + mj != 0.0
    ensures Add(r.0, r.1) == Scale(n, penetration)
    ensures mi == 0.0 ==> r.0 == Zero3
    ensures mj == 0.0 ==> r.1 == Zero3
  {
    var massFactor := 1.0 / (mi + mj);
    var r := (Scale(Scale(Scale(n, massFactor), mi), penetration),
              Scale(Scale(Scale(n, massFactor), mj), penetration));
    assert massFactor * mi + massFactor * mj == 1.0;
    CorrectionsAdd(n, massFactor, mi, mj, penetration);
    r
  }

  lemma ShareSum(x0: real, x1: real, a: real, f: real, mi: real, mj: real, p: real)
    requires f * mi + f * mj == 1.0
    requires x0 == ((a * f) * mi) * p && x1 == ((a * f) * mj) * p
    ensures x0 + x1 == a * p
  {
    calc {
      x0 + x1;
      == (a * p) * (f * mi) + (a * p) * (f * mj);
      == (a * p) * (f * mi + f * mj);
    }
  }

  lemma CorrectionsAdd(n: Vec3, f: real, mi: real, mj: real, p: real)
    requires f * mi + f * mj == 1.0
    ensures Add(Scale(Scale(Scale(n, f), mi), p), Scale(Scale(Scale(n, f), mj), p)) == Scale(n, p)
  {
    var c0 := Scale(Scale(Scale(n, f), mi), p);
    var c1 := Scale(Scale(Scale(n, f), mj), p);
    assert c0.x + c1.x == n.x * p by { ShareSum(c0.x, c1.x, n.x, f, mi, mj, p); }
    assert c0.y + c1.y == n.y * p by { ShareSum(c0.y, c1.y, n.y, f, mi, mj, p); }
    assert c0.z + c1.z == n.z * p by { ShareSum(c0.z, c1.z, n.z, f, mi, mj, p); }
  }

  // ---------------------------------------------------------------------
  // The physics world: the bodies' records with the transformation and
  // health stores they act on.

  datatype World = World(
    bodies: seq<Record<RigidBodyData>>,
    ts: T.TransformationSystem,
    hs: H.HealthSystem)

  predicate DistinctOwners(bodies: seq<Record<RigidBodyData>>) {
    forall a, b :: 0 <= a < b < |bodies| ==> bodies[a].owner != bodies[b].owner
  }

  /** What the step relies on: valid stores, every body attached to a
      transformation, non-negative inverse masses, one body per owner. */
  predicate WorldOk(w: World) {
    && Valid(w.ts) && Valid(w.hs)
    && Attached(w.bodies, w.ts) && MassesValid(w.bodies) && DistinctOwners(w.bodies)
  }

  /** The fields the physics step never writes. */
  predicate SameShape(a: RigidBodyData, b: RigidBodyData) {
    && a.offset == b.offset && a.extents == b.extents && a.elasticity == b.elasticity
    && a.invMass == b.invMass && a.gravityImmune == b.gravityImmune
    && a.damage == b.damage && a.dieOnCollision == b.dieOnCollision
  }

  /** What every part of the step keeps: the bodies, their owners and their
      fixed fields, and the two stores' maps. */
  predicate Frame(w: World, w': World) {
    && |w'.bodies| == |w.bodies|
    && (forall k :: 0 <= k < |w.bodies| ==>
          w'.bodies[k].owner == w.bodies[k].owner && SameShape(w.bodies[k].body, w'.bodies[k].body))
    && w'.ts.index == w.ts.index && w'.hs.index == w.hs.index
  }

  function Position(w: World, k: nat): Vec3
    requires WorldOk(w) && k < |w.bodies|
  {
    Get(w.ts, w.bodies[k].owner).position
  }

  /** A transformation moved by `d`. */
  function Moved(t: T.TransformationData, d: Vec3): T.TransformationData {
    t.(position := Add(t.position, d))
  }

  /** A velocity integrated over one fixed step. The step is written as a
      division by 60 so that the arithmetic stays linear. */
  function OverStep(v: Vec3): Vec3 {
    Vec3(v.x / 60.0, v.y / 60.0, v.z / 60.0)
  }

  /** `OverStep` is the scaling by the fixed step. */
  lemma OverStepIsScale(v: Vec3)
    ensures OverStep(v) == Scale(v, FixedStep)
  {
  }

  /** The velocity a body leaves `update_colliders` with: gravity over one
      step is added for a dynamic body that is not gravity immune. */
  function StepVelocity(b: RigidBodyData): Vec3 {
    if b.invMass > 0.0 && !b.gravityImmune then Add(b.velocity, OverStep(Gravity))
    else b.velocity
  }

  /** How far `update_colliders` moves a body's owner. */
  function Displacement(b: RigidBodyData): Vec3 {
    OverStep(Add(StepVelocity(b), b.locomotion))
  }

  /** The position writes of `update_colliders` for bodies `k..`, in order. */
  function MoveFrom(ts: T.TransformationSystem, bodies: seq<Record<RigidBodyData>>, k: nat)
    : (r: T.TransformationSystem)
    requires Valid(ts) && Attached(bodies, ts) && k <= |bodies|
    ensures Valid(r) && r.index == ts.index
    decreases |bodies| - k
  {
    if k == |bodies| then ts
    else MoveFrom(T.Translate(ts, bodies[k].owner, Displacement(bodies[k].body)), bodies, k + 1)
  }

  /** An owner whose body is not among `k..` keeps its transformation. */
  lemma {:induction false} MoveFromKeeps(ts: T.TransformationSystem, bodies: seq<Record<RigidBodyData>>, k: nat, x: Entity)
    requires Valid(ts) && Attached(bodies, ts) && k <= |bodies| && Has(ts, x)
    requires forall m :: k <= m < |bodies| ==> bodies[m].owner != x
    ensures Get(MoveFrom(ts, bodies, k), x) == Get(ts, x)
    decreases |bodies| - k
  {
    if k < |bodies| {
      var ts1 := T.Translate(ts, bodies[k].owner, Displacement(bodies[k].body));
      MoveFromKeeps(ts1, bodies, k + 1, x);
    }
  }

  /** The owner of body `m` (among `k..`) is moved by that body's
      displacement, exactly once. */
  lemma {:induction false} MoveFromMoves(ts: T.TransformationSystem, bodies: seq<Record<RigidBodyData>>, k: nat, m: nat)
    requires Valid(ts) && Attached(bodies, ts) && DistinctOwners(bodies) && k <= m < |bodies|
    ensures Get(MoveFrom(ts, bodies, k), bodies[m].owner)
              == Moved(Get(ts, bodies[m].owner), Displacement(bodies[m].body))
    decreases |bodies| - k
  {
    var o := bodies[k].owner;
    var ts1 := T.Translate(ts, o, Displacement(bodies[k].body));
    if m == k {
      MoveFromKeeps(ts1, bodies, k + 1, o);
    } else {
      MoveFromMoves(ts1, bodies, k + 1, m);
    }
  }

  /** `update_colliders(0, count)`: every body's record and its owner's
      transformation are rewritten; nothing else changes (see
      `UpdateCollidersBody` for what each body gets). */
  function UpdateColliders(w: World): (r: World)
    requires WorldOk(w)
    ensures WorldOk(r) && Frame(w, r) && r.hs == w.hs
  {
    var bodies := seq(|w.bodies|, k requires 0 <= k < |w.bodies| =>
      Record(w.bodies[k].owner,
             w.bodies[k].body.(velocity := StepVelocity(w.bodies[k].body), locomotion := Zero3, foothold := false)));
    World(bodies, MoveFrom(w.ts, w.bodies, 0), w.hs)
  }

  /** What `update_colliders` does to body `k`: the velocity becomes
      `StepVelocity`, locomotion is consumed and the foothold cleared, and the
      owner moves by `Displacement` with its scale, pivot and rotation kept. */
  lemma UpdateCollidersBody(w: World, k: nat)
    requires WorldOk(w) && k < |w.bodies|
    ensures UpdateColliders(w).bodies[k].body
              == w.bodies[k].body.(velocity := StepVelocity(w.bodies[k].body), locomotion := Zero3, foothold := false)
    ensures Get(UpdateColliders(w).ts, w.bodies[k].owner)
              == Moved(Get(w.ts, w.bodies[k].owner), Displacement(w.bodies[k].body))
  {
    MoveFromMoves(w.ts, w.bodies, 0, k);
  }

  /** Gravity over one step is added only to a dynamic body that is not
      gravity immune, and the displacement is the new velocity plus the old
      locomotion over one step. */
  lemma StepVelocityCases(b: RigidBodyData)
    ensures b.invMass > 0.0 && !b.gravityImmune ==> StepVelocity(b) == Add(b.velocity, OverStep(Gravity))
    ensures b.invMass <= 0.0 || b.gravityImmune ==> StepVelocity(b) == b.velocity
    ensures Displacement(b) == Scale(Add(StepVelocity(b), b.locomotion), FixedStep)
  {
    OverStepIsScale(Gravity);
    OverStepIsScale(Add(StepVelocity(b), b.locomotion));
  }

  /** A static body at rest with no locomotion has zero step velocity and
      zero displacement. */
  lemma DisplacementAtRest(b: RigidBodyData)
    requires b.invMass == 0.0 && b.velocity == Zero3 && b.locomotion == Zero3
    ensures StepVelocity(b) == Zero3 && Displacement(b) == Zero3
  {
  }

  /** The integration pass moves only the bodies' owners. */
  lemma UpdateCollidersKeepsOthers(w: World, x: Entity)
    requires WorldOk(w) && Has(w.ts, x)
    requires forall m :: 0 <= m < |w.bodies| ==> w.bodies[m].owner != x
    ensures Get(UpdateColliders(w).ts, x) == Get(w.ts, x)
  {
    MoveFromKeeps(w.ts, w.bodies, 0, x);
  }

  /** A static body at rest with no locomotion is not moved by the
      integration pass, and keeps zero velocity. */
  lemma StaticBodyStaysPut(w: World, k: nat)
    requires WorldOk(w) && k < |w.bodies|
    requires w.bodies[k].body.invMass == 0.0
    requires w.bodies[k].body.velocity == Zero3 && w.bodies[k].body.locomotion == Zero3
    ensures UpdateColliders(w).bodies[k].body.velocity == Zero3
    ensures Position(UpdateColliders(w), k) == Position(w, k)
  {
    var r := UpdateColliders(w);
    var o := w.bodies[k].owner;
    var t := Get(w.ts, o);
    DisplacementAtRest(w.bodies[k].body);
    UpdateCollidersBody(w, k);
    assert r.bodies[k].owner == o;
    assert Get(r.ts, o) == Moved(t, Zero3);
    AddZero(t.position);
    assert Moved(t, Zero3).position == t.position;
    assert Position(r, k) == Get(r.ts, o).position;
  }

  /** The manifold of pair (i, j), with `p1` the position taken for body i
      before its inner loop: None when both bodies are static (the pair is
      skipped) or the boxes do not overlap. */
  function Contact(w: World, i: nat, j: nat, p1: Vec3): Option<CollisionManifold>
    requires WorldOk(w) && i < |w.bodies| && j < |w.bodies|
  {
    var bi := w.bodies[i].body;
    var bj := w.bodies[j].body;
    if bi.invMass == 0.0 && bj.invMass == 0.0 then None
    else Colliding(bi, bj, p1, Add(Position(w, j), bj.offset))
  }

  /** Relative velocity of j with respect to i along `n`. */
  function NormalVelocity(bi: RigidBodyData, bj: RigidBodyData, n: Vec3): real {
    Dot(Sub(bj.velocity, bi.velocity), n)
  }

  /** The damage half of a resolved contact for one body: when its owner has
      health it is harmed by `amount`, then killed if it dies on collision. */
  function DamageTo(hs: H.HealthSystem, o: Entity, amount: real, dies: bool): (r: H.HealthSystem)
    requires Valid(hs)
    ensures Valid(r) && r.index == hs.index
    ensures o == Null() || !Has(hs, o) ==> r == hs
    ensures o != Null() && Has(hs, o) ==>
              && Get(r, o).max == Get(hs, o).max
              && (dies ==> Get(r, o).current <= 0.0)
              && (!dies ==> Get(r, o).current == Get(hs, o).current - amount)
    ensures forall x :: x != o && Has(hs, x) ==> Get(r, x) == Get(hs, x)
  {
    if Has(hs, o) then
      var h := H.Harm(hs, o, amount);
      if dies then H.KillEntity(h, o) else h
    else hs
  }

  /** Foothold marking for a contact with normal `n`: a static i under a +Y
      normal gives j a foothold; otherwise a static j under a -Y normal gives
      i one. */
  function MarkFoothold(bi: RigidBodyData, bj: RigidBodyData, n: Vec3): (RigidBodyData, RigidBodyData) {
    if bi.invMass == 0.0 && n == Up then (bi, bj.(foothold := true))
    else if bj.invMass == 0.0 && n == Down then (bi.(foothold := true), bj)
    else (bi, bj)
  }

  /** Writes new bodies for i and j that keep their owners and fixed
      fields; the stores are untouched. */
  function SetPair(w: World, i: nat, j: nat, bi: RigidBodyData, bj: RigidBodyData): (r: World)
    requires WorldOk(w) && i < j < |w.bodies|
    requires SameShape(w.bodies[i].body, bi) && SameShape(w.bodies[j].body, bj)
    ensures WorldOk(r) && Frame(w, r) && r.ts == w.ts && r.hs == w.hs
    ensures r.bodies[i] == Record(w.bodies[i].owner, bi) && r.bodies[j] == Record(w.bodies[j].owner, bj)
    ensures forall k :: 0 <= k < |w.bodies| && k != i && k != j ==> r.bodies[k] == w.bodies[k]
  {
    w.(bodies := w.bodies[i := Record(w.bodies[i].owner, bi)][j := Record(w.bodies[j].owner, bj)])
  }

  /** The positional correction: i's owner moves by `-ci`, then j's owner by
      `cj`; no other transformation, no body and no health changes. */
  function PushApart(w: World, i: nat, j: nat, ci: Vec3, cj: Vec3): (r: World)
    requires WorldOk(w) && i < j < |w.bodies|
    ensures WorldOk(r) && Frame(w, r) && r.bodies == w.bodies && r.hs == w.hs
    ensures Get(r.ts, w.bodies[i].owner) == Moved(Get(w.ts, w.bodies[i].owner), Scale(ci, -1.0))
    ensures Get(r.ts, w.bodies[j].owner) == Moved(Get(w.ts, w.bodies[j].owner), cj)
    ensures forall x :: x != w.bodies[i].owner && x != w.bodies[j].owner && Has(w.ts, x) ==>
              Get(r.ts, x) == Get(w.ts, x)
  {
    var oi := w.bodies[i].owner;
    var oj := w.bodies[j].owner;
    assert oi != oj;
    var ts1 := T.Translate(w.ts, oi, Scale(ci, -1.0));
    w.(ts := T.Translate(ts1, oj, cj))
  }

  /** The damage exchange: i's owner takes j's damage, then j's owner takes
      i's; no other health record, no body and no transformation changes. */
  function DamagePair(w: World, i: nat, j: nat): (r: World)
    requires WorldOk(w) && i < j < |w.bodies|
    ensures WorldOk(r) && Frame(w, r) && r.bodies == w.bodies && r.ts == w.ts
    ensures forall x :: x != w.bodies[i].owner && x != w.bodies[j].owner && Has(w.hs, x) ==>
              Get(r.hs, x) == Get(w.hs, x)
  {
    var bi := w.bodies[i].body;
    var bj := w.bodies[j].body;
    var hs1 := DamageTo(w.hs, w.bodies[i].owner, bj.damage, bi.dieOnCollision);
    w.(hs := DamageTo(hs1, w.bodies[j].owner, bi.damage, bj.dieOnCollision))
  }

  /** Each owner with health is harmed by the other body's damage, and
      killed when its own body dies on collision. */
  lemma DamagePairEffect(w: World, i: nat, j: nat)
    requires WorldOk(w) && i < j < |w.bodies|
    ensures var r := DamagePair(w, i, j);
            var oi := w.bodies[i].owner;
            var oj := w.bodies[j].owner;
            && (oi != Null() && Has(w.hs, oi) ==>
                  && (w.bodies[i].body.dieOnCollision ==> Get(r.hs, oi).current <= 0.0)
                  && (!w.bodies[i].body.dieOnCollision ==>
                        Get(r.hs, oi).current == Get(w.hs, oi).current - w.bodies[j].body.damage))
            && (oj != Null() && Has(w.hs, oj) ==>
                  && (w.bodies[j].body.dieOnCollision ==> Get(r.hs, oj).current <= 0.0)
                  && (!w.bodies[j].body.dieOnCollision ==>
                        Get(r.hs, oj).current == Get(w.hs, oj).current - w.bodies[i].body.damage))
  {
    assert w.bodies[i].owner != w.bodies[j].owner;
  }

  lemma FrameTrans(a: World, b: World, c: World)
    requires Frame(a, b) && Frame(b, c)
    ensures Frame(a, c)
  {
  }

  /** A contact pair has at least one dynamic body. */
  predicate Dynamic(w: World, i: nat, j: nat)
    requires i < |w.bodies| && j < |w.bodies|
  {
    w.bodies[i].body.invMass != 0.0 || w.bodies[j].body.invMass != 0.0
  }

  /** What `update` does with the manifold `m` of pair (i, j): foothold
      marking, then, unless the bodies separate along the normal, the
      impulse, the positional correction and the damage exchange. */
  function ResolveContact(w: World, i: nat, j: nat, m: CollisionManifold): (r: World)
    requires WorldOk(w) && i < j < |w.bodies| && Dynamic(w, i, j)
    ensures WorldOk(r) && Frame(w, r)
    ensures forall k :: 0 <= k < |w.bodies| && k != i && k != j ==> r.bodies[k] == w.bodies[k]
  {
    var bi := w.bodies[i].body;
    var bj := w.bodies[j].body;
    var marked := MarkFoothold(bi, bj, m.normal);
    if NormalVelocity(bi, bj, m.normal) > 0.0 then
      SetPair(w, i, j, marked.0, marked.1)
    else
      var v := ResolveVelocities(bi.velocity, bj.velocity, m.normal,
                                 Max(bi.elasticity, bj.elasticity), bi.invMass, bj.invMass);
      var c := Corrections(m.normal, m.penetration, bi.invMass, bj.invMass);
      var w1 := SetPair(w, i, j, marked.0.(velocity := v.0), marked.1.(velocity := v.1));
      var w2 := PushApart(w1, i, j, c.0, c.1);
      FrameTrans(w, w1, w2);
      FrameTrans(w, w2, DamagePair(w2, i, j));
      DamagePair(w2, i, j)
  }

  /** One iteration of the inner pair loop of `update`, with `p1` the
      position taken for body i before its inner loop: nothing happens
      unless the pair has a dynamic body and the boxes overlap. */
  function ResolvePair(w: World, i: nat, j: nat, p1: Vec3): (r: World)
    requires WorldOk(w) && i < j < |w.bodies|
    ensures WorldOk(r) && Frame(w, r)
    ensures forall k :: 0 <= k < |w.bodies| && k != i && k != j ==> r.bodies[k] == w.bodies[k]
  {
    match Contact(w, i, j, p1)
    case None => w
    case Some(m) => ResolveContact(w, i, j, m)
  }

  /** A pair without contact is left alone; a contact has a dynamic body
      and an axis normal, and is resolved. */
  lemma ResolvePairCases(w: World, i: nat, j: nat, p1: Vec3)
    requires WorldOk(w) && i < j < |w.bodies|
    ensures Contact(w, i, j, p1).None? ==> ResolvePair(w, i, j, p1) == w
    ensures Contact(w, i, j, p1).Some? ==>
              Dynamic(w, i, j) && IsUnitAxis(Contact(w, i, j, p1).value.normal)
              && ResolvePair(w, i, j, p1) == ResolveContact(w, i, j, Contact(w, i, j, p1).value)
  {
  }

  /** Foothold marking, which happens before the separating test: a static
      i under a +Y normal gives j a foothold; otherwise a static j under a -Y
      normal gives i one. */
  lemma ResolveContactFoothold(w: World, i: nat, j: nat, m: CollisionManifold)
    requires WorldOk(w) && i < j < |w.bodies| && Dynamic(w, i, j)
    ensures var n := m.normal;
            var bi := w.bodies[i].body;
            var bj := w.bodies[j].body;
            var r := ResolveContact(w, i, j, m);
            && r.bodies[j].body.foothold == (bj.foothold || (bi.invMass == 0.0 && n == Up))
            && r.bodies[i].body.foothold ==
                 (bi.foothold || (!(bi.invMass == 0.0 && n == Up) && bj.invMass == 0.0 && n == Down))
  {
  }

  /** A separating contact (`normal_vel > 0`) gets no impulse, no
      correction and no damage. */
  lemma ResolveContactSeparating(w: World, i: nat, j: nat, m: CollisionManifold)
    requires WorldOk(w) && i < j < |w.bodies| && Dynamic(w, i, j)
    requires NormalVelocity(w.bodies[i].body, w.bodies[j].body, m.normal) > 0.0
    ensures var r := ResolveContact(w, i, j, m);
            && r.ts == w.ts && r.hs == w.hs
            && r.bodies[i].body.velocity == w.bodies[i].body.velocity
            && r.bodies[j].body.velocity == w.bodies[j].body.velocity
  {
  }

  /** On a resolved contact along a unit axis the relative velocity along
      the normal becomes `-e` times what it was, with `e` the larger
      elasticity; momentum is conserved and a static body keeps its
      velocity. */
  lemma ResolveContactRestitution(w: World, i: nat, j: nat, m: CollisionManifold)
    requires WorldOk(w) && i < j < |w.bodies| && Dynamic(w, i, j) && IsUnitAxis(m.normal)
    requires NormalVelocity(w.bodies[i].body, w.bodies[j].body, m.normal) <= 0.0
    ensures var bi := w.bodies[i].body;
            var bj := w.bodies[j].body;
            var r := ResolveContact(w, i, j, m);
            var vi := r.bodies[i].body.velocity;
            var vj := r.bodies[j].body.velocity;
            && NormalVelocity(r.bodies[i].body, r.bodies[j].body, m.normal) == Rebound(bi, bj, m.normal)
            && Add(Scale(Sub(vi, bi.velocity), bj.invMass), Scale(Sub(vj, bj.velocity), bi.invMass)) == Zero3
            && (bi.invMass == 0.0 ==> vi == bi.velocity)
            && (bj.invMass == 0.0 ==> vj == bj.velocity)
  {
    ResolveContactVelocities(w, i, j, m);
    ImpulseOnBodies(w.bodies[i].body, w.bodies[j].body,
                    ResolveContact(w, i, j, m).bodies[i].body, ResolveContact(w, i, j, m).bodies[j].body, m.normal);
  }

  /** The relative normal velocity a contact leaves behind: `-e` times the
      approaching one, with `e` the larger elasticity of the two. */
  function Rebound(bi: RigidBodyData, bj: RigidBodyData, n: Vec3): real {
    -Max(bi.elasticity, bj.elasticity) * NormalVelocity(bi, bj, n)
  }

  /** Restitution and momentum for two bodies whose velocities were
      replaced by the impulse step. */
  lemma ImpulseOnBodies(bi: RigidBodyData, bj: RigidBodyData, ri: RigidBodyData, rj: RigidBodyData, n: Vec3)
    requires bi.invMass + bj.invMass != 0.0 && IsUnitAxis(n)
    requires var v := ResolveVelocities(bi.velocity, bj.velocity, n,
                                        Max(bi.elasticity, bj.elasticity), bi.invMass, bj.invMass);
             ri.velocity == v.0 && rj.velocity == v.1
    ensures NormalVelocity(ri, rj, n) == Rebound(bi, bj, n)
    ensures Add(Scale(Sub(ri.velocity, bi.velocity), bj.invMass), Scale(Sub(rj.velocity, bj.velocity), bi.invMass)) == Zero3
    ensures bi.invMass == 0.0 ==> ri.velocity == bi.velocity
    ensures bj.invMass == 0.0 ==> rj.velocity == bj.velocity
  {
  }

  /** The impulse writes the velocities `ResolveVelocities` computes. */
  lemma ResolveContactVelocities(w: World, i: nat, j: nat, m: CollisionManifold)
    requires WorldOk(w) && i < j < |w.bodies| && Dynamic(w, i, j)
    requires NormalVelocity(w.bodies[i].body, w.bodies[j].body, m.normal) <= 0.0
    ensures var bi := w.bodies[i].body;
            var bj := w.bodies[j].body;
            var v := ResolveVelocities(bi.velocity, bj.velocity, m.normal,
                                       Max(bi.elasticity, bj.elasticity), bi.invMass, bj.invMass);
            var r := ResolveContact(w, i, j, m);
            r.bodies[i].body.velocity == v.0 && r.bodies[j].body.velocity == v.1
  {
  }

  /** On a resolved contact the two owners are pushed apart along the normal
      by exactly the penetration, and a static body is not moved. */
  lemma ResolveContactCorrection(w: World, i: nat, j: nat, m: CollisionManifold)
    requires WorldOk(w) && i < j < |w.bodies| && Dynamic(w, i, j)
    requires NormalVelocity(w.bodies[i].body, w.bodies[j].body, m.normal) <= 0.0
    ensures var r := ResolveContact(w, i, j, m);
            && Sub(Position(r, j), Position(r, i))
                 == Add(Sub(Position(w, j), Position(w, i)), Scale(m.normal, m.penetration))
            && (w.bodies[i].body.invMass == 0.0 ==> Position(r, i) == Position(w, i))
            && (w.bodies[j].body.invMass == 0.0 ==> Position(r, j) == Position(w, j))
  {
    var bi := w.bodies[i].body;
    var bj := w.bodies[j].body;
    var c := Corrections(m.normal, m.penetration, bi.invMass, bj.invMass);
    ResolveContactPositions(w, i, j, m);
    CorrectionGap(Position(w, i), Position(w, j), c.0, c.1, Scale(m.normal, m.penetration));
    if bi.invMass == 0.0 {
      AddZero(Position(w, i));
      assert Scale(Zero3, -1.0) == Zero3;
    }
    if bj.invMass == 0.0 {
      AddZero(Position(w, j));
    }
  }

  /** The correction moves i's owner by minus its share and j's owner by
      its share. */
  lemma ResolveContactPositions(w: World, i: nat, j: nat, m: CollisionManifold)
    requires WorldOk(w) && i < j < |w.bodies| && Dynamic(w, i, j)
    requires NormalVelocity(w.bodies[i].body, w.bodies[j].body, m.normal) <= 0.0
    ensures var c := Corrections(m.normal, m.penetration, w.bodies[i].body.invMass, w.bodies[j].body.invMass);
            var r := ResolveContact(w, i, j, m);
            && Position(r, i) == Add(Position(w, i), Scale(c.0, -1.0))
            && Position(r, j) == Add(Position(w, j), c.1)
  {
  }

  /** Moving i back by `ci` and j forward by `cj` widens the gap from i to
      j by `ci + cj`. */
  lemma CorrectionGap(pi: Vec3, pj: Vec3, ci: Vec3, cj: Vec3, n: Vec3)
    requires Add(ci, cj) == n
    ensures Sub(Add(pj, cj), Add(pi, Scale(ci, -1.0))) == Add(Sub(pj, pi), n)
  {
  }

  /** On a resolved contact each owner with health is harmed by the other
      body's damage, and killed when its own body dies on collision; nobody
      else's health changes. */
  lemma ResolveContactDamage(w: World, i: nat, j: nat, m: CollisionManifold)
    requires WorldOk(w) && i < j < |w.bodies| && Dynamic(w, i, j)
    requires NormalVelocity(w.bodies[i].body, w.bodies[j].body, m.normal) <= 0.0
    ensures var r := ResolveContact(w, i, j, m);
            var oi := w.bodies[i].owner;
            var oj := w.bodies[j].owner;
            && r.hs.index == w.hs.index
            && (oi != Null() && Has(w.hs, oi) ==>
                  && (w.bodies[i].body.dieOnCollision ==> Get(r.hs, oi).current <= 0.0)
                  && (!w.bodies[i].body.dieOnCollision ==>
                        Get(r.hs, oi).current == Get(w.hs, oi).current - w.bodies[j].body.damage))
            && (oj != Null() && Has(w.hs, oj) ==>
                  && (w.bodies[j].body.dieOnCollision ==> Get(r.hs, oj).current <= 0.0)
                  && (!w.bodies[j].body.dieOnCollision ==>
                        Get(r.hs, oj).current == Get(w.hs, oj).current - w.bodies[i].body.damage))
  {
    var bi := w.bodies[i].body;
    var bj := w.bodies[j].body;
    var v := ResolveVelocities(bi.velocity, bj.velocity, m.normal,
                               Max(bi.elasticity, bj.elasticity), bi.invMass, bj.invMass);
    var c := Corrections(m.normal, m.penetration, bi.invMass, bj.invMass);
    var marked := MarkFoothold(bi, bj, m.normal);
    var w1 := SetPair(w, i, j, marked.0.(velocity := v.0), marked.1.(velocity := v.1));
    var w2 := PushApart(w1, i, j, c.0, c.1);
    DamagePairEffect(w2, i, j);
  }

  /** Transformations of entities other than the pair's owners are
      untouched. */
  lemma ResolvePairKeepsOtherTransformations(w: World, i: nat, j: nat, p1: Vec3, x: Entity)
    requires WorldOk(w) && i < j < |w.bodies|
    requires x != w.bodies[i].owner && x != w.bodies[j].owner
    ensures Has(w.ts, x) ==> Get(ResolvePair(w, i, j, p1).ts, x) == Get(w.ts, x)
  {
    ResolvePairCases(w, i, j, p1);
  }

  /** Health of entities other than the pair's owners is untouched. */
  lemma ResolvePairKeepsOtherHealth(w: World, i: nat, j: nat, p1: Vec3, x: Entity)
    requires WorldOk(w) && i < j < |w.bodies|
    requires x != w.bodies[i].owner && x != w.bodies[j].owner
    ensures Has(w.hs, x) ==> Get(ResolvePair(w, i, j, p1).hs, x) == Get(w.hs, x)
  {
    ResolvePairCases(w, i, j, p1);
  }

  // ---------------------------------------------------------------------
  // The pair loops and the fixed-step driver

  /** The inner loop of `update` for body i, from partner j on, with the
      position `p1` taken once before the loop. */
  function PairsWith(w: World, i: nat, j: nat, p1: Vec3): (r: World)
    requires WorldOk(w) && i < j <= |w.bodies|
    ensures WorldOk(r) && Frame(w, r)
    decreases |w.bodies| - j
  {
    if j == |w.bodies| then w
    else
      var w1 := ResolvePair(w, i, j, p1);
      var r := PairsWith(w1, i, j + 1, p1);
      FrameTrans(w, w1, r);
      r
  }

  /** The outer loop of `update` from body i on: body i is paired with
      every later body, for every i below the last. */
  function PairsFrom(w: World, i: nat): (r: World)
    requires WorldOk(w) && i <= |w.bodies|
    ensures WorldOk(r) && Frame(w, r)
    decreases |w.bodies| - i
  {
    if i + 1 >= |w.bodies| then w
    else
      var w1 := PairsWith(w, i, i + 1, Add(Position(w, i), w.bodies[i].body.offset));
      var r := PairsFrom(w1, i + 1);
      FrameTrans(w, w1, r);
      r
  }

  /** One fixed step: integration, then collision response for every pair. */
  function Step(w: World): (r: World)
    requires WorldOk(w)
    ensures WorldOk(r) && Frame(w, r)
  {
    var w1 := UpdateColliders(w);
    var r := PairsFrom(w1, 0);
    FrameTrans(w, w1, r);
    r
  }

  predicate AllStatic(w: World) {
    forall k :: 0 <= k < |w.bodies| ==> w.bodies[k].body.invMass == 0.0
  }

  lemma StaticPairUntouched(w: World, i: nat, j: nat, p1: Vec3)
    requires WorldOk(w) && i < j < |w.bodies| && AllStatic(w)
    ensures PairsWith(w, i, j, p1) == PairsWith(w, i, j + 1, p1)
  {
    assert w.bodies[i].body.invMass == 0.0 && w.bodies[j].body.invMass == 0.0;
    assert ResolvePair(w, i, j, p1) == w;
  }

  lemma {:induction false} PairsWithAllStatic(w: World, i: nat, j: nat, p1: Vec3)
    requires WorldOk(w) && i < j <= |w.bodies| && AllStatic(w)
    ensures PairsWith(w, i, j, p1) == w
    decreases |w.bodies| - j
  {
    if j < |w.bodies| {
      PairsWithAllStatic(w, i, j + 1, p1);
      StaticPairUntouched(w, i, j, p1);
    }
  }

  /** Static bodies never interact: the collision pass leaves a world of
      static bodies exactly as it found it. */
  lemma {:induction false} PairsFromAllStatic(w: World, i: nat)
    requires WorldOk(w) && i <= |w.bodies| && AllStatic(w)
    ensures PairsFrom(w, i) == w
    decreases |w.bodies| - i
  {
    if i + 1 < |w.bodies| {
      var p1 := Add(Position(w, i), w.bodies[i].body.offset);
      PairsWithAllStatic(w, i, i + 1, p1);
      PairsFromAllStatic(w, i + 1);
      assert PairsFrom(w, i) == PairsFrom(PairsWith(w, i, i + 1, p1), i + 1);
    }
  }

  /** The `while timer.0 >= timer.1 && count > 0` loop: one step per whole
      step in the accumulator. Returns the world, the remainder and the
      number of steps taken. */
  function SubSteps(w: World, acc: real): (r: (World, real, nat))
    requires WorldOk(w)
    ensures WorldOk(r.0) && Frame(w, r.0)
    ensures |w.bodies| == 0 || acc < FixedStep ==> r == (w, acc, 0)
    ensures |w.bodies| > 0 ==> r.1 < FixedStep
    ensures acc == r.1 + (r.2 as real) / 60.0
    ensures acc >= 0.0 ==> r.1 >= 0.0
    decreases if acc < FixedStep then 0 else (acc * 60.0).Floor
  {
    if |w.bodies| == 0 || acc < FixedStep then (w, acc, 0)
    else
      var w1 := Step(w);
      var s := SubSteps(w1, acc - FixedStep);
      FrameTrans(w, w1, s.0);
      (s.0, s.1, s.2 + 1)
  }

  /** The number of steps taken is the number of whole fixed steps in a
      non-negative accumulator. */
  lemma SubStepsCount(w: World, acc: real)
    requires WorldOk(w) && |w.bodies| > 0 && acc >= 0.0
    ensures SubSteps(w, acc).2 == (acc * 60.0).Floor
  {
    var s := SubSteps(w, acc);
    assert acc * 60.0 == s.1 * 60.0 + s.2 as real;
  }

  /** A valid store never holds two bodies for one owner. */
  lemma StoreOwnersDistinct(rs: RigidBodyStore)
    requires Valid(rs)
    ensures DistinctOwners(rs.data)
  {
    forall a, b | 0 <= a < b < |rs.data|
      ensures rs.data[a].owner != rs.data[b].owner
    {
      OwnersDistinct(rs, a, b);
    }
  }

  /** `update`: the step time is added to the accumulator and then as many
      fixed steps are taken as it holds whole steps, as long as there is a
      body. The first step unwraps every body owner's position, so it
      panics when some body's owner has lost its transformation; without a
      step nothing is looked up. */
  function UpdateSystem(sys: RigidBodySystem, dt: real, ts: T.TransformationSystem, hs: H.HealthSystem)
    : (r: Result<(RigidBodySystem, T.TransformationSystem, H.HealthSystem)>)
    requires Valid(sys.bodies) && Valid(ts) && Valid(hs) && MassesValid(sys.bodies.data)
    ensures r.Failure? <==>
              |sys.bodies.data| > 0 && sys.accumulator + dt >= FixedStep && !Attached(sys.bodies.data, ts)
    ensures |sys.bodies.data| == 0 || sys.accumulator + dt < FixedStep ==>
              r == Success((sys.(accumulator := sys.accumulator + dt), ts, hs))
    ensures r.Success? ==>
              && Valid(r.value.0.bodies) && r.value.0.bodies.index == sys.bodies.index
              && MassesValid(r.value.0.bodies.data)
              && Valid(r.value.1) && r.value.1.index == ts.index
              && Valid(r.value.2) && r.value.2.index == hs.index
              && (Attached(sys.bodies.data, ts) ==> Attached(r.value.0.bodies.data, r.value.1))
              && (|sys.bodies.data| > 0 ==> r.value.0.accumulator < FixedStep)
              && (sys.accumulator + dt >= 0.0 ==> r.value.0.accumulator >= 0.0)
  {
    var acc := sys.accumulator + dt;
    if |sys.bodies.data| == 0 || acc < FixedStep then Success((sys.(accumulator := acc), ts, hs))
    else if !Attached(sys.bodies.data, ts) then Failure("called `Option::unwrap()` on a `None` value")
    else
      StoreOwnersDistinct(sys.bodies);
      var s := SubSteps(World(sys.bodies.data, ts, hs), acc);
      SameOwnersKeepValid(sys.bodies, s.0.bodies);
      Success((RigidBodySystem(s.1, Store(sys.bodies.index, s.0.bodies)), s.0.ts, s.0.hs))
  }

  // ---------------------------------------------------------------------
  // Ray cast

  /** `ray_vs_aabb_intersecting` as written: the slab interval is computed
      for the x axis only (the loop over y and z assigns to unused locals),
      and the box is hit when that interval ends ahead of the origin. `invX`
      is the reciprocal of the ray direction's x component. */
  function RayVsAabb(position: Vec3, extents: Vec3, origin: Vec3, invX: real): bool {
    var t1 := ((position.x - extents.x) - origin.x) * invX;
    var t2 := ((position.x + extents.x) - origin.x) * invX;
    Max(t1, t2) > Max(Min(t1, t2), 0.0)
  }

  lemma ProductPositive(a: real, k: real)
    requires k > 0.0
    ensures a * k > 0.0 <==> a > 0.0
  {
    if a > 0.0 {
    } else if a == 0.0 {
    } else {
      assert (-a) * k > 0.0;
    }
  }

  lemma ProductOrder(a: real, b: real, k: real)
    requires a < b && k != 0.0
    ensures k > 0.0 ==> a * k < b * k
    ensures k < 0.0 ==> b * k < a * k
  {
    ProductPositive(b - a, if k > 0.0 then k else -k);
  }

  /** For a box with positive extent and a ray not parallel to the x slabs,
      the test holds exactly when the far x face of the box lies ahead of
      the origin along the ray; y and z play no part. */
  lemma RayVsAabbMeaning(position: Vec3, extents: Vec3, origin: Vec3, invX: real)
    requires extents.x > 0.0 && invX != 0.0
    ensures invX > 0.0 ==> (RayVsAabb(position, extents, origin, invX) <==> origin.x < position.x + extents.x)
    ensures invX < 0.0 ==> (RayVsAabb(position, extents, origin, invX) <==> position.x - extents.x < origin.x)
  {
    var lo := (position.x - extents.x) - origin.x;
    var hi := (position.x + extents.x) - origin.x;
    var t1 := lo * invX;
    var t2 := hi * invX;
    assert RayVsAabb(position, extents, origin, invX) == (Max(t1, t2) > Max(Min(t1, t2), 0.0));
    ProductOrder(lo, hi, invX);
    if invX > 0.0 {
      ProductPositive(hi, invX);
      SlabTest(t1, t2);
    } else {
      ProductPositive(-lo, -invX);
      assert t1 == (-lo) * (-invX);
      SlabTest(t2, t1);
    }
  }

  /** With the slab entries ordered, the test holds exactly when the far
      one lies ahead. */
  lemma SlabTest(near: real, far: real)
    requires near < far
    ensures Max(near, far) > Max(Min(near, far), 0.0) <==> far > 0.0
    ensures Max(far, near) > Max(Min(far, near), 0.0) <==> far > 0.0
  {
  }

  /** A box far off the ray's line is still reported as hit. */
  lemma RayHitsBoxOffTheLine()
    ensures RayVsAabb(Vec3(5.0, 100.0, 0.0), Vec3(1.0, 1.0, 1.0), Zero3, 1.0)
  {
  }

  /** Whether body k is a candidate of a ray cast: not the user's own body,
      and its box (at the owner's position, without the offset) is hit. */
  predicate RayHits(rs: RigidBodyStore, ts: T.TransformationSystem, k: nat, origin: Vec3, direction: Vec3, user: Entity)
    requires Valid(ts) && k < |rs.data| && Has(ts, rs.data[k].owner) && direction.x != 0.0
  {
    rs.data[k].owner != user
    && RayVsAabb(Get(ts, rs.data[k].owner).position, rs.data[k].body.extents, origin, 1.0 / direction.x)
  }

  /** Squared distance from the ray origin to body k's owner. */
  function RayDistance(rs: RigidBodyStore, ts: T.TransformationSystem, k: nat, origin: Vec3): real
    requires Valid(ts) && k < |rs.data| && Has(ts, rs.data[k].owner)
  {
    LengthSquared(Sub(Get(ts, rs.data[k].owner).position, origin))
  }

  /** `ray_cast`: the nearest candidate by squared distance, the first in
      dense order among equally near ones, or None when there is none. Every
      body's owner position is unwrapped on the way, the user's own
      included, so the cast panics when some body's owner has no
      transformation. */
  method RayCast(rs: RigidBodyStore, ts: T.TransformationSystem, origin: Vec3, direction: Vec3, user: Entity)
    returns (r: Result<Option<(real, Entity)>>)
    requires Valid(ts) && direction.x != 0.0
    ensures r.Success? <==> Attached(rs.data, ts)
    ensures r.Success? ==>
              (r.value.None? <==> forall k :: 0 <= k < |rs.data| ==> !RayHits(rs, ts, k, origin, direction, user))
    ensures r.Success? && r.value.Some? ==>
              exists k :: && 0 <= k < |rs.data| && RayHits(rs, ts, k, origin, direction, user)
                          && rs.data[k].owner == r.value.value.1 && RayDistance(rs, ts, k, origin) == r.value.value.0
                          && (forall m :: 0 <= m < k && RayHits(rs, ts, m, origin, direction, user) ==>
                                RayDistance(rs, ts, m, origin) > r.value.value.0)
    ensures r.Success? && r.value.Some? ==>
              forall k :: 0 <= k < |rs.data| && RayHits(rs, ts, k, origin, direction, user) ==>
                r.value.value.0 <= RayDistance(rs, ts, k, origin)
  {
    var invX := 1.0 / direction.x;
    var hit: Option<(real, Entity)> := None;
    ghost var best := 0;
    var n := 0;
    while n < |rs.data|
      invariant 0 <= n <= |rs.data|
      invariant forall k :: 0 <= k < n ==> Has(ts, rs.data[k].owner)
      invariant hit.None? <==> forall k :: 0 <= k < n ==> !RayHits(rs, ts, k, origin, direction, user)
      invariant hit.Some? ==>
                  && best < n && RayHits(rs, ts, best, origin, direction, user)
                  && rs.data[best].owner == hit.value.1 && RayDistance(rs, ts, best, origin) == hit.value.0
                  && (forall m :: 0 <= m < best && RayHits(rs, ts, m, origin, direction, user) ==>
                        RayDistance(rs, ts, m, origin) > hit.value.0)
      invariant hit.Some? ==> forall k :: 0 <= k < n && RayHits(rs, ts, k, origin, direction, user) ==>
                  hit.value.0 <= RayDistance(rs, ts, k, origin)
    {
      var owner := rs.data[n].owner;
      if !Has(ts, owner) {
        return Failure("called `Option::unwrap()` on a `None` value");
      }
      var position := Get(ts, owner).position;
      assert RayHits(rs, ts, n, origin, direction, user) <==>
               (owner != user && RayVsAabb(position, rs.data[n].body.extents, origin, invX));
      if owner != user && RayVsAabb(position, rs.data[n].body.extents, origin, invX) {
        var distance := LengthSquared(Sub(position, origin));
        match hit {
          case None =>
            hit := Some((distance, owner));
            best := n;
          case Some(h) =>
            if distance < h.0 {
              hit := Some((distance, owner));
              best := n;
            }
        }
      }
      n := n + 1;
    }
    return Success(hit);
  }
}
