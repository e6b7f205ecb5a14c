/** `src/ecs/components/transformation.rs`: position, scale, pivot and
    rotation per entity, in the shared component store. The quaternion
    helpers (forward/right vectors, `rotate`) belong to the math library and
    are not modelled. */
module Transformation {
  import opened VecMath
  import opened Entities
  import opened Wrappers
  import opened ComponentStore

  datatype TransformationData = TransformationData(
    position: Vec3,
    scale: Vec3,
    pivot: Vec3,
    rotation: Quat)

  /** Every field optional; `Build` resolves the missing ones to defaults. */
  datatype TransformationBuilder = TransformationBuilder(
    position: Option<Vec3>,
    scale: Option<Vec3>,
    pivot: Option<Vec3>,
    rotation: Option<Quat>)

  type TransformationSystem = Store<TransformationData>

  function NewBuilder(): TransformationBuilder {
    TransformationBuilder(None, None, None, None)
  }

  function AtPosition(b: TransformationBuilder, p: Vec3): TransformationBuilder {
    b.(position := Some(p))
  }

  function WithScale(b: TransformationBuilder, s: Vec3): TransformationBuilder {
    b.(scale := Some(s))
  }

  function WithPivot(b: TransformationBuilder, p: Vec3): TransformationBuilder {
    b.(pivot := Some(p))
  }

  function WithRotation(b: TransformationBuilder, r: Quat): TransformationBuilder {
    b.(rotation := Some(r))
  }

  function Build(b: TransformationBuilder): TransformationData {
    TransformationData(
      b.position.GetOr(Zero3),
      b.scale.GetOr(One3),
      b.pivot.GetOr(Zero3),
      b.rotation.GetOr(IdentityQuat))
  }

  /** An untouched builder gives position 0, unit scale, pivot 0 and the
      identity rotation. */
  lemma BuilderDefaults()
    ensures Build(NewBuilder()) == TransformationData(Zero3, One3, Zero3, IdentityQuat)
  {
  }

  /** A supplied field overrides its default and leaves the others alone. */
  lemma BuilderOverrides(b: TransformationBuilder, p: Vec3, s: Vec3, v: Vec3, q: Quat)
    ensures Build(AtPosition(b, p)) == Build(b).(position := p)
    ensures Build(WithScale(b, s)) == Build(b).(scale := s)
    ensures Build(WithPivot(b, v)) == Build(b).(pivot := v)
    ensures Build(WithRotation(b, q)) == Build(b).(rotation := q)
  {
  }

  /** `add_transformation_to_entity`: a no-op when the entity already has a
      transformation, otherwise the built record is appended. The null entity
      is not rejected here. */
  function AddTransformation(ts: TransformationSystem, e: Entity, b: TransformationBuilder)
    : (r: TransformationSystem)
    requires Valid(ts)
    ensures Valid(r)
    ensures Has(ts, e) ==> r == ts
    ensures !Has(ts, e) ==>
              && Has(r, e) && Get(r, e) == Build(b)
              && r.index[e] == |ts.data| && |r.data| == |ts.data| + 1
    ensures forall x :: x != e ==> (Has(r, x) <==> Has(ts, x))
    ensures forall x :: x != e && Has(ts, x) ==> Get(r, x) == Get(ts, x)
  {
    if Has(ts, e) then ts else Append(ts, e, Build(b))
  }

  /** `remove_transformation_from_entity`: the shared swap-remove. */
  function RemoveTransformation(ts: TransformationSystem, e: Entity): (r: TransformationSystem)
    requires Valid(ts)
    ensures Valid(r)
    ensures e == Null() || !Has(ts, e) ==> r == ts
    ensures e != Null() && Has(ts, e) ==> !Has(r, e) && |r.data| == |ts.data| - 1
    ensures forall x :: x != e ==> (Has(r, x) <==> Has(ts, x))
    ensures forall x :: x != e && Has(ts, x) ==> Get(r, x) == Get(ts, x)
  {
    RemoveSpec(ts, e);
    Remove(ts, e)
  }

  /** `get_position`: present exactly when the entity has a transformation,
      and then the stored position. */
  function GetPosition(ts: TransformationSystem, e: Entity): (r: Option<Vec3>)
    requires Valid(ts)
    ensures r.Some? <==> Has(ts, e)
    ensures r.Some? ==> r.value == Get(ts, e).position
  {
    match Lookup(ts, e)
    case Some(t) => Some(t.position)
    case None => None
  }

  /** `set_position`: a no-op for the null or an absent entity; otherwise
      only this record's position changes. */
  function SetPosition(ts: TransformationSystem, e: Entity, p: Vec3): (r: TransformationSystem)
    requires Valid(ts)
    ensures Valid(r) && r.index == ts.index
    ensures e == Null() || !Has(ts, e) ==> r == ts
    ensures e != Null() && Has(ts, e) ==> Get(r, e) == Get(ts, e).(position := p)
    ensures forall x :: x != e && Has(ts, x) ==> Get(r, x) == Get(ts, x)
  {
    GuardedUpdate(ts, e, (t: TransformationData) => t.(position := p))
  }

  /** `set_scale`: as `set_position`, for the scale. */
  function SetScale(ts: TransformationSystem, e: Entity, s: Vec3): (r: TransformationSystem)
    requires Valid(ts)
    ensures Valid(r) && r.index == ts.index
    ensures e == Null() || !Has(ts, e) ==> r == ts
    ensures e != Null() && Has(ts, e) ==> Get(r, e) == Get(ts, e).(scale := s)
    ensures forall x :: x != e && Has(ts, x) ==> Get(r, x) == Get(ts, x)
  {
    GuardedUpdate(ts, e, (t: TransformationData) => t.(scale := s))
  }

  /** `set_rotation`: as `set_position`, for the rotation. */
  function SetRotation(ts: TransformationSystem, e: Entity, q: Quat): (r: TransformationSystem)
    requires Valid(ts)
    ensures Valid(r) && r.index == ts.index
    ensures e == Null() || !Has(ts, e) ==> r == ts
    ensures e != Null() && Has(ts, e) ==> Get(r, e) == Get(ts, e).(rotation := q)
    ensures forall x :: x != e && Has(ts, x) ==> Get(r, x) == Get(ts, x)
  {
    GuardedUpdate(ts, e, (t: TransformationData) => t.(rotation := q))
  }

  /** `apply_movement`: adds the movement to the position of a non-null
      entity that has a transformation. */
  function ApplyMovement(ts: TransformationSystem, e: Entity, m: Vec3): (r: TransformationSystem)
    requires Valid(ts)
    ensures Valid(r) && r.index == ts.index
    ensures e == Null() || !Has(ts, e) ==> r == ts
    ensures e != Null() && Has(ts, e) ==>
              Get(r, e) == Get(ts, e).(position := Add(Get(ts, e).position, m))
    ensures forall x :: x != e && Has(ts, x) ==> Get(r, x) == Get(ts, x)
  {
    GuardedUpdate(ts, e, (t: TransformationData) => t.(position := Add(t.position, m)))
  }

  /** Moving by `m` and then by `-m` restores every record. */
  lemma {:induction false} ApplyMovementUndo(ts: TransformationSystem, e: Entity, m: Vec3)
    requires Valid(ts)
    ensures ApplyMovement(ApplyMovement(ts, e, m), e, Scale(m, -1.0)) == ts
  {
    var r := ApplyMovement(ApplyMovement(ts, e, m), e, Scale(m, -1.0));
    if e != Null() && Has(ts, e) {
      var i := ts.index[e];
      assert r.data[i] == ts.data[i];
      assert r.data == ts.data;
    }
  }

  /** `*get_position_mut(e).unwrap() += delta`, as the physics step uses it:
      no null test, and the entity must have a transformation. */
  function Translate(ts: TransformationSystem, e: Entity, delta: Vec3): (r: TransformationSystem)
    requires Valid(ts) && Has(ts, e)
    ensures Valid(r) && r.index == ts.index
    ensures Get(r, e).position == Add(Get(ts, e).position, delta)
    ensures Get(r, e).scale == Get(ts, e).scale && Get(r, e).pivot == Get(ts, e).pivot
    ensures Get(r, e).rotation == Get(ts, e).rotation
    ensures forall x :: x != e && Has(ts, x) ==> Get(r, x) == Get(ts, x)
  {
    Update(ts, e, (t: TransformationData) => t.(position := Add(t.position, delta)))
  }
}
