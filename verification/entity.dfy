/** Entity handles and the entity allocator of `src/ecs/mod.rs`.

    A handle is a 32-bit value: the low 24 bits are a slot index and the high
    8 bits a generation. The allocator keeps, per slot, the current generation
    and an "active" flag, and a FIFO queue of freed slots that it only draws
    from once more than MinimumFreeIndices slots are waiting. */
module Entities {

  const IndexBits: nat := 24
  /** 1 << 24: one more than the largest index a handle can carry. */
  const IndexLimit: nat := 0x100_0000
  /** 1 << 8: the generation field wraps at this value. */
  const GenerationLimit: nat := 0x100
  const MinimumFreeIndices: nat := 1024

  type U32 = x: nat | x < 0x1_0000_0000
  type U8 = x: nat | x < 0x100

  /** A packed handle. Equality of handles is equality of the 32-bit value. */
  datatype Entity = Entity(raw: U32)

  /** `ENTITY_INDEX_MASK` applied: the low 24 bits. */
  function Index(e: Entity): nat {
    e.raw % IndexLimit
  }

  /** Shift right by 24 and apply `ENTITY_GENERATION_MASK`. */
  function Generation(e: Entity): U8 {
    (e.raw / IndexLimit) % GenerationLimit
  }

  /** `Entity::null()`: the all-zero handle. */
  function Null(): (e: Entity)
    ensures Index(e) == 0 && Generation(e) == 0
  {
    Entity(0)
  }

  lemma SplitFields(lo: nat, hi: nat)
    requires lo < IndexLimit
    ensures (lo + hi * IndexLimit) % IndexLimit == lo
    ensures (lo + hi * IndexLimit) / IndexLimit == hi
  {
  }

  /** `Entity::new`: the index is masked to 24 bits, the generation fills
      the top 8 bits. The two fields occupy disjoint bits, so OR is addition. */
  function New(index: U32, generation: U8): (e: Entity)
    ensures Index(e) == index % IndexLimit
    ensures Generation(e) == generation
  {
    var lo := index % IndexLimit;
    SplitFields(lo, generation);
    Entity(lo + generation * IndexLimit)
  }

  /** Two handles built from in-range indices are equal exactly when both
      fields are equal. */
  lemma NewInjective(i1: U32, g1: U8, i2: U32, g2: U8)
    requires i1 < IndexLimit && i2 < IndexLimit
    ensures New(i1, g1) == New(i2, g2) <==> i1 == i2 && g1 == g2
  {
    if New(i1, g1) == New(i2, g2) {
      assert Index(New(i1, g1)) == Index(New(i2, g2));
      assert Generation(New(i1, g1)) == Generation(New(i2, g2));
    }
  }

  /** The null handle is the handle for slot 0 at generation 0. */
  lemma NullIsNewZero()
    ensures Null() == New(0, 0)
  {
    assert New(0, 0).raw == 0;
  }

  datatype EntityManager = EntityManager(
    generation: seq<U8>,
    active: seq<bool>,
    freeIndices: seq<U32>)

  /** The two tables are parallel and every queued index names a slot. */
  predicate ValidManager(em: EntityManager) {
    && |em.generation| == |em.active|
    && forall k :: 0 <= k < |em.freeIndices| ==>
         em.freeIndices[k] < |em.generation| && em.freeIndices[k] < IndexLimit
  }

  /** True when the handle's index names an existing slot (the tables are
      indexed without a bounds check in the source). */
  predicate InRange(em: EntityManager, e: Entity) {
    Index(e) < |em.generation| && Index(e) < |em.active|
  }

  function EntityIsActive(em: EntityManager, e: Entity): bool
    requires InRange(em, e)
  {
    em.active[Index(e)]
  }

  function EntityIsAlive(em: EntityManager, e: Entity): bool
    requires InRange(em, e)
  {
    em.generation[Index(e)] == Generation(e)
  }

  /** `create_new_entity`: reuse the oldest freed slot when strictly more than
      MinimumFreeIndices are queued, otherwise append a fresh slot with
      generation 0. The handle returned is alive and active. */
  function CreateNewEntity(em: EntityManager): (r: (EntityManager, Entity))
    requires ValidManager(em)
    requires |em.generation| < 0xFFFF_FFFF
    ensures ValidManager(r.0)
    ensures |em.freeIndices| > MinimumFreeIndices ==>
              && Index(r.1) == em.freeIndices[0]
              && r.0.freeIndices == em.freeIndices[1..]
              && |r.0.generation| == |em.generation|
              && r.0.generation == em.generation
              && Generation(r.1) == em.generation[em.freeIndices[0]]
    ensures |em.freeIndices| <= MinimumFreeIndices ==>
              && Index(r.1) == |em.generation| % IndexLimit
              && Generation(r.1) == 0
              && r.0.freeIndices == em.freeIndices
              && |r.0.generation| == |em.generation| + 1
    ensures |em.generation| < IndexLimit ==>
              InRange(r.0, r.1) && EntityIsAlive(r.0, r.1) && EntityIsActive(r.0, r.1)
    ensures forall k :: 0 <= k < |em.generation| && k != Index(r.1) ==>
              r.0.generation[k] == em.generation[k] && r.0.active[k] == em.active[k]
  {
    if |em.freeIndices| > MinimumFreeIndices then
      var idx := em.freeIndices[0];
      var em' := em.(active := em.active[idx := true], freeIndices := em.freeIndices[1..]);
      (em', New(idx, em.generation[idx]))
    else
      var em' := em.(generation := em.generation + [0], active := em.active + [true]);
      (em', New(|em'.generation| - 1, 0))
  }

  /** `EntityManager::new`: empty tables, then one creation that reserves
      slot 0 for the null handle. */
  function NewEntityManager(): (em: EntityManager)
    ensures ValidManager(em)
    ensures |em.generation| == 1 && em.freeIndices == []
    ensures InRange(em, Null()) && EntityIsAlive(em, Null()) && EntityIsActive(em, Null())
  {
    var r := CreateNewEntity(EntityManager([], [], []));
    assert r.1 == Null() by { NullIsNewZero(); }
    r.0
  }

  /** The first entity a caller creates gets index 1, generation 0. */
  lemma FirstCreatedEntityIsIndexOne()
    ensures CreateNewEntity(NewEntityManager()).1 == New(1, 0)
  {
  }

  /** `destroy_entity`: bump the slot's generation (u8, wrapping) and queue the
      slot. Liveness is not checked and the active flag is left alone. */
  function DestroyEntity(em: EntityManager, e: Entity): (em': EntityManager)
    requires ValidManager(em) && InRange(em, e)
    ensures ValidManager(em')
    ensures em'.active == em.active
    ensures |em'.generation| == |em.generation|
    ensures em'.generation[Index(e)] == (em.generation[Index(e)] + 1) % GenerationLimit
    ensures forall k :: 0 <= k < |em.generation| && k != Index(e) ==>
              em'.generation[k] == em.generation[k]
    ensures em'.freeIndices == em.freeIndices + [Index(e)]
  {
    var idx := Index(e);
    em.(generation := em.generation[idx := (em.generation[idx] + 1) % GenerationLimit],
        freeIndices := em.freeIndices + [idx])
  }

  /** A handle that was alive is dead after it is destroyed. */
  lemma {:induction false} DestroyKills(em: EntityManager, e: Entity)
    requires ValidManager(em) && InRange(em, e) && EntityIsAlive(em, e)
    ensures InRange(DestroyEntity(em, e), e) && !EntityIsAlive(DestroyEntity(em, e), e)
  {
    var em' := DestroyEntity(em, e);
    assert em'.generation[Index(e)] == (Generation(e) + 1) % GenerationLimit;
  }

  /** Destroying the same handle twice bumps the generation twice and queues
      the index twice. */
  lemma DestroyTwice(em: EntityManager, e: Entity)
    requires ValidManager(em) && InRange(em, e)
    ensures var em2 := DestroyEntity(DestroyEntity(em, e), e);
            && em2.generation[Index(e)] == (em.generation[Index(e)] + 2) % GenerationLimit
            && em2.freeIndices == em.freeIndices + [Index(e), Index(e)]
  {
    var em1 := DestroyEntity(em, e);
    var em2 := DestroyEntity(em1, e);
    assert em2.freeIndices == em1.freeIndices + [Index(e)];
  }

  /** After an alive handle is destroyed, the next handle the allocator hands
      out is a different handle, even when it reuses the same slot. */
  lemma {:induction false} NextHandleDiffersFromDestroyed(em: EntityManager, e: Entity)
    requires ValidManager(em) && InRange(em, e) && EntityIsAlive(em, e)
    requires |em.generation| < IndexLimit
    ensures CreateNewEntity(DestroyEntity(em, e)).1 != e
  {
    var em1 := DestroyEntity(em, e);
    var r := CreateNewEntity(em1);
    if Index(r.1) == Index(e) {
      assert r.0.generation[Index(e)] == em1.generation[Index(e)];
      assert em1.generation[Index(e)] != Generation(e);
    }
  }

  /** `set_entity_is_active`: changes the addressed slot only, and only when
      the handle is alive; stale handles are ignored. */
  function SetEntityIsActive(em: EntityManager, e: Entity, active: bool): (em': EntityManager)
    requires ValidManager(em) && InRange(em, e)
    ensures ValidManager(em')
    ensures em'.generation == em.generation && em'.freeIndices == em.freeIndices
    ensures |em'.active| == |em.active|
    ensures em'.active[Index(e)] == if EntityIsAlive(em, e) then active else em.active[Index(e)]
    ensures forall k :: 0 <= k < |em.active| && k != Index(e) ==> em'.active[k] == em.active[k]
  {
    if EntityIsAlive(em, e) then em.(active := em.active[Index(e) := active]) else em
  }

  /** `toggle_entity_is_active`: flips the addressed slot when alive. */
  function ToggleEntityIsActive(em: EntityManager, e: Entity): (em': EntityManager)
    requires ValidManager(em) && InRange(em, e)
    ensures ValidManager(em')
    ensures em'.generation == em.generation && em'.freeIndices == em.freeIndices
    ensures |em'.active| == |em.active|
    ensures em'.active[Index(e)] == (em.active[Index(e)] != EntityIsAlive(em, e))
    ensures forall k :: 0 <= k < |em.active| && k != Index(e) ==> em'.active[k] == em.active[k]
  {
    if EntityIsAlive(em, e) then em.(active := em.active[Index(e) := !em.active[Index(e)]]) else em
  }

  /** Toggling an alive handle twice restores the allocator exactly. */
  lemma ToggleTwiceRestores(em: EntityManager, e: Entity)
    requires ValidManager(em) && InRange(em, e)
    ensures ToggleEntityIsActive(ToggleEntityIsActive(em, e), e) == em
  {
    var em1 := ToggleEntityIsActive(em, e);
    if EntityIsAlive(em, e) {
      assert em1.active[Index(e) := !em1.active[Index(e)]] == em.active;
    }
  }
}
