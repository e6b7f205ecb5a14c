/** `src/ecs/components/health.rs`: hitpoints (current, max) per entity.
    Harm, heal and kill only move the current value; the once-per-frame
    `update` pass clamps overhealed records and destroys the owners of
    records at or below zero, without removing any record. */
module Health {
  import opened Entities
  import opened Wrappers
  import opened ComponentStore

  datatype HealthData = HealthData(current: real, max: real)

  datatype HealthBuilder = HealthBuilder(hitpoints: Option<(real, real)>)

  type HealthSystem = Store<HealthData>

  /** `f32::MIN`, the most negative finite single-precision value. */
  const F32Min: real := -340282346638528859811704183484516925440.0

  function NewBuilder(): HealthBuilder {
    HealthBuilder(None)
  }

  function WithHitpoints(b: HealthBuilder, hp: (real, real)): HealthBuilder {
    b.(hitpoints := Some(hp))
  }

  function Build(b: HealthBuilder): HealthData {
    var hp := b.hitpoints.GetOr((1.0, 1.0));
    HealthData(hp.0, hp.1)
  }

  /** Without hitpoints the builder gives (1.0, 1.0); supplied hitpoints are
      kept as (current, max). */
  lemma BuilderDefaults(cur: real, max: real)
    ensures Build(NewBuilder()) == HealthData(1.0, 1.0)
    ensures Build(WithHitpoints(NewBuilder(), (cur, max))) == HealthData(cur, max)
  {
  }

  /** `add_health_to_entity`: ignores the null entity and entities that
      already have health; otherwise appends the built record. */
  function AddHealth(hs: HealthSystem, e: Entity, b: HealthBuilder): (r: HealthSystem)
    requires Valid(hs)
    ensures Valid(r)
    ensures e == Null() || Has(hs, e) ==> r == hs
    ensures e != Null() && !Has(hs, e) ==>
              Has(r, e) && Get(r, e) == Build(b) && |r.data| == |hs.data| + 1
    ensures forall x :: x != e ==> (Has(r, x) <==> Has(hs, x))
    ensures forall x :: x != e && Has(hs, x) ==> Get(r, x) == Get(hs, x)
  {
    if e == Null() || Has(hs, e) then hs else Append(hs, e, Build(b))
  }

  /** `remove_health_from_entity`: the shared swap-remove. */
  function RemoveHealth(hs: HealthSystem, e: Entity): (r: HealthSystem)
    requires Valid(hs)
    ensures Valid(r)
    ensures e == Null() || !Has(hs, e) ==> r == hs
    ensures e != Null() && Has(hs, e) ==> !Has(r, e) && |r.data| == |hs.data| - 1
    ensures forall x :: x != e ==> (Has(r, x) <==> Has(hs, x))
    ensures forall x :: x != e && Has(hs, x) ==> Get(r, x) == Get(hs, x)
  {
    RemoveSpec(hs, e);
    Remove(hs, e)
  }

  /** `heal`: raises current hitpoints only; max is untouched and nothing is
      clamped here. */
  function Heal(hs: HealthSystem, e: Entity, amount: real): (r: HealthSystem)
    requires Valid(hs)
    ensures Valid(r) && r.index == hs.index
    ensures e == Null() || !Has(hs, e) ==> r == hs
    ensures e != Null() && Has(hs, e) ==>
              Get(r, e).current == Get(hs, e).current + amount && Get(r, e).max == Get(hs, e).max
    ensures forall x :: x != e && Has(hs, x) ==> Get(r, x) == Get(hs, x)
  {
    GuardedUpdate(hs, e, (h: HealthData) => h.(current := h.current + amount))
  }

  /** `harm`: lowers current hitpoints only. */
  function Harm(hs: HealthSystem, e: Entity, amount: real): (r: HealthSystem)
    requires Valid(hs)
    ensures Valid(r) && r.index == hs.index
    ensures e == Null() || !Has(hs, e) ==> r == hs
    ensures e != Null() && Has(hs, e) ==>
              Get(r, e).current == Get(hs, e).current - amount && Get(r, e).max == Get(hs, e).max
    ensures forall x :: x != e && Has(hs, x) ==> Get(r, x) == Get(hs, x)
  {
    GuardedUpdate(hs, e, (h: HealthData) => h.(current := h.current - amount))
  }

  /** Harm undoes heal of the same amount. */
  lemma HarmUndoesHeal(hs: HealthSystem, e: Entity, amount: real)
    requires Valid(hs)
    ensures Harm(Heal(hs, e, amount), e, amount) == hs
  {
    var r := Harm(Heal(hs, e, amount), e, amount);
    if e != Null() && Has(hs, e) {
      assert r.data[hs.index[e]] == hs.data[hs.index[e]];
      assert r.data == hs.data;
    }
  }

  /** `kill_entity`: current hitpoints become `f32::MIN`, which is at or
      below zero, so the next update destroys the owner. */
  function KillEntity(hs: HealthSystem, e: Entity): (r: HealthSystem)
    requires Valid(hs)
    ensures Valid(r) && r.index == hs.index
    ensures e == Null() || !Has(hs, e) ==> r == hs
    ensures e != Null() && Has(hs, e) ==>
              Get(r, e).current <= 0.0 && Get(r, e).max == Get(hs, e).max
    ensures forall x :: x != e && Has(hs, x) ==> Get(r, x) == Get(hs, x)
  {
    GuardedUpdate(hs, e, (h: HealthData) => h.(current := F32Min))
  }

  /** A record whose owner the update pass destroys: not overhealed, and at
      or below zero. */
  predicate IsDead(h: HealthData) {
    !(h.current > h.max) && h.current <= 0.0
  }

  /** The slot indices the update pass destroys, in dense order. */
  function DeadIndices(data: seq<Record<HealthData>>): seq<nat>
  {
    if |data| == 0 then []
    else (if IsDead(data[0].body) then [Index(data[0].owner)] else []) + DeadIndices(data[1..])
  }

  /** The result of the pass on one record. */
  function Settle(h: HealthData): HealthData {
    if h.current > h.max then h.(current := h.max) else h
  }

  /** The records after the pass of `HealthSystem::update`: overhealed
      records are clamped to max, all others are left alone. Owners and order
      are kept. */
  function SettleRecords(data: seq<Record<HealthData>>): (r: seq<Record<HealthData>>)
    ensures |r| == |data|
    ensures forall i :: 0 <= i < |data| ==> r[i].owner == data[i].owner
    ensures forall i :: 0 <= i < |data| && data[i].body.current > data[i].body.max ==>
              r[i].body == HealthData(data[i].body.max, data[i].body.max)
    ensures forall i :: 0 <= i < |data| && !(data[i].body.current > data[i].body.max) ==>
              r[i] == data[i]
  {
    seq(|data|, i requires 0 <= i < |data| => Record(data[i].owner, Settle(data[i].body)))
  }

  /** The destruction half of the same loop, in dense order: each record at or
      below zero (and not overhealed) has its owner destroyed, so its slot is
      queued once per such record. */
  function DestroyDead(data: seq<Record<HealthData>>, em: EntityManager): (r: EntityManager)
    requires ValidManager(em) && RecordsInRange(data, em)
    ensures ValidManager(r)
    ensures r.active == em.active && |r.generation| == |em.generation|
    decreases |data|
  {
    if |data| == 0 then em
    else
      var em1 := if IsDead(data[0].body) then DestroyEntity(em, data[0].owner) else em;
      RecordsInRangeTail(data, em, em1);
      DestroyDead(data[1..], em1)
  }

  lemma RecordsInRangeTail(data: seq<Record<HealthData>>, em: EntityManager, em1: EntityManager)
    requires |data| > 0 && RecordsInRange(data, em) && |em1.generation| == |em.generation|
    requires |em1.active| == |em.active|
    ensures RecordsInRange(data[1..], em1)
  {
    forall i | 0 <= i < |data[1..]| ensures InRange(em1, data[1..][i].owner) {
      assert data[1..][i] == data[i + 1];
    }
  }

  /** The pass queues the slot of every destroyed owner, in dense order. */
  lemma {:induction false} DestroyDeadQueues(data: seq<Record<HealthData>>, em: EntityManager)
    requires ValidManager(em) && RecordsInRange(data, em)
    ensures DestroyDead(data, em).freeIndices == em.freeIndices + DeadIndices(data)
    decreases |data|
  {
    if |data| == 0 {
      assert em.freeIndices + [] == em.freeIndices;
    } else {
      var em1 := if IsDead(data[0].body) then DestroyEntity(em, data[0].owner) else em;
      RecordsInRangeTail(data, em, em1);
      DestroyDeadQueues(data[1..], em1);
      var head: seq<nat> := if IsDead(data[0].body) then [Index(data[0].owner)] else [];
      assert em1.freeIndices == em.freeIndices + head;
      assert DeadIndices(data) == head + DeadIndices(data[1..]);
      assert em.freeIndices + head + DeadIndices(data[1..]) == em.freeIndices + (head + DeadIndices(data[1..]));
    }
  }

  /** How many records of `data` are dead and owned through slot `k`. */
  function DeathsAt(data: seq<Record<HealthData>>, k: nat): nat
  {
    if |data| == 0 then 0
    else (if IsDead(data[0].body) && Index(data[0].owner) == k then 1 else 0) + DeathsAt(data[1..], k)
  }

  lemma ModAddAssoc(a: nat, d: nat, m: nat)
    ensures ((a + d) % GenerationLimit + m) % GenerationLimit == (a + d + m) % GenerationLimit
  {
  }

  /** Each slot's generation advances once per dead record owned through
      that slot (modulo 256). */
  lemma {:induction false} DestroyDeadGeneration(data: seq<Record<HealthData>>, em: EntityManager, k: nat)
    requires ValidManager(em) && RecordsInRange(data, em) && k < |em.generation|
    ensures DestroyDead(data, em).generation[k]
              == (em.generation[k] + DeathsAt(data, k)) % GenerationLimit
    decreases |data|
  {
    if |data| > 0 {
      var h := data[0].body;
      var em1 := if IsDead(h) then DestroyEntity(em, data[0].owner) else em;
      RecordsInRangeTail(data, em, em1);
      DestroyDeadGeneration(data[1..], em1, k);
      var d := if IsDead(h) && Index(data[0].owner) == k then 1 else 0;
      assert em1.generation[k] == (em.generation[k] + d) % GenerationLimit;
      ModAddAssoc(em.generation[k], d, DeathsAt(data[1..], k));
    }
  }

  /** `HealthSystem::update(entity_manager)`: records are never removed, so
      the map is unchanged; only the allocator records deaths. */
  function Update(hs: HealthSystem, em: EntityManager): (r: (HealthSystem, EntityManager))
    requires Valid(hs) && ValidManager(em) && RecordsInRange(hs.data, em)
    ensures Valid(r.0) && ValidManager(r.1)
    ensures r.0.index == hs.index
    ensures forall x :: Has(hs, x) ==> Get(r.0, x) == Settle(Get(hs, x))
    ensures r.1.freeIndices == em.freeIndices + DeadIndices(hs.data)
    ensures r.1.active == em.active
  {
    var data' := SettleRecords(hs.data);
    assert forall i :: 0 <= i < |data'| ==> data'[i].owner == hs.data[i].owner;
    DestroyDeadQueues(hs.data, em);
    (Store(hs.index, data'), DestroyDead(hs.data, em))
  }

  /** A record at or below zero that is not overhealed stays so through an
      update, so every later update destroys its owner again. */
  lemma {:induction false} DeadStaysDead(hs: HealthSystem, em: EntityManager, e: Entity)
    requires Valid(hs) && ValidManager(em) && RecordsInRange(hs.data, em)
    requires Has(hs, e) && IsDead(Get(hs, e))
    ensures Has(Update(hs, em).0, e) && IsDead(Get(Update(hs, em).0, e))
    ensures Index(e) in DeadIndices(Update(hs, em).0.data)
  {
    var hs1 := Update(hs, em).0;
    DeadIndexListed(hs1.data, hs1.index[e]);
  }

  lemma {:induction false} DeadIndexListed(data: seq<Record<HealthData>>, i: nat)
    requires i < |data| && IsDead(data[i].body)
    ensures Index(data[i].owner) in DeadIndices(data)
    decreases i
  {
    if i > 0 {
      DeadIndexListed(data[1..], i - 1);
      assert data[1..][i - 1] == data[i];
    }
  }

  /** No other entity with a health record uses `e`'s slot. */
  predicate SoleOwnerOfSlot(hs: HealthSystem, e: Entity) {
    forall x :: x in hs.index && Index(x) == Index(e) ==> x == e
  }

  lemma {:induction false} DeathsAtSole(data: seq<Record<HealthData>>, i: nat)
    requires i < |data| && IsDead(data[i].body)
    requires forall j :: 0 <= j < |data| && j != i ==> Index(data[j].owner) != Index(data[i].owner)
    ensures DeathsAt(data, Index(data[i].owner)) == 1
    decreases i
  {
    var k := Index(data[i].owner);
    if i > 0 {
      assert Index(data[0].owner) != k;
      DeathsAtSole(data[1..], i - 1);
      assert data[1..][i - 1] == data[i];
    } else {
      NoDeathsAt(data[1..], k);
    }
  }

  lemma {:induction false} NoDeathsAt(data: seq<Record<HealthData>>, k: nat)
    requires forall j :: 0 <= j < |data| ==> Index(data[j].owner) != k
    ensures DeathsAt(data, k) == 0
    decreases |data|
  {
    if |data| > 0 {
      NoDeathsAt(data[1..], k);
    }
  }

  /** Harming an alive entity to zero or below (without exceeding max) does
      not destroy it at once; the next update does, when no other health
      record's owner shares its slot. */
  lemma {:induction false} HarmThenUpdateDestroys(hs: HealthSystem, em: EntityManager, e: Entity, amount: real)
    requires Valid(hs) && ValidManager(em) && RecordsInRange(hs.data, em)
    requires e != Null() && Has(hs, e) && InRange(em, e) && EntityIsAlive(em, e)
    requires SoleOwnerOfSlot(hs, e)
    requires Get(hs, e).current - amount <= 0.0 && Get(hs, e).current - amount <= Get(hs, e).max
    ensures InRange(Update(Harm(hs, e, amount), em).1, e)
    ensures !EntityIsAlive(Update(Harm(hs, e, amount), em).1, e)
  {
    var hs1 := Harm(hs, e, amount);
    var i := hs1.index[e];
    assert IsDead(hs1.data[i].body);
    forall j | 0 <= j < |hs1.data| && j != i
      ensures Index(hs1.data[j].owner) != Index(hs1.data[i].owner)
    {
      assert hs1.data[j].owner in hs.index;
    }
    DeathsAtSole(hs1.data, i);
    var em1 := DestroyDead(hs1.data, em);
    DestroyDeadGeneration(hs1.data, em, Index(e));
    assert em1.generation[Index(e)] == (Generation(e) + 1) % GenerationLimit;
  }
}
