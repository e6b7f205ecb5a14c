/** The storage pattern every component system repeats (transformation,
    health, rigid body, drawable, text, particle emitter): a map from owning
    entity to a dense index, and a dense sequence of records that each know
    their owner. Removal swaps the last record into the hole and repairs the
    moved record's map entry. */
module ComponentStore {
  import opened Entities
  import opened Wrappers

  /** A component record: the owner plus the component's own fields. */
  datatype Record<T> = Record(owner: Entity, body: T)

  datatype Store<T> = Store(index: map<Entity, nat>, data: seq<Record<T>>)

  function Empty<T>(): (s: Store<T>)
    ensures Valid(s) && |s.data| == 0
  {
    Store(map[], [])
  }

  /** `map[e] == i` exactly when `data[i].owner == e`, and the map has one
      entry per record. */
  predicate Valid<T>(s: Store<T>) {
    && (forall e :: e in s.index ==> s.index[e] < |s.data| && s.data[s.index[e]].owner == e)
    && (forall i :: 0 <= i < |s.data| ==> s.data[i].owner in s.index && s.index[s.data[i].owner] == i)
    && |s.index| == |s.data|
  }

  /** `entity_has_X`: map membership. */
  predicate Has<T>(s: Store<T>, e: Entity) {
    e in s.index
  }

  function Get<T>(s: Store<T>, e: Entity): T
    requires Valid(s) && Has(s, e)
  {
    s.data[s.index[e]].body
  }

  function Lookup<T>(s: Store<T>, e: Entity): (r: Option<T>)
    requires Valid(s)
    ensures r.Some? <==> Has(s, e)
    ensures r.Some? ==> r.value == Get(s, e)
  {
    if e in s.index then Some(s.data[s.index[e]].body) else None
  }

  /** The owners in dense order. */
  function Owners<T>(s: Store<T>): seq<Entity> {
    seq(|s.data|, i requires 0 <= i < |s.data| => s.data[i].owner)
  }

  /** The push-and-insert half of every `add_X_to_entity`, taken when the
      entity has no record yet: the record is appended and mapped to the last
      dense index; nothing else changes. */
  function Append<T>(s: Store<T>, e: Entity, body: T): (r: Store<T>)
    requires Valid(s) && !Has(s, e)
    ensures Valid(r)
    ensures Has(r, e) && Get(r, e) == body
    ensures r.index[e] == |s.data| && |r.data| == |s.data| + 1
    ensures r.data[..|s.data|] == s.data
    ensures forall x :: x != e ==> (Has(r, x) <==> Has(s, x))
    ensures forall x :: x != e && Has(s, x) ==> Get(r, x) == Get(s, x)
  {
    Store(s.index[e := |s.data|], s.data + [Record(e, body)])
  }

  /** The removal every `remove_X_from_entity` performs: a no-op for the null
      entity or one without a record, otherwise `swap_remove` at the entity's
      index followed by the map repair of the record moved into the hole. */
  function Remove<T>(s: Store<T>, e: Entity): (r: Store<T>)
    requires Valid(s)
  {
    if e == Null() || e !in s.index then s
    else
      var i := s.index[e];
      var last := |s.data| - 1;
      var data' := s.data[i := s.data[last]][..last];
      var index' := s.index - {e};
      if |data'| > 0 && i != |data'| then Store(index'[data'[i].owner := i], data')
      else Store(index', data')
  }

  lemma {:induction false} RemoveKeepsValid<T>(s: Store<T>, e: Entity)
    requires Valid(s)
    ensures Valid(Remove(s, e))
  {
    if e == Null() || e !in s.index {
    } else {
      var i := s.index[e];
      var last := |s.data| - 1;
      var moved := s.data[last].owner;
      var r := Remove(s, e);
      assert (s.index - {e}).Keys == s.index.Keys - {e};
      if i != last {
        assert moved != e;
        assert r.data[i] == s.data[last];
        assert r.index == (s.index - {e})[moved := i];
        forall x | x in r.index
          ensures r.index[x] < |r.data| && r.data[r.index[x]].owner == x
        {
          if x != moved {
            assert s.index[x] != last && s.index[x] != i;
          }
        }
        forall k | 0 <= k < |r.data|
          ensures r.data[k].owner in r.index && r.index[r.data[k].owner] == k
        {
          if k != i {
            assert r.data[k] == s.data[k];
            assert s.data[k].owner != moved && s.data[k].owner != e;
          }
        }
      } else {
        forall k | 0 <= k < |r.data|
          ensures r.data[k].owner in r.index && r.index[r.data[k].owner] == k
        {
          assert r.data[k] == s.data[k];
          assert s.data[k].owner != e;
        }
      }
    }
  }

  /** What a removal promises: the entity loses its record and the dense
      sequence shrinks by one, every other entity keeps exactly the record it
      had, and the null or an absent entity changes nothing. */
  lemma {:induction false} RemoveSpec<T>(s: Store<T>, e: Entity)
    requires Valid(s)
    ensures Valid(Remove(s, e))
    ensures e == Null() || !Has(s, e) ==> Remove(s, e) == s
    ensures e != Null() && Has(s, e) ==>
              !Has(Remove(s, e), e) && |Remove(s, e).data| == |s.data| - 1
    ensures forall x :: x != e ==> (Has(Remove(s, e), x) <==> Has(s, x))
    ensures forall x :: x != e && Has(s, x) ==> Get(Remove(s, e), x) == Get(s, x)
  {
    RemoveKeepsValid(s, e);
    var r := Remove(s, e);
    if e != Null() && e in s.index {
      var i := s.index[e];
      var last := |s.data| - 1;
      forall x | x != e && Has(s, x)
        ensures Has(r, x) && Get(r, x) == Get(s, x)
      {
        var k := s.index[x];
        if k == last {
          assert r.data[i] == s.data[last];
        } else {
          assert r.data[k] == s.data[k];
        }
      }
    }
  }

  /** Writes a new body into the entity's record in place; the map and every
      other record are untouched. */
  function Modify<T>(s: Store<T>, e: Entity, body: T): (r: Store<T>)
    requires Valid(s) && Has(s, e)
    ensures Valid(r)
    ensures r.index == s.index && |r.data| == |s.data|
    ensures Get(r, e) == body
    ensures forall x :: x != e && Has(s, x) ==> Get(r, x) == Get(s, x)
    ensures forall k :: 0 <= k < |s.data| && k != s.index[e] ==> r.data[k] == s.data[k]
    ensures Owners(r) == Owners(s)
  {
    Store(s.index, s.data[s.index[e] := Record(e, body)])
  }

  /** A write through the entity's record, as the component setters that
      do not test for the null entity perform it: a no-op when the entity has
      no record, otherwise `f` is applied to that record's fields alone. */
  function Update<T>(s: Store<T>, e: Entity, f: T -> T): (r: Store<T>)
    requires Valid(s)
    ensures Valid(r)
    ensures r.index == s.index && |r.data| == |s.data| && Owners(r) == Owners(s)
    ensures !Has(s, e) ==> r == s
    ensures Has(s, e) ==> Get(r, e) == f(Get(s, e))
    ensures forall x :: x != e && Has(s, x) ==> Get(r, x) == Get(s, x)
  {
    if e in s.index then Modify(s, e, f(Get(s, e))) else s
  }

  /** The same write for the setters that first reject the null entity. */
  function GuardedUpdate<T>(s: Store<T>, e: Entity, f: T -> T): (r: Store<T>)
    requires Valid(s)
    ensures Valid(r)
    ensures r.index == s.index && |r.data| == |s.data| && Owners(r) == Owners(s)
    ensures e == Null() || !Has(s, e) ==> r == s
    ensures e != Null() && Has(s, e) ==> Get(r, e) == f(Get(s, e))
    ensures forall x :: x != e && Has(s, x) ==> Get(r, x) == Get(s, x)
  {
    if e == Null() then s else Update(s, e, f)
  }

  /** Add followed by remove of a fresh, non-null entity leaves every other
      entity resolving to the record it had before. */
  lemma AppendThenRemove<T>(s: Store<T>, e: Entity, body: T)
    requires Valid(s) && !Has(s, e) && e != Null()
    ensures Valid(Remove(Append(s, e, body), e))
    ensures forall x :: Has(Remove(Append(s, e, body), e), x) <==> Has(s, x)
    ensures forall x :: Has(s, x) ==> Get(Remove(Append(s, e, body), e), x) == Get(s, x)
  {
    RemoveSpec(Append(s, e, body), e);
  }

  /** Distinct dense positions hold distinct owners. */
  lemma OwnersDistinct<T>(s: Store<T>, a: nat, b: nat)
    requires Valid(s) && a < |s.data| && b < |s.data| && a != b
    ensures s.data[a].owner != s.data[b].owner
  {
  }

  /** Replacing the records' bodies while keeping every owner in place keeps
      the map valid. */
  lemma SameOwnersKeepValid<T>(s: Store<T>, data: seq<Record<T>>)
    requires Valid(s) && |data| == |s.data|
    requires forall k :: 0 <= k < |data| ==> data[k].owner == s.data[k].owner
    ensures Valid(Store(s.index, data))
  {
  }

  /** Every record's owner names a slot of the entity tables. */
  predicate RecordsInRange<T>(data: seq<Record<T>>, em: EntityManager) {
    forall k :: 0 <= k < |data| ==> InRange(em, data[k].owner)
  }

  /** Every owner of the store names a slot of the entity tables. */
  predicate OwnersInRange<T>(s: Store<T>, em: EntityManager) {
    RecordsInRange(s.data, em)
  }

  /** The records whose owners are active, in dense order: what every
      `draw_all` walks. */
  function ActiveRecords<T>(data: seq<Record<T>>, em: EntityManager): (act: seq<Record<T>>)
    requires RecordsInRange(data, em)
    ensures |act| <= |data|
    ensures forall k :: 0 <= k < |act| ==> act[k] in data && EntityIsActive(em, act[k].owner)
    ensures forall k :: 0 <= k < |data| && EntityIsActive(em, data[k].owner) ==> data[k] in act
  {
    if |data| == 0 then []
    else
      var init := data[..|data| - 1];
      assert forall k :: 0 <= k < |init| ==> init[k] == data[k];
      var rest := ActiveRecords(init, em);
      var last := data[|data| - 1];
      if EntityIsActive(em, last.owner) then rest + [last] else rest
  }

  /** Filtering commutes with concatenation: the active records keep their
      dense order. */
  lemma {:induction false} ActiveRecordsAppend<T>(a: seq<Record<T>>, b: seq<Record<T>>, em: EntityManager)
    requires RecordsInRange(a, em)
    requires RecordsInRange(b, em)
    ensures RecordsInRange(a + b, em)
    ensures ActiveRecords(a + b, em) == ActiveRecords(a, em) + ActiveRecords(b, em)
    decreases |b|
  {
    if |b| == 0 {
      assert a + b == a;
    } else {
      var b' := b[..|b| - 1];
      ActiveRecordsAppend(a, b', em);
      assert (a + b)[..|a + b| - 1] == a + b';
      assert b'[..|b'|] == b' && b[..|b| - 1] == b';
    }
  }

  /** A single record is kept exactly when its owner is active. */
  lemma ActiveRecordsSingle<T>(r: Record<T>, em: EntityManager)
    requires InRange(em, r.owner)
    ensures ActiveRecords([r], em) == if EntityIsActive(em, r.owner) then [r] else []
  {
    assert [r][..0] == [];
  }

  /** The records' owners name slots of the tables, and every active owner
      also has a record in `places` (in practice, a transformation): what
      every `draw_all` needs to finish. */
  predicate Placeable<T, U>(data: seq<Record<T>>, em: EntityManager, places: Store<U>) {
    && RecordsInRange(data, em)
    && (forall k :: 0 <= k < |data| && EntityIsActive(em, data[k].owner) ==> Has(places, data[k].owner))
  }

  lemma PlaceableStep<T, U>(data: seq<Record<T>>, em: EntityManager, places: Store<U>, i: nat)
    requires i < |data| && RecordsInRange(data, em)
    ensures Placeable(data[..i + 1], em, places) <==>
              Placeable(data[..i], em, places) && (EntityIsActive(em, data[i].owner) ==> Has(places, data[i].owner))
  {
    assert data[..i + 1][..i] == data[..i];
    assert data[..i + 1][i] == data[i];
  }
}
