/** `src/renderer/texture_manager.rs`: textures loaded once by file name and
    cached with their size, and texture sets, the (albedo, emissive) pairs of
    texture ids that render jobs refer to by their position in a list that
    only grows. PNG decoding is a map from file name to image size (a name
    the decoder rejects is absent), and the texture id a load would create
    is a parameter. Cube maps are not part of this model. */
module Textures {
  import opened Entities
  import opened Wrappers
  import opened VecMath

  /** A loaded texture: its GL id and its size in pixels. */
  datatype Texture = Texture(id: U32, size: Vec2)

  datatype TextureManager = TextureManager(
    textures: map<string, Texture>,
    sets: seq<(U32, U32)>)

  /** Decoded PNG images: file name to (width, height). */
  type Images = map<string, (U32, U32)>

  function NewTextureManager(): (tm: TextureManager)
    ensures tm.textures == map[] && tm.sets == []
  {
    TextureManager(map[], [])
  }

  /** `get_texture_set_count`. */
  function GetTextureSetCount(tm: TextureManager): nat {
    |tm.sets|
  }

  /** `load_texture`: the decoder panics on a file it cannot read; otherwise
      the texture is inserted under its name with the image size, replacing
      any texture of that name. */
  function LoadTexture(tm: TextureManager, name: string, images: Images, id: U32)
    : (r: Result<TextureManager>)
    ensures r.Success? <==> name in images
    ensures r.Success? ==>
              && r.value.sets == tm.sets
              && r.value.textures ==
                   tm.textures[name := Texture(id, Vec2(images[name].0 as real, images[name].1 as real))]
  {
    if name !in images then Failure("Failed to load png")
    else
      var (w, h) := images[name];
      Success(tm.(textures := tm.textures[name := Texture(id, Vec2(w as real, h as real))]))
  }

  /** `get_texture`: a cached texture answers `(false, texture)`; otherwise
      the texture is loaded and answers `(true, texture)`. */
  function GetTexture(tm: TextureManager, name: string, images: Images, id: U32)
    : (r: Result<(TextureManager, (bool, Texture))>)
    ensures name in tm.textures ==> r == Success((tm, (false, tm.textures[name])))
    ensures name !in tm.textures ==> (r.Success? <==> name in images)
    ensures name !in tm.textures && r.Success? ==>
              && r.value.1.0 && r.value.1.1.id == id
              && r.value.0 == LoadTexture(tm, name, images, id).value
    ensures r.Success? ==>
              && r.value.0.sets == tm.sets
              && name in r.value.0.textures && r.value.0.textures[name] == r.value.1.1
              && (forall n :: n in tm.textures ==> n in r.value.0.textures && r.value.0.textures[n] == tm.textures[n])
  {
    if name in tm.textures then Success((tm, (false, tm.textures[name])))
    else
      var tm' :- LoadTexture(tm, name, images, id);
      Success((tm', (true, tm'.textures[name])))
  }

  /** A second request for a texture is served from the cache. */
  lemma GetTextureCaches(tm: TextureManager, name: string, images: Images, id1: U32, id2: U32)
    requires GetTexture(tm, name, images, id1).Success?
    ensures var (tm1, (_, t)) := GetTexture(tm, name, images, id1).value;
            GetTexture(tm1, name, images, id2) == Success((tm1, (false, t)))
  {
  }

  /** The first position holding the pair, if any. */
  function FindSet(sets: seq<(U32, U32)>, albedo: U32, emissive: U32): (r: Option<nat>)
    ensures r.Some? ==>
              && r.value < |sets| && sets[r.value] == (albedo, emissive)
              && forall j :: 0 <= j < r.value ==> sets[j] != (albedo, emissive)
    ensures r.None? ==> forall j :: 0 <= j < |sets| ==> sets[j] != (albedo, emissive)
  {
    if |sets| == 0 then None
    else if sets[0] == (albedo, emissive) then Some(0)
    else
      match FindSet(sets[1..], albedo, emissive)
      case Some(i) => Some(i + 1)
      case None => None
  }

  /** A texture can be had: it is cached, or its file decodes. */
  predicate Available(tm: TextureManager, name: string, images: Images) {
    name in tm.textures || name in images
  }

  /** `get_texture_set`: fetches (loading if need be) both textures, then
      answers `(false, i)` for the first set already holding their ids, or
      appends the pair and answers `(true, new index)`. */
  function GetTextureSet(tm: TextureManager, albedo: string, emissive: string, images: Images,
                         albedoId: U32, emissiveId: U32): (r: Result<(TextureManager, (bool, nat))>)
    ensures r.Success? ==>
              && var (tm', (added, i)) := r.value;
              && i < |tm'.sets|
              && albedo in tm'.textures && emissive in tm'.textures
              && tm'.sets[i] == (tm'.textures[albedo].id, tm'.textures[emissive].id)
              && (forall j :: 0 <= j < i ==> tm'.sets[j] != tm'.sets[i])
              && |tm.sets| <= |tm'.sets| && tm'.sets[..|tm.sets|] == tm.sets
              && (added ==> i == |tm.sets| && |tm'.sets| == |tm.sets| + 1)
              && (!added ==> tm'.sets == tm.sets)
    ensures albedo in tm.textures && emissive in tm.textures ==> r.Success?
    ensures r.Success? <==> Available(tm, albedo, images) && Available(tm, emissive, images)
  {
    var (tm1, (_, a)) :- GetTexture(tm, albedo, images, albedoId);
    var (tm2, (_, e)) :- GetTexture(tm1, emissive, images, emissiveId);
    match FindSet(tm2.sets, a.id, e.id)
    case Some(i) => Success((tm2, (false, i)))
    case None =>
      var tm3 := tm2.(sets := tm2.sets + [(a.id, e.id)]);
      assert tm3.sets[..|tm.sets|] == tm.sets;
      Success((tm3, (true, |tm2.sets|)))
  }

  /** Asking twice for the same names gives `(false, same index)` the second
      time and leaves the manager, and so the set count, as it was. */
  lemma {:induction false} GetTextureSetTwice(
    tm: TextureManager, albedo: string, emissive: string, images: Images,
    a1: U32, e1: U32, a2: U32, e2: U32)
    requires GetTextureSet(tm, albedo, emissive, images, a1, e1).Success?
    ensures var (tm1, (_, i)) := GetTextureSet(tm, albedo, emissive, images, a1, e1).value;
            GetTextureSet(tm1, albedo, emissive, images, a2, e2) == Success((tm1, (false, i)))
  {
    var (tm1, (_, i)) := GetTextureSet(tm, albedo, emissive, images, a1, e1).value;
    var pair := (tm1.textures[albedo].id, tm1.textures[emissive].id);
    assert FindSet(tm1.sets, pair.0, pair.1) == Some(i);
  }

  /** `get_texture_set_data`: the stored pair for an existing set, (0, 0)
      for any other index. */
  function GetTextureSetData(tm: TextureManager, id: nat): (r: (U32, U32))
    ensures id < GetTextureSetCount(tm) ==> r == tm.sets[id]
    ensures id >= GetTextureSetCount(tm) ==> r == (0, 0)
  {
    if id < |tm.sets| then tm.sets[id] else (0, 0)
  }

  /** `clear_all_textures`: forgets every texture but keeps every set, so
      set indices and the ids they hold survive. */
  function ClearAllTextures(tm: TextureManager): (r: TextureManager)
    ensures r.textures == map[]
    ensures r.sets == tm.sets
    ensures forall i: nat :: GetTextureSetData(r, i) == GetTextureSetData(tm, i)
  {
    tm.(textures := map[])
  }

  /** Set indices are stable: an index handed out keeps naming the same
      pair through later set requests and texture clears. */
  lemma SetIndicesStable(tm: TextureManager, albedo: string, emissive: string, images: Images,
                         a: U32, e: U32, i: nat)
    requires i < GetTextureSetCount(tm)
    requires GetTextureSet(tm, albedo, emissive, images, a, e).Success?
    ensures GetTextureSetData(GetTextureSet(tm, albedo, emissive, images, a, e).value.0, i)
              == GetTextureSetData(tm, i)
    ensures GetTextureSetData(ClearAllTextures(tm), i) == GetTextureSetData(tm, i)
  {
    var tm' := GetTextureSet(tm, albedo, emissive, images, a, e).value.0;
    assert tm'.sets[..|tm.sets|][i] == tm'.sets[i];
  }

  /** `get_texture_set_sizes` as written: whatever the loop finds, the
      function answers two zero sizes. */
  function GetTextureSetSizes(tm: TextureManager, id: nat): (r: (Vec2, Vec2))
    ensures r == (Zero2, Zero2)
  {
    (Zero2, Zero2)
  }

  /** Live textures have distinct GL ids. */
  predicate UniqueIds(tm: TextureManager) {
    forall m, n :: m in tm.textures && n in tm.textures && m != n ==>
      tm.textures[m].id != tm.textures[n].id
  }

  /** The sizes the loop of `get_texture_set_sizes` computes before they are
      discarded, visiting the textures in the map's iteration order `order`:
      the albedo entry takes the size of the texture whose id is the set's
      first id; the emissive entry the size of the texture with the second
      id, unless both ids are equal (the `else if` never reaches it then). */
  method TextureSetSizes(tm: TextureManager, id: nat, order: seq<string>) returns (r: (Vec2, Vec2))
    requires forall k :: 0 <= k < |order| ==> order[k] in tm.textures
    requires forall n :: n in tm.textures ==> n in order
    requires UniqueIds(tm)
    ensures id >= |tm.sets| ==> r == (Zero2, Zero2)
    ensures id < |tm.sets| ==>
              var (albedo, emissive) := tm.sets[id];
              && (forall n :: n in tm.textures && tm.textures[n].id == albedo ==> r.0 == tm.textures[n].size)
              && ((forall n :: n in tm.textures ==> tm.textures[n].id != albedo) ==> r.0 == Zero2)
              && (forall n :: n in tm.textures && tm.textures[n].id == emissive && emissive != albedo ==>
                    r.1 == tm.textures[n].size)
              && ((emissive == albedo || forall n :: n in tm.textures ==> tm.textures[n].id != emissive) ==>
                    r.1 == Zero2)
  {
    r := (Zero2, Zero2);
    if id < |tm.sets| {
      var (albedo, emissive) := tm.sets[id];
      var k := 0;
      while k < |order|
        invariant 0 <= k <= |order|
        invariant forall j :: 0 <= j < k && tm.textures[order[j]].id == albedo ==>
                    r.0 == tm.textures[order[j]].size
        invariant (forall j :: 0 <= j < k ==> tm.textures[order[j]].id != albedo) ==> r.0 == Zero2
        invariant forall j :: 0 <= j < k && tm.textures[order[j]].id == emissive && emissive != albedo ==>
                    r.1 == tm.textures[order[j]].size
        invariant (emissive == albedo || forall j :: 0 <= j < k ==> tm.textures[order[j]].id != emissive) ==>
                    r.1 == Zero2
      {
        var t := tm.textures[order[k]];
        if t.id == albedo {
          r := (t.size, r.1);
        } else if t.id == emissive {
          r := (r.0, t.size);
        }
        k := k + 1;
      }
      forall n | n in tm.textures && tm.textures[n].id == albedo
        ensures r.0 == tm.textures[n].size
      {
        var j :| 0 <= j < |order| && order[j] == n;
      }
      forall n | n in tm.textures && tm.textures[n].id == emissive && emissive != albedo
        ensures r.1 == tm.textures[n].size
      {
        var j :| 0 <= j < |order| && order[j] == n;
      }
    }
  }

  /** The discrepancy: one loaded 8x8 texture used as both halves of set 0.
      The loop finds its size, the function answers zero. */
  method SizesDiscarded() returns (computed: (Vec2, Vec2), answered: (Vec2, Vec2))
    ensures computed.0 == Vec2(8.0, 8.0)
    ensures answered.0 == Zero2
  {
    var tm := TextureManager(map["font.png" := Texture(1, Vec2(8.0, 8.0))], [(1, 1)]);
    computed := TextureSetSizes(tm, 0, ["font.png"]);
    assert tm.sets[0] == (1, 1) && tm.textures["font.png"].id == 1;
    answered := GetTextureSetSizes(tm, 0);
  }
}
