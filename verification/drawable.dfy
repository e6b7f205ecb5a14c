/** `src/ecs/components/drawable.rs`: what to draw for an entity (shader,
    model, texture set, texture window and tints), in the shared component
    store. Drawing turns every drawable of an active owner into one render
    job placed with the owner's transformation. */
module Drawables {
  import opened Entities
  import opened Wrappers
  import opened VecMath
  import opened ComponentStore
  import opened Transformation
  import opened Models
  import opened Textures
  import opened Renderer

  datatype DrawableData = DrawableData(
    shader: U32,
    model: ModelInfo,
    textureSet: nat,
    uvScale: Vec2,
    uvOffset: Vec2,
    tint: Vec4,
    emissiveTint: Vec4)

  datatype DrawableBuilder = DrawableBuilder(
    shader: Option<string>,
    model: Option<string>,
    textureSet: Option<(string, string)>,
    uvScale: Option<Vec2>,
    uvOffset: Option<Vec2>,
    tint: Option<Vec4>,
    emissiveTint: Option<Vec4>)

  type DrawableSystem = Store<DrawableData>

  function NewBuilder(): DrawableBuilder {
    DrawableBuilder(None, None, None, None, None, None, None)
  }

  /** The resource names `build` asks the renderer for: the builder's own,
      or the sprite shader, the cube model and the plain pixel texture with
      a black emissive map. */
  function ShaderName(b: DrawableBuilder): string {
    b.shader.GetOr("sprite")
  }

  function ModelName(b: DrawableBuilder): string {
    b.model.GetOr("cube")
  }

  function TextureSetNames(b: DrawableBuilder): (string, string) {
    b.textureSet.GetOr(("pixel.png", "black.png"))
  }

  /** `build`, once the renderer has resolved the three names: the handles
      are kept, the texture window defaults to the whole texture, the tint
      to white and the emissive tint to none. */
  function Build(b: DrawableBuilder, res: Resources): (d: DrawableData)
    ensures d.shader == res.shader && d.model == res.model && d.textureSet == res.textureSet
  {
    DrawableData(res.shader, res.model, res.textureSet,
                 b.uvScale.GetOr(One2), b.uvOffset.GetOr(Zero2),
                 b.tint.GetOr(One4), b.emissiveTint.GetOr(Zero4))
  }

  lemma BuilderDefaults(res: Resources)
    ensures ShaderName(NewBuilder()) == "sprite" && ModelName(NewBuilder()) == "cube"
    ensures TextureSetNames(NewBuilder()) == ("pixel.png", "black.png")
    ensures Build(NewBuilder(), res) ==
              DrawableData(res.shader, res.model, res.textureSet, One2, Zero2, One4, Zero4)
  {
  }

  /** `build` with the lookups: resolves the builder's names through the
      renderer (which may load and rebuild), then builds the record. */
  function BuildWithRenderer(b: DrawableBuilder, rs: RendererState,
                             files: map<string, seq<Codec.Byte>>, images: Images,
                             vao: U32, albedoId: U32, emissiveId: U32): (r: Result<(RendererState, DrawableData)>)
    requires UniqueModelVaos(rs.models)
    requires forall n :: n in rs.models.models ==> rs.models.models[n].vao != vao
    ensures ShaderName(b) !in rs.shaders ==> r.Failure?
    ensures var res := Resolve(rs, ShaderName(b), ModelName(b), TextureSetNames(b).0, TextureSetNames(b).1,
                               files, images, vao, albedoId, emissiveId);
            && (r.Success? <==> res.Success?)
            && (r.Success? ==> r.value == (res.value.0, Build(b, res.value.1)))
  {
    var names := TextureSetNames(b);
    var (rs', res) :- Resolve(rs, ShaderName(b), ModelName(b), names.0, names.1,
                              files, images, vao, albedoId, emissiveId);
    Success((rs', Build(b, res)))
  }

  /** `add_drawable_to_entity`: ignored when the entity already has a
      drawable or has no transformation; otherwise the built record is
      appended. The null entity is not rejected. */
  function AddDrawable(ds: DrawableSystem, e: Entity, ts: TransformationSystem, d: DrawableData)
    : (r: DrawableSystem)
    requires Valid(ds)
    ensures Valid(r)
    ensures Has(ds, e) || !Has(ts, e) ==> r == ds
    ensures !Has(ds, e) && Has(ts, e) ==> Has(r, e) && Get(r, e) == d && |r.data| == |ds.data| + 1
    ensures forall x :: x != e ==> (Has(r, x) <==> Has(ds, x))
    ensures forall x :: x != e && Has(ds, x) ==> Get(r, x) == Get(ds, x)
  {
    if Has(ds, e) || !Has(ts, e) then ds else Append(ds, e, d)
  }

  /** `add_drawable_to_entity` with the build it performs: the builder is
      resolved through the renderer only in the branch that appends, so an
      ignored add leaves the renderer as it was and cannot panic on an
      unknown shader. */
  function AddDrawableWithRenderer(ds: DrawableSystem, e: Entity, ts: TransformationSystem, b: DrawableBuilder,
                   rs: RendererState, files: map<string, seq<Codec.Byte>>, images: Images,
                   vao: U32, albedoId: U32, emissiveId: U32): (r: Result<(RendererState, DrawableSystem)>)
    requires Valid(ds)
    requires UniqueModelVaos(rs.models)
    requires forall n :: n in rs.models.models ==> rs.models.models[n].vao != vao
    ensures Has(ds, e) || !Has(ts, e) ==> r == Success((rs, ds))
    ensures !Has(ds, e) && Has(ts, e) ==>
              var built := BuildWithRenderer(b, rs, files, images, vao, albedoId, emissiveId);
              && (r.Success? <==> built.Success?)
              && (r.Success? ==>
                    && r.value.0 == built.value.0
                    && Valid(r.value.1) && Has(r.value.1, e) && Get(r.value.1, e) == built.value.1
                    && |r.value.1.data| == |ds.data| + 1
                    && (forall x :: x != e ==> (Has(r.value.1, x) <==> Has(ds, x)))
                    && (forall x :: x != e && Has(ds, x) ==> Get(r.value.1, x) == Get(ds, x)))
  {
    if Has(ds, e) || !Has(ts, e) then Success((rs, ds))
    else
      var (rs', d) :- BuildWithRenderer(b, rs, files, images, vao, albedoId, emissiveId);
      Success((rs', Append(ds, e, d)))
  }

  /** An add that is ignored succeeds untouched even when building would
      have failed on an unknown shader. */
  lemma IgnoredAddSkipsBuild(ds: DrawableSystem, e: Entity, ts: TransformationSystem, b: DrawableBuilder,
                   rs: RendererState, files: map<string, seq<Codec.Byte>>, images: Images,
                   vao: U32, albedoId: U32, emissiveId: U32)
    requires Valid(ds) && Has(ds, e)
    requires UniqueModelVaos(rs.models)
    requires forall n :: n in rs.models.models ==> rs.models.models[n].vao != vao
    requires ShaderName(b) !in rs.shaders
    ensures BuildWithRenderer(b, rs, files, images, vao, albedoId, emissiveId).Failure?
    ensures AddDrawableWithRenderer(ds, e, ts, b, rs, files, images, vao, albedoId, emissiveId) == Success((rs, ds))
  {
  }

  /** `remove_drawable_from_entity`: the shared swap-remove. */
  function RemoveDrawable(ds: DrawableSystem, e: Entity): (r: DrawableSystem)
    requires Valid(ds)
    ensures Valid(r)
    ensures e == Null() || !Has(ds, e) ==> r == ds
    ensures e != Null() && Has(ds, e) ==> !Has(r, e) && |r.data| == |ds.data| - 1
    ensures forall x :: x != e ==> (Has(r, x) <==> Has(ds, x))
    ensures forall x :: x != e && Has(ds, x) ==> Get(r, x) == Get(ds, x)
  {
    RemoveSpec(ds, e);
    Remove(ds, e)
  }

  /** `set_entity_tint_color`: a no-op for the null or an absent entity;
      otherwise only this drawable's tint changes. */
  function SetTint(ds: DrawableSystem, e: Entity, color: Vec4): (r: DrawableSystem)
    requires Valid(ds)
    ensures Valid(r) && r.index == ds.index && Owners(r) == Owners(ds)
    ensures e == Null() || !Has(ds, e) ==> r == ds
    ensures e != Null() && Has(ds, e) ==> Get(r, e) == Get(ds, e).(tint := color)
    ensures forall x :: x != e && Has(ds, x) ==> Get(r, x) == Get(ds, x)
  {
    GuardedUpdate(ds, e, (d: DrawableData) => d.(tint := color))
  }

  /** The render job for one drawable placed by its owner's transformation. */
  function JobFor(d: DrawableData, t: TransformationData): (job: RenderJob)
    ensures job.shader == d.shader && job.model == d.model && job.textures == d.textureSet
  {
    RenderJob(d.model, d.shader, d.textureSet, t.scale, d.uvScale, d.uvOffset,
              t.position, t.pivot, t.rotation, d.tint, d.emissiveTint)
  }

  /** The jobs of the drawables of active owners, in dense order. */
  function DrawJobs(data: seq<Record<DrawableData>>, em: EntityManager, ts: TransformationSystem): seq<RenderJob>
    requires Valid(ts) && Placeable(data, em, ts)
  {
    if |data| == 0 then []
    else
      var last := data[|data| - 1];
      var rest := DrawJobs(data[..|data| - 1], em, ts);
      if EntityIsActive(em, last.owner) then rest + [JobFor(last.body, Get(ts, last.owner))] else rest
  }

  lemma DrawJobsStep(data: seq<Record<DrawableData>>, em: EntityManager, ts: TransformationSystem, i: nat)
    requires Valid(ts) && i < |data| && Placeable(data[..i + 1], em, ts)
    ensures Placeable(data[..i], em, ts)
    ensures DrawJobs(data[..i + 1], em, ts) ==
              DrawJobs(data[..i], em, ts) +
                (if EntityIsActive(em, data[i].owner) then [JobFor(data[i].body, Get(ts, data[i].owner))] else [])
  {
    assert data[..i + 1][..i] == data[..i];
    assert data[..i + 1][i] == data[i];
  }

  /** One job per active record, in order: job `k` draws the `k`-th
      drawable of an active owner at that owner's transformation. */
  lemma {:induction false} DrawJobsActive(data: seq<Record<DrawableData>>, em: EntityManager, ts: TransformationSystem)
    requires Valid(ts) && Placeable(data, em, ts)
    ensures var act := ActiveRecords(data, em);
            && |DrawJobs(data, em, ts)| == |act|
            && forall k :: 0 <= k < |act| ==>
                 Has(ts, act[k].owner) && DrawJobs(data, em, ts)[k] == JobFor(act[k].body, Get(ts, act[k].owner))
  {
    if |data| > 0 {
      var init := data[..|data| - 1];
      var last := data[|data| - 1];
      assert Placeable(init, em, ts);
      DrawJobsActive(init, em, ts);
      var act := ActiveRecords(data, em);
      forall k | 0 <= k < |act|
        ensures Has(ts, act[k].owner)
      {
        var j :| 0 <= j < |data| && data[j] == act[k];
      }
    }
  }

  /** `draw_all`: walks the records in dense order and emits one job for
      each active owner; the owner's transformation is unwrapped, so an
      active owner without one stops the walk with a panic. */
  method DrawAll(ds: DrawableSystem, em: EntityManager, ts: TransformationSystem)
    returns (r: Result<seq<RenderJob>>)
    requires Valid(ds) && Valid(ts) && OwnersInRange(ds, em)
    ensures r.Success? <==> Placeable(ds.data, em, ts)
    ensures r.Success? ==> r.value == DrawJobs(ds.data, em, ts)
  {
    var jobs: seq<RenderJob> := [];
    var i := 0;
    while i < |ds.data|
      invariant 0 <= i <= |ds.data|
      invariant Placeable(ds.data[..i], em, ts)
      invariant jobs == DrawJobs(ds.data[..i], em, ts)
    {
      var d := ds.data[i];
      PlaceableStep(ds.data, em, ts, i);
      if EntityIsActive(em, d.owner) && !Has(ts, d.owner) {
        assert !Placeable(ds.data, em, ts) by {
          assert ds.data[i] == d;
        }
        return Failure("called `Option::unwrap()` on a `None` value");
      }
      DrawJobsStep(ds.data, em, ts, i);
      if EntityIsActive(em, d.owner) {
        jobs := jobs + [JobFor(d.body, Get(ts, d.owner))];
      }
      i := i + 1;
    }
    assert ds.data[..i] == ds.data;
    return Success(jobs);
  }
}
