/** The bookkeeping half of `src/renderer/mod.rs`: render jobs collected
    into buckets keyed by shader program, model vertex array and texture-set
    index; the rebuild of those buckets when a model or texture set is first
    loaded; the double-buffered framebuffers' front/back indices; the
    letterboxed viewport; and the split of each bucket into instanced draw
    calls of at most MaxInstances. Every GL call is outside the model, and
    so is the model-matrix arithmetic: a bucket entry keeps the values the
    matrix is composed from. The shader manager is reduced to the set of its
    program ids. */
module Renderer {
  import opened Entities
  import opened Wrappers
  import opened VecMath
  import opened Models
  import opened Textures

  /** `MAX_INSTANCES`: the most instances one draw call carries. */
  const MaxInstances: nat := 10000

  datatype RenderJob = RenderJob(
    model: ModelInfo,
    shader: U32,
    textures: nat,
    scale: Vec3,
    uvSize: Vec2,
    uvOffset: Vec2,
    position: Vec3,
    pivot: Vec3,
    rotation: Quat,
    tint: Vec4,
    emissiveTint: Vec4)

  /** An `InstanceBuffer`, with the model matrix kept as its inputs. */
  datatype Instance = Instance(
    scale: Vec3,
    pivot: Vec3,
    rotation: Quat,
    position: Vec3,
    tint: Vec4,
    emissiveTint: Vec4,
    uvSize: Vec2,
    uvOffset: Vec2)

  function InstanceOf(job: RenderJob): Instance {
    Instance(job.scale, job.pivot, job.rotation, job.position,
             job.tint, job.emissiveTint, job.uvSize, job.uvOffset)
  }

  type SetJobs = map<nat, seq<Instance>>
  type ModelJobs = map<U32, (ModelInfo, SetJobs)>
  /** `render_jobs`: shader program, then vertex array, then texture set. */
  type Buckets = map<U32, ModelJobs>

  /** The bucket at the three keys, if every key is present. */
  function Bucket(b: Buckets, shader: U32, vao: U32, textureSet: nat): Option<seq<Instance>> {
    if shader in b && vao in b[shader] && textureSet in b[shader][vao].1 then Some(b[shader][vao].1[textureSet])
    else None
  }

  /** The same keys at every level and the same model information. */
  predicate SameKeys(a: Buckets, b: Buckets) {
    && a.Keys == b.Keys
    && forall s :: s in a ==>
         && a[s].Keys == b[s].Keys
         && forall v :: v in a[s] ==> a[s][v].0 == b[s][v].0 && a[s][v].1.Keys == b[s][v].1.Keys
  }

  /** `add_render_job`: appends one instance to the job's bucket when the
      shader, the model's vertex array and the texture set all have an
      entry; otherwise the job is dropped. No key is ever created. */
  function AddRenderJob(b: Buckets, job: RenderJob): (r: Buckets)
    ensures SameKeys(r, b)
    ensures forall s: U32, v: U32, t: nat :: Bucket(r, s, v, t) ==
              if (s, v, t) == (job.shader, job.model.vao, job.textures) && Bucket(b, s, v, t).Some?
              then Some(Bucket(b, s, v, t).value + [InstanceOf(job)])
              else Bucket(b, s, v, t)
  {
    var (s, v, t) := (job.shader, job.model.vao, job.textures);
    if s in b && v in b[s] && t in b[s][v].1 then
      var (info, sets) := b[s][v];
      b[s := b[s][v := (info, sets[t := sets[t] + [InstanceOf(job)]])]]
    else b
  }

  /** A job whose keys are missing leaves the buckets exactly as they were. */
  lemma AddRenderJobMissingKey(b: Buckets, job: RenderJob)
    requires Bucket(b, job.shader, job.model.vao, job.textures).None?
    ensures AddRenderJob(b, job) == b
  {
  }

  /** Every texture set below `count`, each with an empty job list. */
  function EmptySets(count: nat): (m: SetJobs)
    ensures forall t: nat :: t in m <==> t < count
    ensures forall t :: t in m ==> m[t] == []
  {
    if count == 0 then map[] else EmptySets(count - 1)[count - 1 := []]
  }

  /** No two models share a vertex array. */
  predicate UniqueVaos(infos: set<ModelInfo>) {
    forall a, c :: a in infos && c in infos && a.vao == c.vao ==> a == c
  }

  /** `rebuild_job_queues`: every existing shader entry is emptied (the
      entry itself stays), every known shader gets an entry, every model
      is entered under every shader entry, and every texture set under
      every model, all with empty job lists. */
  function RebuildJobQueues(b: Buckets, shaders: set<U32>, infos: set<ModelInfo>, setCount: nat)
    : (r: Buckets)
    requires UniqueVaos(infos)
    ensures r.Keys == b.Keys + shaders
    ensures forall s: U32, i, t: nat :: s in r && i in infos && t < setCount ==>
              Bucket(r, s, i.vao, t) == Some([]) && r[s][i.vao].0 == i
    ensures forall s: U32, v: U32, t: nat :: Bucket(r, s, v, t).Some? ==>
              && Bucket(r, s, v, t).value == []
              && t < setCount
              && r[s][v].0 in infos && r[s][v].0.vao == v
  {
    var entries := map i | i in infos :: i.vao := (i, EmptySets(setCount));
    map s | s in b.Keys + shaders :: entries
  }

  /** After a rebuild, a job for a known shader, a known model and an
      existing texture set is accepted into its (empty) bucket, while a job
      for a texture set that does not exist yet is dropped. */
  lemma RebuildAcceptsJobs(b: Buckets, shaders: set<U32>, infos: set<ModelInfo>, setCount: nat,
                           job: RenderJob)
    requires UniqueVaos(infos)
    requires job.shader in b || job.shader in shaders
    requires job.model in infos
    ensures var r := RebuildJobQueues(b, shaders, infos, setCount);
            var key := (job.shader, job.model.vao, job.textures);
            && (job.textures < setCount ==> Bucket(AddRenderJob(r, job), key.0, key.1, key.2) == Some([InstanceOf(job)]))
            && (job.textures >= setCount ==> AddRenderJob(r, job) == r)
  {
    var r := RebuildJobQueues(b, shaders, infos, setCount);
    if job.textures < setCount {
      assert Bucket(r, job.shader, job.model.vao, job.textures) == Some([]);
      assert [] + [InstanceOf(job)] == [InstanceOf(job)];
    } else {
      assert Bucket(r, job.shader, job.model.vao, job.textures).None?;
    }
  }

  /** The renderer state the modelled operations touch. The shader
      manager appears only as its table of program ids by name. */
  datatype RendererState = RendererState(
    shaders: map<string, U32>,
    models: ModelManager,
    textures: TextureManager,
    jobs: Buckets)

  /** What the model manager's iterator yields. */
  function Infos(mm: ModelManager): set<ModelInfo> {
    set n | n in mm.models :: GetInfo(mm.models[n])
  }

  /** Distinct models own distinct vertex arrays (GL never hands out a name
      that is in use). */
  predicate UniqueModelVaos(mm: ModelManager) {
    forall m, n :: m in mm.models && n in mm.models && m != n ==> mm.models[m].vao != mm.models[n].vao
  }

  lemma UniqueInfos(mm: ModelManager)
    requires UniqueModelVaos(mm)
    ensures UniqueVaos(Infos(mm))
  {
    forall a, c | a in Infos(mm) && c in Infos(mm) && a.vao == c.vao
      ensures a == c
    {
      var m :| m in mm.models && GetInfo(mm.models[m]) == a;
      var n :| n in mm.models && GetInfo(mm.models[n]) == c;
    }
  }

  /** Every shader entry holds every known model with every known texture
      set, and every known shader has an entry. */
  predicate Complete(rs: RendererState) {
    && rs.shaders.Values <= rs.jobs.Keys
    && forall s, i, t: nat :: s in rs.jobs && i in Infos(rs.models) && t < |rs.textures.sets| ==>
         Bucket(rs.jobs, s, i.vao, t).Some?
  }

  /** The rebuild as the renderer runs it, from its own managers. */
  function Rebuild(rs: RendererState): (r: RendererState)
    requires UniqueModelVaos(rs.models)
    ensures Complete(r)
    ensures r == rs.(jobs := r.jobs)
  {
    UniqueInfos(rs.models);
    rs.(jobs := RebuildJobQueues(rs.jobs, rs.shaders.Values, Infos(rs.models), |rs.textures.sets|))
  }

  /** `Renderer::get_texture_set`: rebuilds the buckets exactly when the
      texture manager reports a newly created set. */
  function GetTextureSetAndRebuild(rs: RendererState, albedo: string, emissive: string, images: Images,
                                   albedoId: U32, emissiveId: U32): (r: Result<(RendererState, nat)>)
    requires UniqueModelVaos(rs.models)
    ensures var t := GetTextureSet(rs.textures, albedo, emissive, images, albedoId, emissiveId);
            && (r.Success? <==> t.Success?)
            && (r.Success? ==>
                  && r.value.1 == t.value.1.1
                  && r.value.0.textures == t.value.0
                  && r.value.0.models == rs.models
                  && (t.value.1.0 ==> r.value.0 == Rebuild(rs.(textures := t.value.0)))
                  && (!t.value.1.0 ==> r.value.0.jobs == rs.jobs))
  {
    var (tm, (added, i)) :- GetTextureSet(rs.textures, albedo, emissive, images, albedoId, emissiveId);
    var rs' := rs.(textures := tm);
    Success((if added then Rebuild(rs') else rs', i))
  }

  /** `Renderer::get_model`: rebuilds the buckets exactly when the model
      manager reports a fresh load. `vao` is the vertex array a load would
      create. */
  function GetModelAndRebuild(rs: RendererState, name: string, files: map<string, seq<Codec.Byte>>, vao: U32)
    : (r: Result<(RendererState, ModelInfo)>)
    requires UniqueModelVaos(rs.models)
    requires forall n :: n in rs.models.models ==> rs.models.models[n].vao != vao
    ensures var g := GetModel(rs.models, name, files, vao);
            && (r.Success? <==> g.Success?)
            && (r.Success? ==> r.value.0.textures == rs.textures && r.value.0.shaders == rs.shaders)
            && (r.Success? ==>
                  && r.value.1 == g.value.1.1
                  && r.value.0.models == g.value.0
                  && UniqueModelVaos(r.value.0.models)
                  && (g.value.1.0 ==> r.value.0 == Rebuild(rs.(models := g.value.0)))
                  && (!g.value.1.0 ==> r.value.0 == rs))
  {
    var (mm, (loaded, info)) :- GetModel(rs.models, name, files, vao);
    var rs' := rs.(models := mm);
    Success((if loaded then Rebuild(rs') else rs', info))
  }

  /** A texture-set request keeps every bucket a job could need in place. */
  lemma TextureTriggerKeepsComplete(rs: RendererState, albedo: string, emissive: string, images: Images,
                                    a: U32, e: U32)
    requires UniqueModelVaos(rs.models)
    ensures Complete(rs) && GetTextureSetAndRebuild(rs, albedo, emissive, images, a, e).Success? ==>
              Complete(GetTextureSetAndRebuild(rs, albedo, emissive, images, a, e).value.0)
  {
    var t := GetTextureSet(rs.textures, albedo, emissive, images, a, e);
    if Complete(rs) && t.Success? && !t.value.1.0 {
      var r := GetTextureSetAndRebuild(rs, albedo, emissive, images, a, e).value.0;
      assert r == rs.(textures := t.value.0);
      assert |r.textures.sets| == |rs.textures.sets|;
    }
  }

  /** A model request keeps every bucket a job could need in place. */
  lemma ModelTriggerKeepsComplete(rs: RendererState, name: string, files: map<string, seq<Codec.Byte>>, vao: U32)
    requires UniqueModelVaos(rs.models)
    requires forall n :: n in rs.models.models ==> rs.models.models[n].vao != vao
    ensures Complete(rs) && GetModelAndRebuild(rs, name, files, vao).Success? ==>
              Complete(GetModelAndRebuild(rs, name, files, vao).value.0)
  {
  }

  /** In a complete state, a job whose keys are all known lands in its
      bucket. */
  lemma CompleteAcceptsJobs(rs: RendererState, job: RenderJob)
    requires Complete(rs)
    requires job.shader in rs.shaders.Values && job.model in Infos(rs.models) && job.textures < |rs.textures.sets|
    ensures var b := Bucket(rs.jobs, job.shader, job.model.vao, job.textures);
            && b.Some?
            && Bucket(AddRenderJob(rs.jobs, job), job.shader, job.model.vao, job.textures)
                 == Some(b.value + [InstanceOf(job)])
  {
  }

  /** The handles a drawable or text component keeps once built. */
  datatype Resources = Resources(shader: U32, model: ModelInfo, textureSet: nat)

  /** The lookups a component builder makes, in its order: the shader by
      name (`get_shader(..).unwrap()`), the model (`get_model(..).unwrap()`)
      and the texture set, the last two rebuilding the buckets on a fresh
      load. */
  function Resolve(rs: RendererState, shader: string, model: string, albedo: string, emissive: string,
                   files: map<string, seq<Codec.Byte>>, images: Images,
                   vao: U32, albedoId: U32, emissiveId: U32): (r: Result<(RendererState, Resources)>)
    requires UniqueModelVaos(rs.models)
    requires forall n :: n in rs.models.models ==> rs.models.models[n].vao != vao
    ensures shader !in rs.shaders ==> r.Failure?
    ensures r.Success? <==>
              && shader in rs.shaders
              && (model in rs.models.models || LoadModel(rs.models, model, files, vao).Success?)
              && Available(rs.textures, albedo, images) && Available(rs.textures, emissive, images)
    ensures r.Success? ==>
              && var (rs', res) := r.value;
              && UniqueModelVaos(rs'.models)
              && rs'.shaders == rs.shaders
              && res.shader == rs.shaders[shader]
              && model in rs'.models.models && res.model == GetInfo(rs'.models.models[model])
              && res.textureSet < |rs'.textures.sets|
              && albedo in rs'.textures.textures && emissive in rs'.textures.textures
              && rs'.textures.sets[res.textureSet]
                   == (rs'.textures.textures[albedo].id, rs'.textures.textures[emissive].id)
              && (Complete(rs) ==> Complete(rs'))
  {
    if shader !in rs.shaders then Failure("called `Option::unwrap()` on a `None` value")
    else
      var (rs1, info) :- GetModelAndRebuild(rs, model, files, vao);
      ModelTriggerKeepsComplete(rs, model, files, vao);
      var (rs2, textureSet) :- GetTextureSetAndRebuild(rs1, albedo, emissive, images, albedoId, emissiveId);
      TextureTriggerKeepsComplete(rs1, albedo, emissive, images, albedoId, emissiveId);
      Success((rs2, Resources(rs.shaders[shader], info, textureSet)))
  }

  /** From a complete state, the handles a builder resolves name buckets
      that exist: a job drawn with them is accepted. */
  lemma {:induction false} ResolvedJobsAccepted(
    rs: RendererState, shader: string, model: string, albedo: string, emissive: string,
    files: map<string, seq<Codec.Byte>>, images: Images, vao: U32, albedoId: U32, emissiveId: U32,
    job: RenderJob)
    requires UniqueModelVaos(rs.models) && Complete(rs)
    requires forall n :: n in rs.models.models ==> rs.models.models[n].vao != vao
    requires Resolve(rs, shader, model, albedo, emissive, files, images, vao, albedoId, emissiveId).Success?
    requires var res := Resolve(rs, shader, model, albedo, emissive, files, images, vao, albedoId, emissiveId).value.1;
             job.shader == res.shader && job.model == res.model && job.textures == res.textureSet
    ensures var rs' := Resolve(rs, shader, model, albedo, emissive, files, images, vao, albedoId, emissiveId).value.0;
            var b := Bucket(rs'.jobs, job.shader, job.model.vao, job.textures);
            && b.Some?
            && Bucket(AddRenderJob(rs'.jobs, job), job.shader, job.model.vao, job.textures)
                 == Some(b.value + [InstanceOf(job)])
  {
    var (rs', res) := Resolve(rs, shader, model, albedo, emissive, files, images, vao, albedoId, emissiveId).value;
    assert job.model in Infos(rs'.models);
    CompleteAcceptsJobs(rs', job);
  }

  /** `usize::min`. */
  function MinUsize(a: int, b: int): int {
    if a <= b then a else b
  }

  /** The `(start, count)` pairs of the instanced draw calls for one bucket,
      and the texture-set ids bound before them. The set's textures are only
      looked up when the bucket is not empty. */
  method DrawBucket(jobs: seq<Instance>, tm: TextureManager, setId: nat)
    returns (calls: seq<(nat, nat)>, setData: Option<(U32, U32)>)
    ensures setData.Some? <==> |jobs| > 0
    ensures setData.Some? ==> setData.value == GetTextureSetData(tm, setId)
    ensures |calls| == (|jobs| + MaxInstances - 1) / MaxInstances
    ensures forall k :: 0 <= k < |calls| ==>
              && calls[k].0 == k * MaxInstances
              && calls[k].1 == MinUsize(|jobs| - k * MaxInstances, MaxInstances)
              && 0 < calls[k].1 <= MaxInstances
              && calls[k].0 + calls[k].1 <= |jobs|
    ensures |calls| > 0 ==> calls[|calls| - 1].0 + calls[|calls| - 1].1 == |jobs|
  {
    var remaining := |jobs|;
    var batchesDone := 0;
    calls := [];
    setData := None;
    if remaining > 0 {
      setData := Some(GetTextureSetData(tm, setId));
    }
    while remaining > 0
      invariant 0 <= remaining <= |jobs|
      invariant |calls| == batchesDone
      invariant remaining > 0 ==> batchesDone * MaxInstances == |jobs| - remaining
      invariant remaining == 0 ==> batchesDone == (|jobs| + MaxInstances - 1) / MaxInstances
      invariant remaining > 0 ==> batchesDone == (|jobs| - remaining) / MaxInstances
      invariant forall k :: 0 <= k < |calls| ==>
                  && calls[k].0 == k * MaxInstances
                  && calls[k].1 == MinUsize(|jobs| - k * MaxInstances, MaxInstances)
                  && 0 < calls[k].1 <= MaxInstances
                  && calls[k].0 + calls[k].1 <= |jobs|
      invariant |calls| > 0 ==> calls[|calls| - 1].0 + calls[|calls| - 1].1 == |jobs| - remaining
    {
      var jobCount := MinUsize(remaining, MaxInstances);
      CeilStep(|jobs|, remaining, batchesDone);
      calls := calls + [(batchesDone * MaxInstances, jobCount)];
      remaining := remaining - jobCount;
      batchesDone := batchesDone + 1;
    }
  }

  /** One batch of the loop in `present` moves the batch count on by one
      and, on the last batch, reaches the rounded-up quotient. */
  lemma CeilStep(n: nat, remaining: nat, done: nat)
    requires 0 < remaining <= n && done * MaxInstances == n - remaining
    ensures done == (n - remaining) / MaxInstances
    ensures remaining <= MaxInstances ==> done + 1 == (n + MaxInstances - 1) / MaxInstances
    ensures remaining > MaxInstances ==> done + 1 == (n - (remaining - MaxInstances)) / MaxInstances
  {
  }

  /** `present` ends by clearing every bucket; the keys stay. */
  function ClearBuckets(b: Buckets): (r: Buckets)
    ensures SameKeys(r, b)
    ensures forall s: U32, v: U32, t: nat :: Bucket(b, s, v, t).Some? <==> Bucket(r, s, v, t) == Some([])
    ensures forall s: U32, v: U32, t: nat :: Bucket(b, s, v, t).None? ==> Bucket(r, s, v, t).None?
  {
    map s | s in b :: map v | v in b[s] :: (b[s][v].0, map t | t in b[s][v].1 :: [])
  }

  /** A framebuffer's size and the indices of its front and back colour
      buffers, `usize` values kept as 64-bit vectors. */
  datatype Framebuffer = Framebuffer(size: (int, int), front: bv64, back: bv64)

  /** `Framebuffer::swap`: three XOR assignments. */
  function Swap(fb: Framebuffer): (r: Framebuffer)
    ensures r.front == fb.back && r.back == fb.front && r.size == fb.size
  {
    var front1 := fb.front ^ fb.back;
    var back1 := fb.back ^ front1;
    var front2 := front1 ^ back1;
    fb.(front := front2, back := back1)
  }

  lemma SwapTwice(fb: Framebuffer)
    ensures Swap(Swap(fb)) == fb
  {
  }

  /** `Framebuffer::resize`: records the size and resets the front buffer to
      0 and the back buffer to 1. */
  function ResizeFramebuffer(fb: Framebuffer, width: int, height: int): (r: Framebuffer)
    ensures r.size == (width, height)
    ensures r.front == 0 && r.back == 1
  {
    Framebuffer((width, height), 0, 1)
  }

  function Swaps(fb: Framebuffer, n: nat): Framebuffer {
    if n == 0 then fb else Swap(Swaps(fb, n - 1))
  }

  /** From a resize on, the two indices are always 0 and 1 in some order:
      after an even number of swaps the front is 0 again. */
  lemma {:induction false} SwapsAfterResize(fb: Framebuffer, width: int, height: int, n: nat)
    ensures var r := Swaps(ResizeFramebuffer(fb, width, height), n);
            (r.front, r.back) == if n % 2 == 0 then (0, 1) else (1, 0)
  {
    if n > 0 {
      SwapsAfterResize(fb, width, height, n - 1);
    }
  }

  /** A viewport's size and its offset in the window. */
  datatype Viewport = Viewport(size: Vec2, offset: Vec2)

  /** The letterbox rule of `Renderer::resize` before truncation: a window
      narrower than the render target keeps its width and is centred
      vertically, a wider one keeps its height and is centred horizontally,
      an equal one is used whole. */
  function Letterbox(target: Vec2, window: Vec2): (v: Viewport)
    requires target.x != 0.0 && target.y != 0.0 && window.y != 0.0
    ensures window.x / window.y < target.x / target.y ==>
              v.size.x == window.x && v.offset.x == 0.0
    ensures window.x / window.y > target.x / target.y ==>
              v.size.y == window.y && v.offset.y == 0.0
    ensures window.x / window.y == target.x / target.y ==> v == Viewport(window, Zero2)
  {
    var ratio := window.x / window.y;
    var targetRatio := target.x / target.y;
    if ratio < targetRatio then
      var size := Vec2(window.x, (1.0 / targetRatio) * window.x);
      Viewport(size, Vec2(0.0, (window.y - size.y) / 2.0))
    else if ratio > targetRatio then
      var size := Vec2(targetRatio * window.y, window.y);
      Viewport(size, Vec2((window.x - size.x) / 2.0, 0.0))
    else Viewport(window, Zero2)
  }

  /** For positive sizes the letterboxed viewport has the render target's
      aspect ratio, fits inside the window, fills it in one dimension and is
      centred in the other. */
  lemma LetterboxFits(target: Vec2, window: Vec2)
    requires target.x > 0.0 && target.y > 0.0 && window.x > 0.0 && window.y > 0.0
    ensures var v := Letterbox(target, window);
            && v.size.x * target.y == v.size.y * target.x
            && 0.0 <= v.offset.x && 0.0 <= v.offset.y
            && v.size.x + 2.0 * v.offset.x == window.x
            && v.size.y + 2.0 * v.offset.y == window.y
            && (v.size.x == window.x || v.size.y == window.y)
            && 0.0 < v.size.x <= window.x && 0.0 < v.size.y <= window.y
  {
    var ratio := window.x / window.y;
    var tr := target.x / target.y;
    var v := Letterbox(target, window);
    assert ratio * window.y == window.x;
    assert tr * target.y == target.x;
    if ratio < tr {
      assert v.size.y == window.x / tr;
      assert v.size.y > 0.0;
      QuotientBelow(window.x, tr, window.y);
    } else if ratio > tr {
      assert v.size.x == tr * window.y;
      assert v.size.x > 0.0;
      ProductBelow(ratio, tr, window.y);
    } else {
      assert window.x * target.y == target.x * window.y;
    }
  }

  lemma QuotientBelow(x: real, tr: real, y: real)
    requires x > 0.0 && y > 0.0 && tr > 0.0 && x / y < tr
    ensures x / tr < y
  {
    assert x < tr * y;
  }

  lemma ProductBelow(ratio: real, tr: real, y: real)
    requires y > 0.0 && tr < ratio
    ensures tr * y < ratio * y
  {
  }

  /** `x as u32` on a float: truncation toward zero, saturating at 0 and at
      `u32::MAX`. */
  function TruncateU32(x: real): (n: nat)
    ensures n < 0x1_0000_0000
    ensures x <= 0.0 ==> n == 0
    ensures 0.0 <= x < 0x1_0000_0000 as real ==> n as real <= x < n as real + 1.0
    ensures x >= 0xFFFF_FFFF as real ==> n == 0xFFFF_FFFF
  {
    if x <= 0.0 then 0 else if x >= 0xFFFF_FFFF as real then 0xFFFF_FFFF else x.Floor
  }

  /** The whole of `Renderer::resize`'s viewport computation: the letterbox,
      then every value truncated to a whole number. */
  function ResizeViewport(target: Vec2, window: Vec2): (v: Viewport)
    requires target.x != 0.0 && target.y != 0.0 && window.y != 0.0
  {
    var l := Letterbox(target, window);
    Viewport(Vec2(TruncateU32(l.size.x) as real, TruncateU32(l.size.y) as real),
             Vec2(TruncateU32(l.offset.x) as real, TruncateU32(l.offset.y) as real))
  }

  /** After truncation the viewport still fits inside a window of
      representable size, every value is a whole number, and each is less
      than one below the exact letterbox value. */
  lemma {:induction false} ResizedViewportFits(target: Vec2, window: Vec2)
    requires target.x > 0.0 && target.y > 0.0 && window.x > 0.0 && window.y > 0.0
    requires window.x < 0x1_0000_0000 as real && window.y < 0x1_0000_0000 as real
    ensures var v := ResizeViewport(target, window);
            var l := Letterbox(target, window);
            && v.size.x + v.offset.x <= window.x && v.size.y + v.offset.y <= window.y
            && l.size.x - 1.0 < v.size.x <= l.size.x && l.size.y - 1.0 < v.size.y <= l.size.y
            && l.offset.x - 1.0 < v.offset.x <= l.offset.x && l.offset.y - 1.0 < v.offset.y <= l.offset.y
            && v.size.x == v.size.x.Floor as real && v.size.y == v.size.y.Floor as real
  {
    LetterboxFits(target, window);
  }
}
