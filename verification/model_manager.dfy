/** `src/renderer/model.rs` and `src/renderer/model_manager.rs`: the models
    the renderer knows by name, each loaded once from its binary file and
    cached. The GL objects are outside the model: the vertex array id a
    load would create is a parameter, and a model keeps the data uploaded
    into its buffers. The file system is a map from path to contents. */
module Models {
  import opened Entities
  import opened Wrappers
  import opened Codec
  import opened Vertices
  import opened ModelFile
  import opened ModelBuilder

  /** `gl::TRIANGLES`. */
  const Triangles: nat := 0x0004

  /** `n as GLsizei`: keeps the low 32 bits and reads them as a signed
      value. */
  function ToI32(n: nat): (r: int)
    ensures -0x8000_0000 <= r < 0x8000_0000
    ensures (r - n) % 0x1_0000_0000 == 0
    ensures n < 0x8000_0000 ==> r == n
  {
    (n + 0x8000_0000) % 0x1_0000_0000 - 0x8000_0000
  }

  /** What a draw call needs to know about a model. */
  datatype ModelInfo = ModelInfo(vao: U32, indexCount: int, renderMode: nat)

  /** A model's vertex array and the data uploaded into its buffers. */
  datatype Model = Model(vao: U32, vertices: seq<Vertex>, indices: seq<U32>, renderMode: nat)

  /** `Model::new`: `&verticies[0]` and `&indices[0]` panic on empty
      slices, so both must hold data. */
  function NewModel(renderMode: nat, vertices: seq<Vertex>, indices: seq<U32>, vao: U32): (m: Model)
    requires |vertices| > 0 && |indices| > 0
    ensures GetInfo(m) == ModelInfo(vao, ToI32(|indices|), renderMode)
    ensures m.vertices == vertices && m.indices == indices
  {
    Model(vao, vertices, indices, renderMode)
  }

  /** `get_info`: the index count is the index list's length as `GLsizei`. */
  function GetInfo(m: Model): ModelInfo {
    ModelInfo(m.vao, ToI32(|m.indices|), m.renderMode)
  }

  datatype ModelManager = ModelManager(models: map<string, Model>)

  function NewModelManager(): (mm: ModelManager)
    ensures mm.models == map[]
  {
    ModelManager(map[])
  }

  /** `add_model`: inserts under the name, replacing any model already
      there. */
  function AddModel(mm: ModelManager, name: string, renderMode: nat,
                    vertices: seq<Vertex>, indices: seq<U32>, vao: U32): (r: ModelManager)
    requires |vertices| > 0 && |indices| > 0
    ensures r.models.Keys == mm.models.Keys + {name}
    ensures r.models[name] == Model(vao, vertices, indices, renderMode)
    ensures forall n :: n in mm.models && n != name ==> r.models[n] == mm.models[n]
  {
    ModelManager(mm.models[name := NewModel(renderMode, vertices, indices, vao)])
  }

  /** `clear_all_models`. */
  function ClearAllModels(mm: ModelManager): (r: ModelManager)
    ensures forall n :: n !in r.models
  {
    ModelManager(map[])
  }

  /** Where `load_model` looks for a model's file. */
  function ModelPath(name: string): string {
    "res/models/" + name
  }

  /** `load_model`: the file must exist and read completely, and hold at
      least one vertex and one index; the model is then added for
      triangles, replacing any model of that name. */
  function LoadModel(mm: ModelManager, name: string, files: map<string, seq<Byte>>, vao: U32)
    : (r: Result<ModelManager>)
    ensures ModelPath(name) !in files ==> r.Failure?
    ensures r.Success? <==>
              && ModelPath(name) in files
              && ReadModelFile(files[ModelPath(name)]).Success?
              && |ReadModelFile(files[ModelPath(name)]).value.0| > 0
              && |ReadModelFile(files[ModelPath(name)]).value.1| > 0
    ensures r.Success? ==>
              var (vs, ixs) := ReadModelFile(files[ModelPath(name)]).value;
              r.value == AddModel(mm, name, Triangles, vs, ixs, vao)
  {
    if ModelPath(name) !in files then Failure("No such file or directory")
    else
      var (vs, ixs) :- ReadModelFile(files[ModelPath(name)]);
      if |vs| == 0 || |ixs| == 0 then Failure("index out of bounds")
      else Success(AddModel(mm, name, Triangles, vs, ixs, vao))
  }

  /** `get_model`: a cached model answers `(false, info)`; otherwise the
      model is loaded and answers `(true, info)`. The source's `None` cannot
      be reached, because a failed load panics. */
  function GetModel(mm: ModelManager, name: string, files: map<string, seq<Byte>>, vao: U32)
    : (r: Result<(ModelManager, (bool, ModelInfo))>)
    ensures name in mm.models ==> r == Success((mm, (false, GetInfo(mm.models[name]))))
    ensures name !in mm.models ==> (r.Success? <==> LoadModel(mm, name, files, vao).Success?)
    ensures name !in mm.models && r.Success? ==>
              && r.value.0 == LoadModel(mm, name, files, vao).value
              && r.value.1 == (true, GetInfo(r.value.0.models[name]))
              && r.value.1.1.vao == vao
  {
    if name in mm.models then Success((mm, (false, GetInfo(mm.models[name]))))
    else
      var mm' :- LoadModel(mm, name, files, vao);
      Success((mm', (true, GetInfo(mm'.models[name]))))
  }

  /** A second request for the same name is served from the cache: no new
      load, the same information, the manager unchanged. */
  lemma GetModelCaches(mm: ModelManager, name: string, files: map<string, seq<Byte>>, vao1: U32, vao2: U32)
    requires GetModel(mm, name, files, vao1).Success?
    ensures var (mm1, (_, info1)) := GetModel(mm, name, files, vao1).value;
            GetModel(mm1, name, files, vao2) == Success((mm1, (false, info1)))
  {
  }

  /** After `clear_all_models` every request loads again. */
  lemma ClearForcesReload(mm: ModelManager, name: string, files: map<string, seq<Byte>>, vao: U32)
    requires GetModel(ClearAllModels(mm), name, files, vao).Success?
    ensures GetModel(ClearAllModels(mm), name, files, vao).value.1.0
  {
  }

  /** A model the builder converted loads back as exactly the converted
      data, drawn as triangles with one index per converted index. */
  lemma {:induction false} ConvertedModelLoads(
    mm: ModelManager, name: string, files: map<string, seq<Byte>>,
    vs: seq<Vertex>, ixs: seq<U32>, vao: U32)
    requires 0 < |vs| < U32Limit && 0 < |ixs| < U32Limit
    ensures var files' := files[ModelPath(name) := ModelFileImage(vs, ixs)];
            && LoadModel(mm, name, files', vao).Success?
            && LoadModel(mm, name, files', vao).value.models[name] == Model(vao, vs, ixs, Triangles)
  {
    ModelFileReadsBack(vs, ixs);
  }

  /** The file the model builder writes for a PLY file, installed as a
      model's file, loads as exactly the vertices and indices collected from
      the PLY lines. */
  lemma {:induction false} BuiltModelLoads(
    mm: ModelManager, name: string, files: map<string, seq<Byte>>, vao: U32,
    args: seq<string>, plys: map<string, seq<Line>>, parseF32: F32Parser)
    requires ConvertModel(args, plys, parseF32).Success? && ConvertModel(args, plys, parseF32).value.Some?
    requires var (vs, ixs) := Collect(plys[args[1]], parseF32).value;
             0 < |vs| < U32Limit && 0 < |ixs| < U32Limit
    ensures var (vs, ixs) := Collect(plys[args[1]], parseF32).value;
            var files' := files[ModelPath(name) := ConvertModel(args, plys, parseF32).value.value.1];
            LoadModel(mm, name, files', vao) == Success(AddModel(mm, name, Triangles, vs, ixs, vao))
  {
    var (vs, ixs) := Collect(plys[args[1]], parseF32).value;
    assert ReadModelFile(ConvertModel(args, plys, parseF32).value.value.1) == Success((vs, ixs));
  }
}
