/** The engine's binary model file, written by `src/bin/model_builder.rs`
    and read back by `load_model` in `src/renderer/model_manager.rs`: the
    vertex count and the index count as `u32`, then every vertex, then every
    index, each as its `write_struct` image. */
module ModelFile {
  import opened Entities
  import opened Wrappers
  import opened Codec
  import opened Vertices

  /** One more than the largest `u32`. */
  const U32Limit: nat := 0x1_0000_0000

  /** The model file as written: the vertex count and the index count, each
      cast to `u32` (truncating), then every vertex, then every index. Every
      `write` is taken to accept the whole buffer. */
  function ModelFileImage(vertices: seq<Vertex>, indices: seq<U32>): (bs: seq<Byte>)
    ensures |bs| == 8 + VertexSize * |vertices| + 4 * |indices|
  {
    EncodeU32(|vertices| % U32Limit) + EncodeU32(|indices| % U32Limit)
      + EncodeVertices(vertices) + EncodeU32s(indices)
  }

  /** The two counts at the head of a model file. */
  function ReadCounts(bytes: seq<Byte>): (r: Result<(U32, U32, seq<Byte>)>)
    ensures r.Success? <==> 8 <= |bytes|
    ensures r.Success? ==> EncodeU32(r.value.0) + EncodeU32(r.value.1) + r.value.2 == bytes
  {
    var (vc, rest1) :- ReadU32(bytes);
    var (ic, rest2) :- ReadU32(rest1);
    Success((vc, ic, rest2))
  }

  /** The reads of `load_model`: the vertex count, the index count, that
      many vertices, that many indices; any short read panics. Bytes after
      the indices are never read. */
  function ReadModelFile(bytes: seq<Byte>): (r: Result<(seq<Vertex>, seq<U32>)>)
    ensures |bytes| < 8 ==> r.Failure?
  {
    var (vc, ic, rest) :- ReadCounts(bytes);
    var (vs, rest3) :- ReadVertices(vc, rest);
    var (ixs, _) :- ReadU32s(ic, rest3);
    Success((vs, ixs))
  }

  /** A successful read consumed exactly the image the model builder writes
      for what it read. */
  lemma ReadModelFileConsumesImage(bytes: seq<Byte>)
    ensures ReadModelFile(bytes).Success? ==>
              ModelFileImage(ReadModelFile(bytes).value.0, ReadModelFile(bytes).value.1) <= bytes
  {
    if ReadModelFile(bytes).Success? {
      var (vc, ic, rest) := ReadCounts(bytes).value;
      var (vs, rest3) := ReadVertices(vc, rest).value;
      var (ixs, rest4) := ReadU32s(ic, rest3).value;
      assert ReadModelFile(bytes).value == (vs, ixs);
      assert |vs| == vc && |ixs| == ic;
      SmallCount(vc);
      SmallCount(ic);
      var img := ModelFileImage(vs, ixs);
      assert img == EncodeU32(vc) + EncodeU32(ic) + EncodeVertices(vs) + EncodeU32s(ixs);
      Regroup(EncodeU32(vc) + EncodeU32(ic), EncodeVertices(vs), EncodeU32s(ixs), rest4);
      assert bytes == img + rest4;
      assert (img + rest4)[..|img|] == img;
    }
  }

  lemma SmallCount(n: nat)
    requires n < U32Limit
    ensures n % U32Limit == n
  {
  }

  lemma Regroup(ab: seq<Byte>, c: seq<Byte>, d: seq<Byte>, rest: seq<Byte>)
    ensures ab + (c + (d + rest)) == (ab + c + d) + rest
  {
  }

  /** Reading a file the model builder wrote gives back the builder's
      vertices and indices, whatever follows them. */
  lemma ModelFileRoundTrip(vs: seq<Vertex>, ixs: seq<U32>, trailing: seq<Byte>)
    requires |vs| < U32Limit && |ixs| < U32Limit
    ensures ReadModelFile(ModelFileImage(vs, ixs) + trailing) == Success((vs, ixs))
  {
    var tail3 := EncodeU32s(ixs) + trailing;
    var tail2 := EncodeVertices(vs) + tail3;
    var bytes := ModelFileImage(vs, ixs) + trailing;
    SmallCount(|vs|);
    SmallCount(|ixs|);
    Regroup(EncodeU32(|vs|) + EncodeU32(|ixs|), EncodeVertices(vs), EncodeU32s(ixs), trailing);
    assert bytes == EncodeU32(|vs|) + (EncodeU32(|ixs|) + tail2);
    ReadEncodedU32(|vs|, EncodeU32(|ixs|) + tail2);
    ReadEncodedU32(|ixs|, tail2);
    assert ReadCounts(bytes) == Success((|vs|, |ixs|, tail2));
    ReadEncodedVertices(vs, tail3);
    ReadEncodedU32s(ixs, trailing);
  }

  /** The image alone, with nothing after it, reads back the same way. */
  lemma ModelFileReadsBack(vs: seq<Vertex>, ixs: seq<U32>)
    requires |vs| < U32Limit && |ixs| < U32Limit
    ensures ReadModelFile(ModelFileImage(vs, ixs)) == Success((vs, ixs))
  {
    ModelFileRoundTrip(vs, ixs, []);
    assert ModelFileImage(vs, ixs) + [] == ModelFileImage(vs, ixs);
  }
}
