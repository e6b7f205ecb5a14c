/** The `Vertex` record of `src/renderer/mod.rs` and its byte image, the unit
    of the binary model files. The eight single-precision fields are carried
    as their 32-bit patterns: the model builder and the model loader only
    move them, and the one arithmetic step applied to them (negating the
    texture `v` coordinate) is a flip of the sign bit. */
module Vertices {
  import opened Entities
  import opened Wrappers
  import opened Codec

  /** The bit pattern of an `f32`. */
  type F32Bits = U32

  datatype Vertex = Vertex(
    px: F32Bits, py: F32Bits, pz: F32Bits,
    nx: F32Bits, ny: F32Bits, nz: F32Bits,
    u: F32Bits, v: F32Bits)

  /** `size_of::<Vertex>()`: eight 4-byte fields. */
  const VertexSize: nat := 32

  /** The sign bit of an `f32`. */
  const SignBit: nat := 0x8000_0000

  /** `x * -1.0` on an `f32`, applied to every pattern: the sign bit flips,
      nothing else. For a NaN the hardware may also quieten the payload;
      that is not modelled. */
  function Negate(x: F32Bits): (y: F32Bits)
    ensures (y < SignBit) <==> !(x < SignBit)
    ensures y % SignBit == x % SignBit
  {
    if x < SignBit then x + SignBit else x - SignBit
  }

  lemma NegateTwice(x: F32Bits)
    ensures Negate(Negate(x)) == x
  {
  }

  /** The fields in declaration order. */
  function Fields(v: Vertex): (fs: seq<F32Bits>)
    ensures |fs| == 8
  {
    [v.px, v.py, v.pz, v.nx, v.ny, v.nz, v.u, v.v]
  }

  function FromFields(fs: seq<F32Bits>): Vertex
    requires |fs| == 8
  {
    Vertex(fs[0], fs[1], fs[2], fs[3], fs[4], fs[5], fs[6], fs[7])
  }

  lemma FieldsRoundTrip(v: Vertex, fs: seq<F32Bits>)
    ensures FromFields(Fields(v)) == v
    ensures |fs| == 8 ==> Fields(FromFields(fs)) == fs
  {
  }

  /** The memory image `write_struct` sends for a vertex. */
  function EncodeVertex(v: Vertex): (bs: seq<Byte>)
    ensures |bs| == VertexSize
  {
    EncodeU32s(Fields(v))
  }

  function EncodeVertices(vs: seq<Vertex>): (bs: seq<Byte>)
    ensures |bs| == VertexSize * |vs|
  {
    if |vs| == 0 then [] else EncodeVertex(vs[0]) + EncodeVertices(vs[1..])
  }

  /** `read_struct::<Vertex>`: one `read_exact` of the whole record. */
  function ReadVertex(input: seq<Byte>): (r: Result<(Vertex, seq<Byte>)>)
    ensures r.Success? <==> VertexSize <= |input|
    ensures r.Success? ==> EncodeVertex(r.value.0) + r.value.1 == input
  {
    var (bytes, rest) :- ReadStruct(VertexSize, input);
    var fields := ReadU32s(8, bytes).value;
    assert EncodeU32s(fields.0) == bytes;
    FieldsRoundTrip(FromFields(fields.0), fields.0);
    Success((FromFields(fields.0), rest))
  }

  lemma ReadEncodedVertex(v: Vertex, rest: seq<Byte>)
    ensures ReadVertex(EncodeVertex(v) + rest) == Success((v, rest))
  {
    var input := EncodeVertex(v) + rest;
    assert input[..VertexSize] == EncodeVertex(v);
    assert input[VertexSize..] == rest;
    ReadEncodedU32s(Fields(v), []);
    assert EncodeVertex(v) + [] == EncodeVertex(v);
    FieldsRoundTrip(v, Fields(v));
  }

  /** `count` consecutive vertex reads, failing at the first short read. */
  function ReadVertices(count: nat, input: seq<Byte>): (r: Result<(seq<Vertex>, seq<Byte>)>)
    ensures r.Success? <==> VertexSize * count <= |input|
    ensures r.Success? ==> |r.value.0| == count && EncodeVertices(r.value.0) + r.value.1 == input
  {
    if count == 0 then Success(([], input))
    else
      var (x, rest) :- ReadVertex(input);
      var (xs, rest') :- ReadVertices(count - 1, rest);
      assert EncodeVertices([x] + xs) == EncodeVertex(x) + EncodeVertices(xs) by {
        assert ([x] + xs)[1..] == xs;
      }
      Success(([x] + xs, rest'))
  }

  lemma {:induction false} ReadEncodedVertices(vs: seq<Vertex>, rest: seq<Byte>)
    ensures ReadVertices(|vs|, EncodeVertices(vs) + rest) == Success((vs, rest))
  {
    if |vs| > 0 {
      var tail := EncodeVertices(vs[1..]) + rest;
      assert EncodeVertices(vs) + rest == EncodeVertex(vs[0]) + tail;
      ReadEncodedVertex(vs[0], tail);
      ReadEncodedVertices(vs[1..], rest);
      assert ReadVertices(|vs| - 1, tail) == Success((vs[1..], rest));
      assert [vs[0]] + vs[1..] == vs;
    } else {
      assert EncodeVertices(vs) + rest == rest;
    }
  }
}
