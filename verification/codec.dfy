/** The raw byte I/O of `src/utilities.rs` (`read_struct`, `write_struct`)
    and the byte image of the plain-old-data values the engine moves through
    it. A value's memory image is its little-endian bytes; a struct's image is
    its fields' images in declaration order, with no padding. */
module Codec {
  import opened Entities
  import opened Wrappers

  type Byte = x: nat | x < 0x100

  /** The four little-endian bytes of a 32-bit value. */
  function EncodeU32(x: U32): (bs: seq<Byte>)
    ensures |bs| == 4
  {
    [x % 0x100, (x / 0x100) % 0x100, (x / 0x1_0000) % 0x100, x / 0x100_0000]
  }

  function DecodeU32(bs: seq<Byte>): U32
    requires |bs| == 4
  {
    bs[0] as nat + 0x100 * (bs[1] as nat) + 0x1_0000 * (bs[2] as nat) + 0x100_0000 * (bs[3] as nat)
  }

  /** Decoding an encoded value gives the value back. */
  lemma DecodeEncodeU32(x: U32)
    ensures DecodeU32(EncodeU32(x)) == x
  {
    var b := EncodeU32(x);
    assert x == x % 0x100 + 0x100 * (x / 0x100);
    assert x / 0x100 == (x / 0x100) % 0x100 + 0x100 * (x / 0x1_0000);
    assert x / 0x1_0000 == (x / 0x1_0000) % 0x100 + 0x100 * (x / 0x100_0000);
  }

  /** Every four bytes are the image of exactly one value. */
  lemma EncodeDecodeU32(bs: seq<Byte>)
    requires |bs| == 4
    ensures EncodeU32(DecodeU32(bs)) == bs
  {
    var x := DecodeU32(bs);
    assert x % 0x100 == bs[0];
    assert x / 0x100 == bs[1] as nat + 0x100 * (bs[2] as nat) + 0x1_0000 * (bs[3] as nat);
    assert x / 0x1_0000 == bs[2] as nat + 0x100 * (bs[3] as nat);
    assert x / 0x100_0000 == bs[3];
  }

  /** The image of a run of 32-bit values: their images back to back. */
  function EncodeU32s(xs: seq<U32>): (bs: seq<Byte>)
    ensures |bs| == 4 * |xs|
  {
    if |xs| == 0 then [] else EncodeU32(xs[0]) + EncodeU32s(xs[1..])
  }

  lemma {:induction false} EncodeU32sAppend(xs: seq<U32>, ys: seq<U32>)
    ensures EncodeU32s(xs + ys) == EncodeU32s(xs) + EncodeU32s(ys)
  {
    if |xs| == 0 {
      assert xs + ys == ys;
    } else {
      assert (xs + ys)[1..] == xs[1..] + ys;
      EncodeU32sAppend(xs[1..], ys);
    }
  }

  /** `read_struct` of a `width`-byte value from a reader positioned at
      `input`: `read_exact` either fills the whole buffer, giving the bytes
      and the remaining input, or fails when the input ends first. */
  function ReadStruct(width: nat, input: seq<Byte>): (r: Result<(seq<Byte>, seq<Byte>)>)
    ensures r.Success? <==> width <= |input|
    ensures r.Success? ==> r.value.0 + r.value.1 == input && |r.value.0| == width
  {
    if |input| < width then Failure("failed to fill whole buffer")
    else Success((input[..width], input[width..]))
  }

  /** `read_struct::<u32>`. */
  function ReadU32(input: seq<Byte>): (r: Result<(U32, seq<Byte>)>)
    ensures r.Success? <==> 4 <= |input|
    ensures r.Success? ==> EncodeU32(r.value.0) + r.value.1 == input
  {
    var (bytes, rest) :- ReadStruct(4, input);
    EncodeDecodeU32(bytes);
    Success((DecodeU32(bytes), rest))
  }

  /** Reading back what was encoded, in front of any further input, gives
      the value and exactly that further input. */
  lemma ReadEncodedU32(x: U32, rest: seq<Byte>)
    ensures ReadU32(EncodeU32(x) + rest) == Success((x, rest))
  {
    DecodeEncodeU32(x);
    assert (EncodeU32(x) + rest)[..4] == EncodeU32(x);
    assert (EncodeU32(x) + rest)[4..] == rest;
  }

  /** `count` consecutive `read_struct::<u32>` calls, failing at the first
      short read. */
  function ReadU32s(count: nat, input: seq<Byte>): (r: Result<(seq<U32>, seq<Byte>)>)
    ensures r.Success? <==> 4 * count <= |input|
    ensures r.Success? ==> |r.value.0| == count && EncodeU32s(r.value.0) + r.value.1 == input
  {
    if count == 0 then Success(([], input))
    else
      var (x, rest) :- ReadU32(input);
      var (xs, rest') :- ReadU32s(count - 1, rest);
      assert EncodeU32s([x] + xs) == EncodeU32(x) + EncodeU32s(xs) by {
        assert ([x] + xs)[1..] == xs;
      }
      Success(([x] + xs, rest'))
  }

  /** The reads consume exactly the values that were written. */
  lemma {:induction false} ReadEncodedU32s(xs: seq<U32>, rest: seq<Byte>)
    ensures ReadU32s(|xs|, EncodeU32s(xs) + rest) == Success((xs, rest))
  {
    if |xs| > 0 {
      var tail := EncodeU32s(xs[1..]) + rest;
      assert EncodeU32s(xs) + rest == EncodeU32(xs[0]) + tail;
      ReadEncodedU32(xs[0], tail);
      ReadEncodedU32s(xs[1..], rest);
      assert ReadU32s(|xs| - 1, tail) == Success((xs[1..], rest));
      assert ReadU32(EncodeU32s(xs) + rest) == Success((xs[0], tail));
      assert [xs[0]] + xs[1..] == xs;
    } else {
      assert EncodeU32s(xs) + rest == rest;
    }
  }

  /** `write_struct`: one `write` call on the value's image. The writer
      reports an error (`None`) or how many leading bytes it took; that count
      is passed through as the result, so a short write is not an error. */
  function WriteStruct(file: seq<Byte>, value: seq<Byte>, accepted: Option<nat>)
    : (r: Result<(seq<Byte>, nat)>)
    ensures r.Failure? <==> accepted.None?
    ensures r.Success? ==>
              && r.value.1 <= |value|
              && r.value.0 == file + value[..r.value.1]
    ensures r.Success? && accepted.value >= |value| ==> r.value == (file + value, |value|)
  {
    match accepted
    case None => Failure("write failed")
    case Some(n) =>
      var taken := if n <= |value| then n else |value|;
      assert value[..|value|] == value;
      Success((file + value[..taken], taken))
  }

  /** A writer that takes fewer bytes than offered still yields `Ok`, and the
      file then holds only a prefix of the value's image. */
  lemma ShortWriteIsSuccess(file: seq<Byte>, value: seq<Byte>, n: nat)
    requires n < |value|
    ensures WriteStruct(file, value, Some(n)).Success?
    ensures |WriteStruct(file, value, Some(n)).value.0| < |file| + |value|
  {
  }
}
