/** `src/bin/model_builder.rs`: converts an ASCII PLY mesh into the engine's
    binary model file. Lines are taken already split into their
    whitespace-separated words. The header is scanned for the
    `element vertex N` count and ends at `end_header`; the next lines are
    vertices until N have been read, and every later line is a face whose
    first word (the corner count) is dropped. Every `unwrap` and indexing
    panic is a `Failure`. Parsing decimal text into an `f32` is a parameter. */
module ModelBuilder {
  import opened Entities
  import opened Wrappers
  import opened Codec
  import opened Vertices
  import opened ModelFile

  /** One more than the largest `usize` (a 64-bit target). */
  const UsizeLimit: nat := 0x1_0000_0000_0000_0000
  /** The largest `isize`: no allocation may be larger. */
  const IsizeMax: nat := 0x7FFF_FFFF_FFFF_FFFF

  /** The words of one line. */
  type Line = seq<string>

  /** `f32::from_str`, returning the bit pattern of the parsed value. */
  type F32Parser = string -> Option<F32Bits>

  predicate IsDigit(c: char) {
    '0' <= c <= '9'
  }

  predicate AllDigits(s: string) {
    forall i :: 0 <= i < |s| ==> IsDigit(s[i])
  }

  function DigitValue(c: char): nat
    requires IsDigit(c)
  {
    c as int - '0' as int
  }

  function DigitChar(d: nat): (c: char)
    requires d < 10
    ensures IsDigit(c) && DigitValue(c) == d
  {
    ('0' as int + d) as char
  }

  /** The value of a run of decimal digits, most significant first. */
  function DigitsValue(s: string): nat
    requires AllDigits(s)
  {
    if |s| == 0 then 0 else DigitsValue(s[..|s| - 1]) * 10 + DigitValue(s[|s| - 1])
  }

  /** `from_str` for an unsigned integer type with `limit` values: an
      optional `+`, then at least one decimal digit and nothing else; a value
      that does not fit is an error. */
  function ParseUnsigned(s: string, limit: nat): (r: Option<nat>)
    ensures r.Some? ==> r.value < limit
    ensures |s| == 0 ==> r.None?
  {
    var digits := if |s| > 0 && s[0] == '+' then s[1..] else s;
    if |digits| == 0 || !AllDigits(digits) then None
    else if DigitsValue(digits) < limit then Some(DigitsValue(digits))
    else None
  }

  function ParseU32(s: string): (r: Option<U32>)
    ensures r.Some? <==> ParseUnsigned(s, U32Limit).Some?
    ensures r.Some? ==> r.value == ParseUnsigned(s, U32Limit).value
  {
    match ParseUnsigned(s, U32Limit)
    case Some(n) => Some(n)
    case None => None
  }

  /** The shortest decimal text of `n`, the form `Display` produces. */
  function FormatDecimal(n: nat): (s: string)
    ensures |s| > 0 && AllDigits(s)
  {
    if n < 10 then [DigitChar(n)] else FormatDecimal(n / 10) + [DigitChar(n % 10)]
  }

  lemma {:induction false} DigitsValueFormat(n: nat)
    ensures DigitsValue(FormatDecimal(n)) == n
  {
    if n >= 10 {
      var s := FormatDecimal(n);
      assert s[..|s| - 1] == FormatDecimal(n / 10);
      DigitsValueFormat(n / 10);
    }
  }

  /** Parsing the decimal text of any value that fits gives the value back;
      a value that does not fit is rejected. */
  lemma ParseFormatted(n: nat, limit: nat)
    ensures ParseUnsigned(FormatDecimal(n), limit) == if n < limit then Some(n) else None
  {
    DigitsValueFormat(n);
  }

  /** A sign is never accepted by the unsigned parser except a single
      leading `+`. */
  lemma ParseRejectsMinus(s: string, limit: nat)
    ensures ParseUnsigned("-" + s, limit).None?
  {
    assert !IsDigit(("-" + s)[0]);
  }

  /** Applies `parse` to every word, failing at the first word it rejects. */
  function ParseAll<T>(words: seq<string>, parse: string -> Option<T>): (r: Result<seq<T>>)
    ensures r.Success? <==> forall i :: 0 <= i < |words| ==> parse(words[i]).Some?
    ensures r.Success? ==>
              |r.value| == |words| && forall i :: 0 <= i < |words| ==> r.value[i] == parse(words[i]).value
  {
    if |words| == 0 then Success([])
    else
      match parse(words[0])
      case None => Failure("called `Result::unwrap()` on an `Err` value")
      case Some(x) =>
        var rest :- ParseAll(words[1..], parse);
        assert forall i :: 1 <= i < |words| ==> words[i] == words[1..][i - 1];
        Success([x] + rest)
  }

  /** The loop's local state. */
  datatype PlyState = PlyState(
    headerDone: bool,
    verticesDone: bool,
    vertexCount: nat,
    vertices: seq<Vertex>,
    indices: seq<U32>)

  const Start: PlyState := PlyState(false, false, 0, [], [])

  /** The phases never run backwards, nothing is collected before the
      header ends, faces only follow a complete vertex list, and the vertex
      list never passes a non-zero declared count. */
  predicate Inv(st: PlyState) {
    && (!st.headerDone ==> !st.verticesDone && st.vertices == [])
    && (!st.verticesDone ==> st.indices == [])
    && (st.verticesDone ==> st.headerDone && st.vertexCount > 0 && |st.vertices| == st.vertexCount)
    && (st.headerDone && !st.verticesDone ==> st.vertexCount == 0 || |st.vertices| < st.vertexCount)
  }

  /** A header line. `words[0]` must exist; `words[1]` is looked at only
      after `element`, and `words[2]` only after `element vertex`. The
      declared count is reserved at once with `reserve_exact`, which panics
      with a capacity overflow when that many vertices would take more than
      `isize::MAX` bytes. */
  function HeaderLine(st: PlyState, words: Line): (r: Result<PlyState>)
    requires !st.headerDone
    ensures r.Success? <==>
              && |words| > 0
              && (words[0] == "element" ==> |words| > 1)
              && (words[0] == "element" && words[1] == "vertex" ==>
                    && |words| > 2 && ParseUnsigned(words[2], UsizeLimit).Some?
                    && ParseUnsigned(words[2], UsizeLimit).value * VertexSize <= IsizeMax)
    ensures r.Success? && words[0] == "element" && words[1] == "vertex" ==>
              r.value == st.(vertexCount := ParseUnsigned(words[2], UsizeLimit).value)
    ensures r.Success? && words[0] == "end_header" ==> r.value == st.(headerDone := true)
    ensures r.Success? && words[0] != "end_header" && !(words[0] == "element" && words[1] == "vertex") ==>
              r.value == st
  {
    if |words| == 0 then Failure("index out of bounds")
    else if words[0] == "element" && (|words| < 2 || words[1] == "vertex") then
      if |words| < 3 then Failure("index out of bounds")
      else
        match ParseUnsigned(words[2], UsizeLimit)
        case None => Failure("Failed to get vertex count")
        case Some(n) =>
          if n * VertexSize > IsizeMax then Failure("capacity overflow")
          else Success(st.(vertexCount := n))
    else if words[0] == "end_header" then Success(st.(headerDone := true))
    else Success(st)
  }

  /** A declared count that parses as a `usize` but is too large to
      reserve stops the conversion. */
  lemma HugeCountOverflows(st: PlyState)
    requires !st.headerDone
    ensures var n := IsizeMax / VertexSize + 1;
            && ParseUnsigned(FormatDecimal(n), UsizeLimit) == Some(n)
            && HeaderLine(st, ["element", "vertex", FormatDecimal(n)]).Failure?
  {
    ParseFormatted(IsizeMax / VertexSize + 1, UsizeLimit);
  }

  /** A vertex line: eight numbers, position, normal and texture
      coordinates, with the texture `v` negated. The phase ends when the list
      reaches the declared count. */
  function VertexLine(st: PlyState, words: Line, parseF32: F32Parser): (r: Result<PlyState>)
    ensures r.Success? <==>
              |words| >= 8 && forall i :: 0 <= i < 8 ==> parseF32(words[i]).Some?
    ensures r.Success? ==>
              var f := (i: nat) requires i < 8 => parseF32(words[i]).value;
              var v := Vertex(f(0), f(1), f(2), f(3), f(4), f(5), f(6), Negate(f(7)));
              r.value == st.(vertices := st.vertices + [v],
                             verticesDone := |st.vertices| + 1 == st.vertexCount)
  {
    if |words| < 8 then Failure("index out of bounds")
    else
      var fs :- ParseAll(words[..8], parseF32);
      var v := Vertex(fs[0], fs[1], fs[2], fs[3], fs[4], fs[5], fs[6], Negate(fs[7]));
      var vs := st.vertices + [v];
      Success(st.(vertices := vs, verticesDone := |vs| == st.vertexCount))
  }

  /** A face line: `words.remove(0)` (which panics on an empty line), then
      every remaining word is an index. */
  function FaceLine(st: PlyState, words: Line): (r: Result<PlyState>)
    ensures r.Success? <==> |words| > 0 && forall i :: 1 <= i < |words| ==> ParseU32(words[i]).Some?
    ensures r.Success? ==>
              && r.value.(indices := st.indices) == st
              && |r.value.indices| == |st.indices| + |words| - 1
              && r.value.indices[..|st.indices|] == st.indices
              && forall i :: 1 <= i < |words| ==>
                   r.value.indices[|st.indices| + i - 1] == ParseU32(words[i]).value
  {
    if |words| == 0 then Failure("removal index should be < len")
    else
      var parsed :- ParseAll(words[1..], ParseU32);
      assert forall i :: 1 <= i < |words| ==> words[i] == words[1..][i - 1];
      Success(st.(indices := st.indices + parsed))
  }

  /** One pass of the loop body, dispatching on the phase. */
  function Step(st: PlyState, words: Line, parseF32: F32Parser): (r: Result<PlyState>)
    requires Inv(st)
    ensures r.Success? ==> Inv(r.value)
  {
    if !st.headerDone then HeaderLine(st, words)
    else if !st.verticesDone then VertexLine(st, words, parseF32)
    else FaceLine(st, words)
  }

  /** The loop over all lines, stopping at the first panic. */
  function Run(st: PlyState, lines: seq<Line>, parseF32: F32Parser): (r: Result<PlyState>)
    requires Inv(st)
    ensures r.Success? ==> Inv(r.value)
    decreases |lines|
  {
    if |lines| == 0 then Success(st)
    else
      var st' :- Step(st, lines[0], parseF32);
      Run(st', lines[1..], parseF32)
  }

  /** The vertices and indices collected from a whole file. */
  function Collect(lines: seq<Line>, parseF32: F32Parser): (r: Result<(seq<Vertex>, seq<U32>)>)
  {
    var st :- Run(Start, lines, parseF32);
    Success((st.vertices, st.indices))
  }

  /** Once any index has been read, exactly the declared number of vertices
      were collected; and there are never more vertices than a non-zero
      declared count. */
  lemma CollectedCounts(lines: seq<Line>, parseF32: F32Parser)
    requires Run(Start, lines, parseF32).Success?
    ensures var st := Run(Start, lines, parseF32).value;
            && (|st.indices| > 0 ==> |st.vertices| == st.vertexCount)
            && (st.vertexCount > 0 ==> |st.vertices| <= st.vertexCount)
  {
  }

  /** With a declared count of zero the vertex phase never ends: every line
      after the header is read as a vertex and no face is ever read. */
  lemma {:induction false} ZeroCountNeverEndsVertices(st: PlyState, lines: seq<Line>, parseF32: F32Parser)
    requires Inv(st) && st.headerDone && st.vertexCount == 0
    requires Run(st, lines, parseF32).Success?
    ensures Run(st, lines, parseF32).value.indices == []
    ensures |Run(st, lines, parseF32).value.vertices| == |st.vertices| + |lines|
    decreases |lines|
  {
    if |lines| > 0 {
      var st' := Step(st, lines[0], parseF32).value;
      assert !st.verticesDone;
      assert |st'.vertices| == |st.vertices| + 1 && st'.vertexCount == 0;
      ZeroCountNeverEndsVertices(st', lines[1..], parseF32);
    }
  }

  /** The file `main` writes: always `test`, because the line that would
      name it after the second argument is commented out. */
  const OutputPath: string := "test"

  /** `main`: no output unless there are exactly two arguments and the PLY
      file exists; otherwise the path and bytes of the output file, or the
      panic that stopped the conversion. The file is read from `files`,
      already split into lines of words; creating the output file is taken
      to succeed. What is written is exactly what `load_model` reads back as
      the collected vertices and indices, as long as both counts fit in a
      `u32`. */
  function ConvertModel(args: seq<string>, files: map<string, seq<Line>>, parseF32: F32Parser)
    : (r: Result<Option<(string, seq<Byte>)>>)
    ensures |args| != 3 || args[1] !in files ==> r == Success(None)
    ensures |args| == 3 && args[1] in files ==>
              (r.Success? <==> Collect(files[args[1]], parseF32).Success?) && (r.Success? ==> r.value.Some?)
    ensures r.Success? && r.value.Some? ==>
              var (vs, ixs) := Collect(files[args[1]], parseF32).value;
              && r.value.value.0 == OutputPath
              && |r.value.value.1| == 8 + VertexSize * |vs| + 4 * |ixs|
              && (|vs| < U32Limit && |ixs| < U32Limit ==>
                    ReadModelFile(r.value.value.1) == Collect(files[args[1]], parseF32))
  {
    if |args| != 3 || args[1] !in files then Success(None)
    else
      var (vs, ixs) :- Collect(files[args[1]], parseF32);
      assert |vs| < U32Limit && |ixs| < U32Limit ==> ReadModelFile(ModelFileImage(vs, ixs)) == Success((vs, ixs)) by {
        if |vs| < U32Limit && |ixs| < U32Limit {
          ModelFileReadsBack(vs, ixs);
        }
      }
      Success(Some((OutputPath, ModelFileImage(vs, ixs))))
  }
}
