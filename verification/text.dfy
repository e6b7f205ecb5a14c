/** `src/ecs/components/text.rs`: a string drawn with a bitmap font, in the
    shared component store. Drawing lays the characters out with a cursor
    that starts at the owner's position: every character of the font emits
    one render job showing its cell of the font texture, a space only moves
    the cursor, a line break returns it to the owner's x one row down, and
    any other character is skipped without moving the cursor. */
module Texts {
  import opened Entities
  import opened Wrappers
  import opened VecMath
  import opened ComponentStore
  import opened Transformation
  import opened Models
  import opened Textures
  import opened Renderer

  datatype TextData = TextData(
    shader: U32,
    model: ModelInfo,
    textureSet: nat,
    characterSize: Vec2,
    uvScale: Vec2,
    tint: Vec4,
    emissiveTint: Vec4,
    offset: Vec3,
    text: string)

  datatype TextBuilder = TextBuilder(
    shader: Option<string>,
    model: Option<string>,
    textureSet: Option<(string, string)>,
    uvScale: Option<Vec2>,
    tint: Option<Vec4>,
    emissiveTint: Option<Vec4>,
    offset: Option<Vec3>,
    text: Option<string>)

  type TextSystem = Store<TextData>

  /** The size `build` finally gives every character, whatever the font
      texture's size. */
  const CharacterSize: Vec2 := Vec2(6.0, 6.0)

  /** The font texture is a grid of 10 by 10 cells. */
  const CellSize: real := 0.1

  function NewBuilder(): TextBuilder {
    TextBuilder(None, None, None, None, None, None, None, None)
  }

  function ShaderName(b: TextBuilder): string {
    b.shader.GetOr("test")
  }

  function ModelName(b: TextBuilder): string {
    b.model.GetOr("cube")
  }

  function TextureSetNames(b: TextBuilder): (string, string) {
    b.textureSet.GetOr(("font.png", "black.png"))
  }

  /** `build`, once the renderer has resolved the three names. The texture
      set's sizes are asked for and a character size derived from them, but
      that value is overwritten by the fixed 6 by 6 before the record is
      returned. */
  function Build(b: TextBuilder, res: Resources): (d: TextData)
    ensures d.shader == res.shader && d.model == res.model && d.textureSet == res.textureSet
    ensures d.characterSize == CharacterSize
  {
    TextData(res.shader, res.model, res.textureSet, CharacterSize,
             b.uvScale.GetOr(One2), b.tint.GetOr(One4), b.emissiveTint.GetOr(Zero4),
             b.offset.GetOr(Zero3), b.text.GetOr("Text"))
  }

  lemma BuilderDefaults(res: Resources)
    ensures ShaderName(NewBuilder()) == "test" && ModelName(NewBuilder()) == "cube"
    ensures TextureSetNames(NewBuilder()) == ("font.png", "black.png")
    ensures Build(NewBuilder(), res) ==
              TextData(res.shader, res.model, res.textureSet, CharacterSize,
                       One2, One4, Zero4, Zero3, "Text")
  {
  }

  /** `build` with the lookups through the renderer. */
  function BuildWithRenderer(b: TextBuilder, rs: RendererState,
                             files: map<string, seq<Codec.Byte>>, images: Images,
                             vao: U32, albedoId: U32, emissiveId: U32): (r: Result<(RendererState, TextData)>)
    requires UniqueModelVaos(rs.models)
    requires forall n :: n in rs.models.models ==> rs.models.models[n].vao != vao
    ensures ShaderName(b) !in rs.shaders ==> r.Failure?
    ensures var res := Resolve(rs, ShaderName(b), ModelName(b), TextureSetNames(b).0, TextureSetNames(b).1,
                               files, images, vao, albedoId, emissiveId);
            && (r.Success? <==> res.Success?)
            && (r.Success? ==> r.value == (res.value.0, Build(b, res.value.1)))
  {
    var names := TextureSetNames(b);
    var (rs', res) :- Resolve(rs, ShaderName(b), ModelName(b), names.0, names.1,
                              files, images, vao, albedoId, emissiveId);
    Success((rs', Build(b, res)))
  }

  /** `add_text_to_entity`: ignored when the entity already has a text or
      has no transformation; otherwise the built record is appended. */
  function AddText(xs: TextSystem, e: Entity, ts: TransformationSystem, d: TextData): (r: TextSystem)
    requires Valid(xs)
    ensures Valid(r)
    ensures Has(xs, e) || !Has(ts, e) ==> r == xs
    ensures !Has(xs, e) && Has(ts, e) ==> Has(r, e) && Get(r, e) == d && |r.data| == |xs.data| + 1
    ensures forall x :: x != e ==> (Has(r, x) <==> Has(xs, x))
    ensures forall x :: x != e && Has(xs, x) ==> Get(r, x) == Get(xs, x)
  {
    if Has(xs, e) || !Has(ts, e) then xs else Append(xs, e, d)
  }

  /** `add_text_to_entity` with the build it performs: the builder is
      resolved through the renderer only in the branch that appends, so an
      ignored add leaves the renderer as it was and cannot panic on an
      unknown shader. */
  function AddTextWithRenderer(xs: TextSystem, e: Entity, ts: TransformationSystem, b: TextBuilder,
                   rs: RendererState, files: map<string, seq<Codec.Byte>>, images: Images,
                   vao: U32, albedoId: U32, emissiveId: U32): (r: Result<(RendererState, TextSystem)>)
    requires Valid(xs)
    requires UniqueModelVaos(rs.models)
    requires forall n :: n in rs.models.models ==> rs.models.models[n].vao != vao
    ensures Has(xs, e) || !Has(ts, e) ==> r == Success((rs, xs))
    ensures !Has(xs, e) && Has(ts, e) ==>
              var built := BuildWithRenderer(b, rs, files, images, vao, albedoId, emissiveId);
              && (r.Success? <==> built.Success?)
              && (r.Success? ==>
                    && r.value.0 == built.value.0
                    && Valid(r.value.1) && Has(r.value.1, e) && Get(r.value.1, e) == built.value.1
                    && |r.value.1.data| == |xs.data| + 1
                    && (forall x :: x != e ==> (Has(r.value.1, x) <==> Has(xs, x)))
                    && (forall x :: x != e && Has(xs, x) ==> Get(r.value.1, x) == Get(xs, x)))
  {
    if Has(xs, e) || !Has(ts, e) then Success((rs, xs))
    else
      var (rs', d) :- BuildWithRenderer(b, rs, files, images, vao, albedoId, emissiveId);
      Success((rs', Append(xs, e, d)))
  }

  /** An add that is ignored succeeds untouched even when building would
      have failed on an unknown shader. */
  lemma IgnoredAddSkipsBuild(xs: TextSystem, e: Entity, ts: TransformationSystem, b: TextBuilder,
                   rs: RendererState, files: map<string, seq<Codec.Byte>>, images: Images,
                   vao: U32, albedoId: U32, emissiveId: U32)
    requires Valid(xs) && Has(xs, e)
    requires UniqueModelVaos(rs.models)
    requires forall n :: n in rs.models.models ==> rs.models.models[n].vao != vao
    requires ShaderName(b) !in rs.shaders
    ensures BuildWithRenderer(b, rs, files, images, vao, albedoId, emissiveId).Failure?
    ensures AddTextWithRenderer(xs, e, ts, b, rs, files, images, vao, albedoId, emissiveId) == Success((rs, xs))
  {
  }

  /** `remove_text_from_entity`: the shared swap-remove. */
  function RemoveText(xs: TextSystem, e: Entity): (r: TextSystem)
    requires Valid(xs)
    ensures Valid(r)
    ensures e == Null() || !Has(xs, e) ==> r == xs
    ensures e != Null() && Has(xs, e) ==> !Has(r, e) && |r.data| == |xs.data| - 1
    ensures forall x :: x != e ==> (Has(r, x) <==> Has(xs, x))
    ensures forall x :: x != e && Has(xs, x) ==> Get(r, x) == Get(xs, x)
  {
    RemoveSpec(xs, e);
    Remove(xs, e)
  }

  /** `set_tint_color`: a no-op for the null or an absent entity. */
  function SetTint(xs: TextSystem, e: Entity, color: Vec4): (r: TextSystem)
    requires Valid(xs)
    ensures Valid(r) && r.index == xs.index && Owners(r) == Owners(xs)
    ensures e == Null() || !Has(xs, e) ==> r == xs
    ensures e != Null() && Has(xs, e) ==> Get(r, e) == Get(xs, e).(tint := color)
    ensures forall x :: x != e && Has(xs, x) ==> Get(r, x) == Get(xs, x)
  {
    GuardedUpdate(xs, e, (d: TextData) => d.(tint := color))
  }

  /** `set_text`: a no-op for the null or an absent entity. */
  function SetText(xs: TextSystem, e: Entity, s: string): (r: TextSystem)
    requires Valid(xs)
    ensures Valid(r) && r.index == xs.index && Owners(r) == Owners(xs)
    ensures e == Null() || !Has(xs, e) ==> r == xs
    ensures e != Null() && Has(xs, e) ==> Get(r, e) == Get(xs, e).(text := s)
    ensures forall x :: x != e && Has(xs, x) ==> Get(r, x) == Get(xs, x)
  {
    GuardedUpdate(xs, e, (d: TextData) => d.(text := s))
  }

  // ---------------------------------------------------------------------
  // The font table

  /** A (column, row) cell of the font texture. */
  type Cell = (nat, nat)

  /** The cells that hold a character: rows 1 to 7 are full, row 8 holds
      three characters. */
  predicate IsFontCell(cell: Cell) {
    (1 <= cell.1 <= 7 && cell.0 < 10) || (cell.1 == 8 && cell.0 < 3)
  }

  /** The font's layout by row: lower-case letters over three rows (the
      third finished with `, . : ;`), upper-case letters likewise (finished
      with `! ? ' "`), the digits, then `- + %`. */
  function GlyphCell(c: char): Option<Cell> {
    if 'a' <= c <= 'j' then Some(((c as int - 'a' as int), 1))
    else if 'k' <= c <= 't' then Some(((c as int - 'k' as int), 2))
    else if 'u' <= c <= 'z' then Some(((c as int - 'u' as int), 3))
    else if c == ',' then Some((6, 3))
    else if c == '.' then Some((7, 3))
    else if c == ':' then Some((8, 3))
    else if c == ';' then Some((9, 3))
    else if 'A' <= c <= 'J' then Some(((c as int - 'A' as int), 4))
    else if 'K' <= c <= 'T' then Some(((c as int - 'K' as int), 5))
    else if 'U' <= c <= 'Z' then Some(((c as int - 'U' as int), 6))
    else if c == '!' then Some((6, 6))
    else if c == '?' then Some((7, 6))
    else if c == '\'' then Some((8, 6))
    else if c == '"' then Some((9, 6))
    else if '0' <= c <= '9' then Some(((c as int - '0' as int), 7))
    else if c == '-' then Some((0, 8))
    else if c == '+' then Some((1, 8))
    else if c == '%' then Some((2, 8))
    else None
  }

  /** The character a cell of the font shows, read off the texture. */
  function CellGlyph(cell: Cell): (c: Option<char>)
    ensures c.Some? <==> IsFontCell(cell)
  {
    var (col, row) := cell;
    if col >= 10 then None
    else if row == 1 then Some(('a' as int + col) as char)
    else if row == 2 then Some(('k' as int + col) as char)
    else if row == 3 then (if col < 6 then Some(('u' as int + col) as char) else Some(",.:;"[col - 6]))
    else if row == 4 then Some(('A' as int + col) as char)
    else if row == 5 then Some(('K' as int + col) as char)
    else if row == 6 then (if col < 6 then Some(('U' as int + col) as char) else Some("!?'\""[col - 6]))
    else if row == 7 then Some(('0' as int + col) as char)
    else if row == 8 && col < 3 then Some("-+%"[col])
    else None
  }

  /** Every character the table knows lands on a font cell that shows that
      very character. */
  lemma GlyphCellShowsGlyph(c: char)
    ensures GlyphCell(c).Some? ==> IsFontCell(GlyphCell(c).value) && CellGlyph(GlyphCell(c).value) == Some(c)
  {
  }

  /** Every font cell is reached by the character it shows: the table covers
      the whole font. */
  lemma CellGlyphIsMapped(cell: Cell)
    requires IsFontCell(cell)
    ensures GlyphCell(CellGlyph(cell).value) == Some(cell)
  {
  }

  /** Distinct characters never share a cell. */
  lemma GlyphCellInjective(c1: char, c2: char)
    requires GlyphCell(c1).Some? && GlyphCell(c1) == GlyphCell(c2)
    ensures c1 == c2
  {
    GlyphCellShowsGlyph(c1);
    GlyphCellShowsGlyph(c2);
  }

  /** The control characters the layout treats specially have no cell. */
  lemma ControlCharactersHaveNoCell()
    ensures GlyphCell('\n').None? && GlyphCell(' ').None?
  {
  }

  /** The texture window offset of a cell. */
  function UvOffset(cell: Cell): Vec2 {
    Vec2(CellSize * cell.0 as real, CellSize * cell.1 as real)
  }

  // ---------------------------------------------------------------------
  // Layout

  /** The characters that get a job, in order. */
  function Glyphs(s: string): (g: string)
    ensures |g| <= |s|
    ensures forall k :: 0 <= k < |g| ==> GlyphCell(g[k]).Some?
  {
    if |s| == 0 then []
    else if GlyphCell(s[0]).Some? then [s[0]] + Glyphs(s[1..])
    else Glyphs(s[1..])
  }

  /** The horizontal step after a glyph or a space. */
  function Advance(p: Vec3, cs: Vec2): (q: Vec3)
    ensures q.y == p.y && q.z == p.z
  {
    p.(x := p.x + (cs.x * 2.0 + 2.0))
  }

  /** The line break: back to the owner's x, one character height plus one
      down. */
  function LineBreak(p: Vec3, home: real, cs: Vec2): (q: Vec3)
    ensures q.x == home && q.z == p.z
  {
    Vec3(home, p.y - (cs.y + 1.0), p.z)
  }

  /** The cursor after one character. */
  function Step(p: Vec3, home: real, cs: Vec2, c: char): Vec3 {
    if GlyphCell(c).Some? || c == ' ' then Advance(p, cs)
    else if c == '\n' then LineBreak(p, home, cs)
    else p
  }

  /** Where the cursor ends after a string. */
  function EndCursor(s: string, p: Vec3, home: real, cs: Vec2): Vec3
    decreases |s|
  {
    if |s| == 0 then p else EndCursor(s[1..], Step(p, home, cs, s[0]), home, cs)
  }

  /** A character placed by the layout: where it goes and which cell it
      shows. */
  datatype Placed = Placed(at: Vec3, cell: Cell)

  /** The inner loop of `draw_all`: one placement for each character that
      has a cell, in the order of the string, each at the cursor before the
      character is consumed. */
  function Layout(s: string, p: Vec3, home: real, cs: Vec2): (ps: seq<Placed>)
    decreases |s|
    ensures |ps| == |Glyphs(s)|
    ensures forall k :: 0 <= k < |ps| ==> GlyphCell(Glyphs(s)[k]) == Some(ps[k].cell)
  {
    if |s| == 0 then []
    else
      var rest := Layout(s[1..], Step(p, home, cs, s[0]), home, cs);
      match GlyphCell(s[0])
      case Some(cell) => [Placed(p, cell)] + rest
      case None => rest
  }

  /** Laying out a concatenation lays out the second part from where the
      first left the cursor. */
  lemma {:induction false} LayoutAppend(s1: string, s2: string, p: Vec3, home: real, cs: Vec2)
    decreases |s1|
    ensures Layout(s1 + s2, p, home, cs) ==
              Layout(s1, p, home, cs) + Layout(s2, EndCursor(s1, p, home, cs), home, cs)
  {
    if |s1| == 0 {
      assert s1 + s2 == s2;
    } else {
      assert (s1 + s2)[1..] == s1[1..] + s2;
      assert (s1 + s2)[0] == s1[0];
      LayoutAppend(s1[1..], s2, Step(p, home, cs, s1[0]), home, cs);
    }
  }

  /** Every placement is on the cursor's row and depth, none left of it. */
  predicate OnRowFrom(ps: seq<Placed>, p: Vec3) {
    forall k :: 0 <= k < |ps| ==> ps[k].at.y == p.y && ps[k].at.z == p.z && ps[k].at.x >= p.x
  }

  /** The placements run strictly left to right. */
  predicate LeftToRight(ps: seq<Placed>) {
    forall j, k :: 0 <= j < k < |ps| ==> ps[j].at.x < ps[k].at.x
  }

  /** On one line (no line break) every placement keeps the cursor's row
      and depth, none lies left of the start, and with a positive step the
      placements run strictly left to right, so no two characters overlap. */
  lemma {:induction false} SingleLine(s: string, p: Vec3, home: real, cs: Vec2)
    requires forall k :: 0 <= k < |s| ==> s[k] != '\n'
    requires cs.x * 2.0 + 2.0 > 0.0
    decreases |s|
    ensures OnRowFrom(Layout(s, p, home, cs), p)
    ensures LeftToRight(Layout(s, p, home, cs))
  {
    if |s| > 0 {
      var q := Step(p, home, cs, s[0]);
      assert q.y == p.y && q.z == p.z && q.x >= p.x;
      SingleLine(s[1..], q, home, cs);
      var rest := Layout(s[1..], q, home, cs);
      assert OnRowFrom(rest, q) && LeftToRight(rest);
      var ps := Layout(s, p, home, cs);
      if GlyphCell(s[0]).Some? {
        assert q.x > p.x;
        assert ps == [Placed(p, GlyphCell(s[0]).value)] + rest;
        assert forall k :: 1 <= k < |ps| ==> ps[k] == rest[k - 1];
        assert ps[0].at == p;
      } else {
        assert ps == rest;
      }
    }
  }

  /** With a positive line height nothing is ever placed above the start. */
  lemma {:induction false} NeverAboveStart(s: string, p: Vec3, home: real, cs: Vec2)
    requires cs.y + 1.0 > 0.0
    decreases |s|
    ensures forall k :: 0 <= k < |Layout(s, p, home, cs)| ==> Layout(s, p, home, cs)[k].at.y <= p.y
    ensures EndCursor(s, p, home, cs).y <= p.y
  {
    if |s| > 0 {
      var q := Step(p, home, cs, s[0]);
      assert q.y <= p.y;
      NeverAboveStart(s[1..], q, home, cs);
    }
  }

  /** Everything after a line break sits strictly below everything before
      it. */
  lemma LineBreakSeparates(s1: string, s2: string, p: Vec3, home: real, cs: Vec2)
    requires cs.y + 1.0 > 0.0
    requires forall k :: 0 <= k < |s1| ==> s1[k] != '\n'
    ensures var before := Layout(s1, p, home, cs);
            var after := Layout(s2, EndCursor(s1 + "\n", p, home, cs), home, cs);
            && Layout(s1 + "\n" + s2, p, home, cs) == before + after
            && forall j, k :: 0 <= j < |before| && 0 <= k < |after| ==> after[k].at.y < before[j].at.y
  {
    var e2 := EndCursor(s1 + "\n", p, home, cs);
    BreakClosesLine(s1, p, home, cs);
    LayoutAppend(s1 + "\n", s2, p, home, cs);
    NeverAboveStart(s2, e2, home, cs);
  }

  /** A break after a line without breaks places nothing, and leaves the
      cursor below the line, whose glyphs all sit on the starting row. */
  lemma BreakClosesLine(s1: string, p: Vec3, home: real, cs: Vec2)
    requires cs.y + 1.0 > 0.0
    requires forall k :: 0 <= k < |s1| ==> s1[k] != '\n'
    ensures Layout(s1 + "\n", p, home, cs) == Layout(s1, p, home, cs)
    ensures EndCursor(s1 + "\n", p, home, cs).y < p.y
    ensures forall k :: 0 <= k < |Layout(s1, p, home, cs)| ==> Layout(s1, p, home, cs)[k].at.y == p.y
  {
    SingleLine'(s1, p, home, cs);
    BreakPlacesNothing(s1, p, home, cs);
    BreakLowersCursor(s1, p, home, cs);
  }

  /** A trailing line break adds no glyph. */
  lemma BreakPlacesNothing(s1: string, p: Vec3, home: real, cs: Vec2)
    ensures Layout(s1 + "\n", p, home, cs) == Layout(s1, p, home, cs)
  {
    LayoutAppend(s1, "\n", p, home, cs);
    assert Layout("\n", EndCursor(s1, p, home, cs), home, cs) == [];
  }

  /** A trailing line break moves the cursor one row below the line's end. */
  lemma BreakLowersCursor(s1: string, p: Vec3, home: real, cs: Vec2)
    requires cs.y + 1.0 > 0.0
    ensures EndCursor(s1 + "\n", p, home, cs).y < EndCursor(s1, p, home, cs).y
  {
    EndCursorAppend(s1, "\n", p, home, cs);
    assert EndCursor(s1 + "\n", p, home, cs) == LineBreak(EndCursor(s1, p, home, cs), home, cs);
  }

  /** The row-keeping half of `SingleLine`, for any character width. */
  lemma {:induction false} SingleLine'(s: string, p: Vec3, home: real, cs: Vec2)
    requires forall k :: 0 <= k < |s| ==> s[k] != '\n'
    decreases |s|
    ensures forall k :: 0 <= k < |Layout(s, p, home, cs)| ==> Layout(s, p, home, cs)[k].at.y == p.y
    ensures EndCursor(s, p, home, cs).y == p.y
  {
    if |s| > 0 {
      SingleLine'(s[1..], Step(p, home, cs, s[0]), home, cs);
    }
  }

  lemma {:induction false} EndCursorAppend(s1: string, s2: string, p: Vec3, home: real, cs: Vec2)
    decreases |s1|
    ensures EndCursor(s1 + s2, p, home, cs) == EndCursor(s2, EndCursor(s1, p, home, cs), home, cs)
  {
    if |s1| == 0 {
      assert s1 + s2 == s2;
    } else {
      assert (s1 + s2)[1..] == s1[1..] + s2;
      assert (s1 + s2)[0] == s1[0];
      EndCursorAppend(s1[1..], s2, Step(p, home, cs, s1[0]), home, cs);
    }
  }

  // ---------------------------------------------------------------------
  // Drawing

  /** The job for one placed character. */
  function GlyphJob(d: TextData, t: TransformationData, g: Placed): RenderJob {
    RenderJob(d.model, d.shader, d.textureSet,
              Vec3(d.characterSize.x, d.characterSize.y, 1.0),
              Vec2(CellSize, CellSize), UvOffset(g.cell),
              Add(g.at, d.offset), t.pivot, t.rotation, d.tint, d.emissiveTint)
  }

  /** The jobs one text emits when its owner is placed by `t`. */
  function JobsFor(d: TextData, t: TransformationData): seq<RenderJob> {
    var ps := Layout(d.text, t.position, t.position.x, d.characterSize);
    seq(|ps|, k requires 0 <= k < |ps| => GlyphJob(d, t, ps[k]))
  }

  /** One job per character of the font in the string, in order: each shows
      that character's cell through a one-cell window, at the character's
      size, at the laid-out cursor shifted by the text's offset. */
  lemma JobsForSpec(d: TextData, t: TransformationData)
    ensures var jobs := JobsFor(d, t);
            && |jobs| == |Glyphs(d.text)|
            && forall k :: 0 <= k < |jobs| ==>
                 && jobs[k].uvOffset == UvOffset(GlyphCell(Glyphs(d.text)[k]).value)
                 && jobs[k].uvSize == Vec2(CellSize, CellSize)
                 && jobs[k].scale == Vec3(d.characterSize.x, d.characterSize.y, 1.0)
                 && jobs[k].shader == d.shader && jobs[k].model == d.model && jobs[k].textures == d.textureSet
                 && jobs[k].tint == d.tint && jobs[k].emissiveTint == d.emissiveTint
                 && jobs[k].pivot == t.pivot && jobs[k].rotation == t.rotation
                 && jobs[k].position == Add(Layout(d.text, t.position, t.position.x, d.characterSize)[k].at, d.offset)
  {
  }

  /** A text without characters of the font draws nothing. */
  lemma {:induction false} NoGlyphsNoJobs(s: string)
    requires forall k :: 0 <= k < |s| ==> GlyphCell(s[k]).None?
    decreases |s|
    ensures Glyphs(s) == []
  {
    if |s| > 0 {
      NoGlyphsNoJobs(s[1..]);
    }
  }

  /** The number of characters of the font the active texts hold. */
  function GlyphTotal(data: seq<Record<TextData>>, em: EntityManager): nat
    requires RecordsInRange(data, em)
  {
    if |data| == 0 then 0
    else
      var last := data[|data| - 1];
      GlyphTotal(data[..|data| - 1], em) + if EntityIsActive(em, last.owner) then |Glyphs(last.body.text)| else 0
  }

  /** The jobs of the active texts, each text's jobs in turn. */
  function TextJobs(data: seq<Record<TextData>>, em: EntityManager, ts: TransformationSystem): seq<RenderJob>
    requires Valid(ts) && Placeable(data, em, ts)
  {
    if |data| == 0 then []
    else
      var last := data[|data| - 1];
      var rest := TextJobs(data[..|data| - 1], em, ts);
      if EntityIsActive(em, last.owner) then rest + JobsFor(last.body, Get(ts, last.owner)) else rest
  }

  /** The active texts emit exactly one job per character of the font they
      hold. */
  lemma {:induction false} TextJobsCount(data: seq<Record<TextData>>, em: EntityManager, ts: TransformationSystem)
    requires Valid(ts) && Placeable(data, em, ts)
    ensures |TextJobs(data, em, ts)| == GlyphTotal(data, em)
  {
    if |data| > 0 {
      var last := data[|data| - 1];
      TextJobsCount(data[..|data| - 1], em, ts);
      if EntityIsActive(em, last.owner) {
        JobsForSpec(last.body, Get(ts, last.owner));
      }
    }
  }

  /** Inactive owners draw nothing: the jobs are those of the active records
      alone. */
  lemma {:induction false} TextJobsActiveOnly(data: seq<Record<TextData>>, em: EntityManager, ts: TransformationSystem)
    requires Valid(ts) && Placeable(data, em, ts)
    ensures forall k :: 0 <= k < |ActiveRecords(data, em)| ==> Has(ts, ActiveRecords(data, em)[k].owner)
    ensures TextJobs(data, em, ts) == TextJobs(ActiveRecords(data, em), em, ts)
  {
    var act := ActiveRecords(data, em);
    forall k | 0 <= k < |act|
      ensures InRange(em, act[k].owner) && Has(ts, act[k].owner)
    {
      var j :| 0 <= j < |data| && data[j] == act[k];
    }
    if |data| > 0 {
      var init := data[..|data| - 1];
      var last := data[|data| - 1];
      TextJobsActiveOnly(init, em, ts);
      var act0 := ActiveRecords(init, em);
      if EntityIsActive(em, last.owner) {
        assert act == act0 + [last];
        assert act[..|act| - 1] == act0;
      }
    }
  }

  /** One more record: the jobs of the prefix up to `i` inclusive are the
      shorter prefix's followed by the new text's, if its owner is active. */
  lemma TextJobsStep(data: seq<Record<TextData>>, em: EntityManager, ts: TransformationSystem, i: nat)
    requires Valid(ts) && i < |data| && Placeable(data[..i + 1], em, ts)
    ensures Placeable(data[..i], em, ts)
    ensures TextJobs(data[..i + 1], em, ts) ==
              TextJobs(data[..i], em, ts) +
                (if EntityIsActive(em, data[i].owner) then JobsFor(data[i].body, Get(ts, data[i].owner)) else [])
  {
    assert data[..i + 1][..i] == data[..i];
    assert data[..i + 1][i] == data[i];
  }

  /** `draw_all`: walks the records in dense order; for each active owner
      the transformation is unwrapped (a panic when missing) and the text's
      jobs are emitted. */
  method DrawAll(xs: TextSystem, em: EntityManager, ts: TransformationSystem)
    returns (r: Result<seq<RenderJob>>)
    requires Valid(xs) && Valid(ts) && OwnersInRange(xs, em)
    ensures r.Success? <==> Placeable(xs.data, em, ts)
    ensures r.Success? ==> r.value == TextJobs(xs.data, em, ts) && |r.value| == GlyphTotal(xs.data, em)
  {
    var jobs: seq<RenderJob> := [];
    var i := 0;
    while i < |xs.data|
      invariant 0 <= i <= |xs.data|
      invariant Placeable(xs.data[..i], em, ts)
      invariant jobs == TextJobs(xs.data[..i], em, ts)
    {
      var d := xs.data[i];
      PlaceableStep(xs.data, em, ts, i);
      if EntityIsActive(em, d.owner) && !Has(ts, d.owner) {
        assert !Placeable(xs.data, em, ts) by {
          assert xs.data[i] == d;
        }
        return Failure("called `Option::unwrap()` on a `None` value");
      }
      TextJobsStep(xs.data, em, ts, i);
      if EntityIsActive(em, d.owner) {
        jobs := jobs + JobsFor(d.body, Get(ts, d.owner));
      }
      i := i + 1;
    }
    assert xs.data[..i] == xs.data;
    TextJobsCount(xs.data, em, ts);
    return Success(jobs);
  }
}
