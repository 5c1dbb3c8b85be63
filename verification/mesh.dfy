/** `graphics.DataTransformation`: the vertex and index buffers handed to
    the GPU. Each visible block face and each debug line becomes quads;
    a quad is four vertices of eight floats (position, atlas texture
    coordinate, normal) and six indices (two triangles). Both buffers are
    preallocated with `translationSize` entries and only a prefix is live. */
module Mesh {
  import opened JavaInts
  import opened Vectors
  import opened Blocks
  import opened BlockStore

  /** `Settings.translationSize`: the length of both raw buffers. */
  const TranslationSize: nat := 20000000

  const FloatsPerVertex: nat := 8
  const FloatsPerQuad: nat := 32
  const IndicesPerQuad: nat := 6
  const VerticesPerQuad: nat := 4

  /** The texture atlas is a 16 by 16 grid of tiles. */
  const AtlasTiles: int := 16
  const Tile: real := 1.0 / 16.0

  /** Four corners and the texture id of the atlas tile drawn on them. */
  datatype Quad = Quad(a: Vec3, b: Vec3, c: Vec3, d: Vec3, id: int)

  /** The two raw arrays and the three counters of the class. */
  datatype Buffers = Buffers(cordsRaw: seq<real>, indicesRaw: seq<int>, sizeC: nat, sizeI: nat, verticesCount: int)

  predicate Allocated(b: Buffers) {
    && |b.cordsRaw| == TranslationSize && |b.indicesRaw| == TranslationSize
    && b.sizeC <= TranslationSize && b.sizeI <= TranslationSize
  }

  /** How a transfer ended: normally, or by the out-of-bounds exception of
      `System.arraycopy`, with the state the exception leaves behind. */
  datatype Outcome = Fits(buffers: Buffers) | Overflows(buffers: Buffers)

  // ---------------------------------------------------------------------
  // Reference layout: what the live prefixes hold after a list of quads

  function Vertex(p: Vec3, u: real, v: real, n: Vec3): (vs: seq<real>)
    ensures |vs| == FloatsPerVertex
  {
    [p.x, p.y, p.z, u, v, n.x, n.y, n.z]
  }

  /** The un-normalised normal `(b - a) × (c - a)` (`kX`, `kY`, `kZ`). */
  function Normal(a: Vec3, b: Vec3, c: Vec3): Vec3 {
    Cross(Minus(b, a), Minus(c, a))
  }

  /** The atlas column and row of a texture id, with Java's `%` and `/`
      on `long`. */
  function Column(id: int): int {
    JavaRem(id, AtlasTiles)
  }

  function Row(id: int): int {
    JavaDiv(id, AtlasTiles)
  }

  /** The 32 floats of one quad: corners a, b, c, d with texture
      coordinates (u, v), (u, v + t), (u + t, v + t), (u + t, v). */
  function QuadCords(q: Quad): (cs: seq<real>)
    ensures |cs| == FloatsPerQuad
  {
    var u := Column(q.id) as real / 16.0;
    var v := Row(q.id) as real / 16.0;
    var n := Normal(q.a, q.b, q.c);
    Vertex(q.a, u, v, n) + Vertex(q.b, u, v + Tile, n) + Vertex(q.c, u + Tile, v + Tile, n) + Vertex(q.d, u + Tile, v, n)
  }

  /** The two triangles (a, c, b) and (a, d, c) of the quad whose first
      vertex is `base`. */
  function QuadIndices(base: int): (ixs: seq<int>)
    ensures |ixs| == IndicesPerQuad
  {
    [base, base + 2, base + 1, base, base + 3, base + 2]
  }

  /** The vertex data of a list of quads, in order. */
  function CordsOf(qs: seq<Quad>): (cs: seq<real>)
    ensures |cs| == FloatsPerQuad * |qs|
    decreases |qs|
  {
    if |qs| == 0 then [] else CordsOf(qs[..|qs| - 1]) + QuadCords(qs[|qs| - 1])
  }

  /** The index data of `n` quads, quad `k` using vertices `4k` to `4k+3`. */
  function IndicesOf(n: nat): (ixs: seq<int>)
    ensures |ixs| == IndicesPerQuad * n
  {
    if n == 0 then [] else IndicesOf(n - 1) + QuadIndices(VerticesPerQuad * (n - 1))
  }

  /** The buffers hold exactly the quads `qs`: counters in step and the
      live prefixes equal to the reference layout. */
  predicate Holds(b: Buffers, qs: seq<Quad>) {
    && Allocated(b)
    && b.sizeC == FloatsPerQuad * |qs|
    && b.sizeI == IndicesPerQuad * |qs|
    && b.verticesCount == VerticesPerQuad * |qs|
    && b.cordsRaw[..b.sizeC] == CordsOf(qs)
    && b.indicesRaw[..b.sizeI] == IndicesOf(|qs|)
  }

  // ---------------------------------------------------------------------
  // The operations

  /** The constructor: both arrays allocated, all counters zero. */
  function NewBuffers(): (b: Buffers)
    ensures Holds(b, [])
  {
    Buffers(seq(TranslationSize, _ => 0.0), seq(TranslationSize, _ => 0), 0, 0, 0)
  }

  /** `reset`: forget the live prefixes; the raw contents stay. */
  function Reset(b: Buffers): (r: Buffers)
    requires Allocated(b)
    ensures Holds(r, [])
    ensures r.cordsRaw == b.cordsRaw && r.indicesRaw == b.indicesRaw
  {
    b.(sizeI := 0, sizeC := 0, verticesCount := 0)
  }

  /** `s` with `xs` written from position `at` on (`System.arraycopy`). */
  function Splice<T>(s: seq<T>, at: nat, xs: seq<T>): (r: seq<T>)
    requires at + |xs| <= |s|
    ensures |r| == |s|
    ensures r[..at] == s[..at] && r[at..at + |xs|] == xs
    ensures r[at + |xs|..] == s[at + |xs|..]
  {
    s[..at] + xs + s[at + |xs|..]
  }

  /** `transfer`: append to both live prefixes. Each copy checks its bounds
      before writing; the vertex copy comes first, so an index overflow
      leaves the vertex data written but neither counter advanced. */
  function Transfer(b: Buffers, cords: seq<real>, indices: seq<int>): (r: Outcome)
    requires Allocated(b)
    ensures r.Fits? <==> b.sizeC + |cords| <= TranslationSize && b.sizeI + |indices| <= TranslationSize
    ensures Allocated(r.buffers) && r.buffers.verticesCount == b.verticesCount
    ensures r.Overflows? ==> r.buffers.sizeC == b.sizeC && r.buffers.sizeI == b.sizeI
    ensures r.Fits? ==> r.buffers.sizeC == b.sizeC + |cords| && r.buffers.sizeI == b.sizeI + |indices|
    ensures r.Fits? ==> r.buffers.cordsRaw[..b.sizeC] == b.cordsRaw[..b.sizeC]
    ensures r.Fits? ==> r.buffers.cordsRaw[b.sizeC..r.buffers.sizeC] == cords
    ensures r.Fits? ==> r.buffers.indicesRaw[..b.sizeI] == b.indicesRaw[..b.sizeI]
    ensures r.Fits? ==> r.buffers.indicesRaw[b.sizeI..r.buffers.sizeI] == indices
  {
    if b.sizeC + |cords| > TranslationSize then Overflows(b)
    else
      var b1 := b.(cordsRaw := Splice(b.cordsRaw, b.sizeC, cords));
      if b.sizeI + |indices| > TranslationSize then Overflows(b1)
      else Fits(b1.(indicesRaw := Splice(b.indicesRaw, b.sizeI, indices),
                    sizeC := b.sizeC + |cords|, sizeI := b.sizeI + |indices|))
  }

  /** `transferSquare`: the vertex counter advances by four before the
      transfer, so it has advanced even when the transfer overflows. */
  function TransferSquare(b: Buffers, q: Quad): (r: Outcome)
    requires Allocated(b)
    ensures r.buffers.verticesCount == b.verticesCount + VerticesPerQuad
    ensures r.Fits? <==> b.sizeC + FloatsPerQuad <= TranslationSize && b.sizeI + IndicesPerQuad <= TranslationSize
    ensures Allocated(r.buffers)
    ensures r.Fits? ==> r.buffers.sizeC == b.sizeC + FloatsPerQuad && r.buffers.sizeI == b.sizeI + IndicesPerQuad
    ensures r.Fits? ==> r.buffers.cordsRaw[..b.sizeC] == b.cordsRaw[..b.sizeC]
    ensures r.Fits? ==> r.buffers.indicesRaw[..b.sizeI] == b.indicesRaw[..b.sizeI]
    ensures r.Fits? ==> r.buffers.indicesRaw[b.sizeI..r.buffers.sizeI] == QuadIndices(b.verticesCount)
    ensures r.Fits? ==> r.buffers.cordsRaw[b.sizeC..r.buffers.sizeC] == QuadCords(q)
  {
    Transfer(b.(verticesCount := b.verticesCount + VerticesPerQuad), QuadCords(q), QuadIndices(b.verticesCount))
  }

  /** A sequence of `transferSquare` calls, stopped by the first overflow. */
  function TransferAll(b: Buffers, qs: seq<Quad>): (r: Outcome)
    requires Allocated(b)
    decreases |qs|
  {
    if |qs| == 0 then Fits(b)
    else
      match TransferSquare(b, qs[0])
      case Overflows(b1) => Overflows(b1)
      case Fits(b1) => TransferAll(b1, qs[1..])
  }

  /** One more quad keeps `Holds`, and fits exactly while the vertex
      buffer has room for it. */
  lemma SquareHolds(b: Buffers, qs: seq<Quad>, q: Quad)
    requires Holds(b, qs)
    ensures TransferSquare(b, q).Fits? <==> FloatsPerQuad * (|qs| + 1) <= TranslationSize
    ensures TransferSquare(b, q).Fits? ==> Holds(TransferSquare(b, q).buffers, qs + [q])
  {
    var r := TransferSquare(b, q);
    if r.Fits? {
      var nb := r.buffers;
      var qs1 := qs + [q];
      assert qs1[..|qs1| - 1] == qs;
      assert nb.cordsRaw[..nb.sizeC] == nb.cordsRaw[..b.sizeC] + nb.cordsRaw[b.sizeC..nb.sizeC];
      assert nb.cordsRaw[..b.sizeC] == b.cordsRaw[..b.sizeC];
      assert nb.indicesRaw[..nb.sizeI] == nb.indicesRaw[..b.sizeI] + nb.indicesRaw[b.sizeI..nb.sizeI];
    }
  }

  /** A list of quads either all fit, leaving `Holds` for the longer list,
      or overflows exactly when the vertex buffer cannot take them all. */
  lemma {:induction false} AllHolds(b: Buffers, done: seq<Quad>, qs: seq<Quad>)
    requires Holds(b, done)
    ensures TransferAll(b, qs).Fits? <==> FloatsPerQuad * (|done| + |qs|) <= TranslationSize
    ensures TransferAll(b, qs).Fits? ==> Holds(TransferAll(b, qs).buffers, done + qs)
    decreases |qs|
  {
    if |qs| > 0 {
      SquareHolds(b, done, qs[0]);
      var r := TransferSquare(b, qs[0]);
      if r.Fits? {
        AllHolds(r.buffers, done + [qs[0]], qs[1..]);
        assert done + [qs[0]] + qs[1..] == done + qs;
      }
    } else {
      assert done + qs == done;
    }
  }

  /** Every index in `IndicesOf(n)` names one of its `4n` vertices. */
  lemma {:induction false} IndicesBelow(n: nat)
    ensures forall i :: 0 <= i < |IndicesOf(n)| ==> 0 <= IndicesOf(n)[i] < VerticesPerQuad * n
  {
    if n > 0 {
      IndicesBelow(n - 1);
      var prev := IndicesOf(n - 1);
      var last := QuadIndices(VerticesPerQuad * (n - 1));
      assert IndicesOf(n) == prev + last;
      forall i | 0 <= i < |IndicesOf(n)| ensures 0 <= IndicesOf(n)[i] < VerticesPerQuad * n {
        if i < |prev| {
          assert IndicesOf(n)[i] == prev[i];
        } else {
          assert IndicesOf(n)[i] == last[i - |prev|];
        }
      }
    }
  }

  /** Under `Holds` every live index names a vertex already written. */
  lemma LiveIndicesBelow(b: Buffers, qs: seq<Quad>)
    requires Holds(b, qs)
    ensures forall i :: 0 <= i < b.sizeI ==> 0 <= b.indicesRaw[i] < b.verticesCount
  {
    IndicesBelow(|qs|);
    forall i | 0 <= i < b.sizeI ensures 0 <= b.indicesRaw[i] < b.verticesCount {
      assert b.indicesRaw[i] == b.indicesRaw[..b.sizeI][i];
    }
  }

  // ---------------------------------------------------------------------
  // Blocks and lines as quads

  /** `Settings.blockSize / 2`. */
  const Half: real := 0.5

  function Center(c: Cell): Vec3 {
    Vec3(c.x as real + Half, c.y as real + Half, c.z as real + Half)
  }

  /** `vertex[k]` of `transferBlock`. */
  function Corner(c: Cell, k: nat): Vec3
    requires k < 8
  {
    CornerAt(Center(c), k)
  }

  /** The corner numbers of each face: near, up, down, far, left, right. */
  function FaceCorners(f: nat): (ks: seq<nat>)
    requires f < FaceCount
    ensures |ks| == 4 && forall j :: 0 <= j < 4 ==> ks[j] < 8
  {
    match f
    case 0 => [4, 6, 7, 5]
    case 1 => [6, 2, 3, 7]
    case 2 => [0, 4, 5, 1]
    case 3 => [1, 3, 2, 0]
    case 4 => [0, 2, 6, 4]
    case _ => [5, 7, 3, 1]
  }

  function FaceQuad(blk: Block, f: nat): Quad
    requires WellFormed(blk) && f < FaceCount
  {
    var ks := FaceCorners(f);
    Quad(Corner(blk.cord, ks[0]), Corner(blk.cord, ks[1]), Corner(blk.cord, ks[2]), Corner(blk.cord, ks[3]), blk.sideIds[f] as int)
  }

  /** The faces from `f` on whose flag is set, in face order. */
  function VisibleFaces(render: seq<bool>, f: nat): (fs: seq<nat>)
    requires f <= |render|
    ensures forall k :: 0 <= k < |fs| ==> f <= fs[k] < |render| && render[fs[k]]
    ensures forall k, l :: 0 <= k < l < |fs| ==> fs[k] < fs[l]
    decreases |render| - f
  {
    if f == |render| then []
    else (if render[f] then [f] else []) + VisibleFaces(render, f + 1)
  }

  /** No visible face is skipped. */
  lemma {:induction false} VisibleFacesComplete(render: seq<bool>, f: nat)
    requires f <= |render|
    ensures forall g :: f <= g < |render| && render[g] ==> g in VisibleFaces(render, f)
    decreases |render| - f
  {
    if f < |render| {
      VisibleFacesComplete(render, f + 1);
      var faces := if render[f] then [f] else [];
      var rest := VisibleFaces(render, f + 1);
      assert VisibleFaces(render, f) == faces + rest;
      forall g | f <= g < |render| && render[g] ensures g in VisibleFaces(render, f) {
        if g == f {
          assert VisibleFaces(render, f)[0] == f;
        } else {
          assert g in rest;
        }
      }
    }
  }

  /** There are as many visible faces as flags set. */
  lemma {:induction false} VisibleFacesCount(render: seq<bool>, f: nat)
    requires f <= |render|
    ensures |VisibleFaces(render, f)| == multiset(render[f..])[true]
    decreases |render| - f
  {
    if f < |render| {
      VisibleFacesCount(render, f + 1);
      assert render[f..] == [render[f]] + render[f + 1..];
      assert multiset(render[f..]) == multiset([render[f]]) + multiset(render[f + 1..]);
    }
  }

  /** The six `if (block.sideRender[f]) transferSquare(...)` of
      `transferBlock`: one quad per visible face, in face order. */
  function BlockQuads(blk: Block): (qs: seq<Quad>)
    requires WellFormed(blk)
    ensures |qs| == |VisibleFaces(blk.sideRender, 0)|
  {
    var fs := VisibleFaces(blk.sideRender, 0);
    seq(|fs|, k requires 0 <= k < |fs| => FaceQuad(blk, fs[k]))
  }

  /** A block contributes as many quads as it has visible faces: six for
      a newly built block. */
  lemma {:induction false} BlockQuadCount(blk: Block)
    requires WellFormed(blk)
    ensures |BlockQuads(blk)| == multiset(blk.sideRender)[true]
    ensures blk.sideRender == AllVisible ==> |BlockQuads(blk)| == FaceCount
  {
    VisibleFacesCount(blk.sideRender, 0);
    assert blk.sideRender[0..] == blk.sideRender;
    if blk.sideRender == AllVisible {
      assert multiset(AllVisible)[true] == 6;
    }
  }

  /** Every visible face gets its quad. */
  lemma {:induction false} VisibleFaceDrawn(blk: Block, f: nat)
    requires WellFormed(blk) && f < FaceCount && blk.sideRender[f]
    ensures exists k :: 0 <= k < |BlockQuads(blk)| && BlockQuads(blk)[k] == FaceQuad(blk, f)
  {
    var fs := VisibleFaces(blk.sideRender, 0);
    VisibleFacesComplete(blk.sideRender, 0);
    var k :| 0 <= k < |fs| && fs[k] == f;
    assert BlockQuads(blk)[k] == FaceQuad(blk, f);
  }

  /** Every quad of a block is the quad of one of its visible faces. */
  lemma {:induction false} DrawnFaceVisible(blk: Block, k: nat)
    requires WellFormed(blk) && k < |BlockQuads(blk)|
    ensures exists f :: 0 <= f < FaceCount && blk.sideRender[f] && BlockQuads(blk)[k] == FaceQuad(blk, f)
  {
    var fs := VisibleFaces(blk.sideRender, 0);
    assert BlockQuads(blk)[k] == FaceQuad(blk, fs[k]);
  }

  /** The quad of each face: corners and the face's texture id. */
  lemma FaceQuadOf(blk: Block, f: nat)
    requires WellFormed(blk) && f < FaceCount
    ensures FaceQuad(blk, f).id == blk.sideIds[f] as int
  {
  }

  /** Each face's normal is the unit vector from the face towards the
      cube's centre: twice the offset from the face's midpoint (the middle
      of its diagonal a-c) to the centre. */
  lemma FaceNormalInward(blk: Block, f: nat)
    requires WellFormed(blk) && f < FaceCount
    ensures var q := FaceQuad(blk, f);
            Normal(q.a, q.b, q.c) == Times(Minus(Center(blk.cord), Times(Plus(q.a, q.c), 0.5)), 2.0)
  {
    var m := Center(blk.cord);
    var ks := FaceCorners(f);
    FaceInward(f);
    CornerNormal(m, ks[0], ks[1], ks[2]);
  }

  /** The offset of `vertex[k]` from the centre, as listed in
      `transferBlock`: far/near, down/up, left/right. */
  function Off(k: nat): Vec3
    requires k < 8
  {
    match k
    case 0 => Vec3(-0.5, -0.5, -0.5)
    case 1 => Vec3(0.5, -0.5, -0.5)
    case 2 => Vec3(-0.5, 0.5, -0.5)
    case 3 => Vec3(0.5, 0.5, -0.5)
    case 4 => Vec3(-0.5, -0.5, 0.5)
    case 5 => Vec3(0.5, -0.5, 0.5)
    case 6 => Vec3(-0.5, 0.5, 0.5)
    case _ => Vec3(0.5, 0.5, 0.5)
  }

  /** `vertex[k]` around a given centre. */
  function CornerAt(m: Vec3, k: nat): Vec3
    requires k < 8
  {
    Plus(m, Off(k))
  }

  /** Corners `i`, `j`, `k` turn inwards: the cross product of their
      edges from `i` is the offset from the middle of the diagonal `i`-`k`
      back to the centre, times two. */
  predicate Inward(i: nat, j: nat, k: nat)
    requires i < 8 && j < 8 && k < 8
  {
    Cross(Minus(Off(j), Off(i)), Minus(Off(k), Off(i))) == Times(Plus(Off(i), Off(k)), -1.0)
  }

  lemma NearInward() ensures Inward(4, 6, 7) {}
  lemma UpInward() ensures Inward(6, 2, 3) {}
  lemma DownInward() ensures Inward(0, 4, 5) {}
  lemma FarInward() ensures Inward(1, 3, 2) {}
  lemma LeftInward() ensures Inward(0, 2, 6) {}
  lemma RightInward() ensures Inward(5, 7, 3) {}

  /** The first three corners of every face turn inwards. */
  lemma FaceInward(f: nat)
    requires f < FaceCount
    ensures var ks := FaceCorners(f); Inward(ks[0], ks[1], ks[2])
  {
    match f
    case 0 => NearInward();
    case 1 => UpInward();
    case 2 => DownInward();
    case 3 => FarInward();
    case 4 => LeftInward();
    case _ => RightInward();
  }

  /** Moving the centre does not change a normal: inward-turning corners
      keep pointing at the centre wherever it is. */
  lemma CornerNormal(m: Vec3, i: nat, j: nat, k: nat)
    requires i < 8 && j < 8 && k < 8 && Inward(i, j, k)
    ensures Normal(CornerAt(m, i), CornerAt(m, j), CornerAt(m, k))
         == Times(Minus(m, Times(Plus(CornerAt(m, i), CornerAt(m, k)), 0.5)), 2.0)
  {
    assert Minus(CornerAt(m, j), CornerAt(m, i)) == Minus(Off(j), Off(i));
    assert Minus(CornerAt(m, k), CornerAt(m, i)) == Minus(Off(k), Off(i));
    assert Times(Minus(m, Times(Plus(CornerAt(m, i), CornerAt(m, k)), 0.5)), 2.0) == Times(Plus(Off(i), Off(k)), -1.0);
  }

  /** A debug segment (`engine.Line`). */
  datatype Line = Line(start: Vec3, end: Vec3)

  /** The texture id used for lines. */
  const LineTexture: int := 17

  /** `0.001f`, as the binary32 value that literal rounds to. */
  const LineHalfWidth: real := 8589935.0 / 8589934592.0

  /** `transferLine`: a thin vertical strip, drawn as two quads with
      opposite winding so that it shows from both sides. */
  function LineQuads(l: Line): (qs: seq<Quad>)
    ensures |qs| == 2 && qs[0].id == LineTexture && qs[1].id == LineTexture
    ensures qs[1] == Quad(qs[0].d, qs[0].c, qs[0].b, qs[0].a, LineTexture)
  {
    var up := Vec3(0.0, LineHalfWidth, 0.0);
    var down := Vec3(0.0, -LineHalfWidth, 0.0);
    var startUp := Plus(l.start, up);
    var startDown := Plus(l.start, down);
    var endUp := Plus(l.end, up);
    var endDown := Plus(l.end, down);
    [Quad(startUp, startDown, endDown, endUp, LineTexture), Quad(endUp, endDown, startDown, startUp, LineTexture)]
  }

  /** Lines use the atlas tile in column 1, row 1. */
  lemma LineTile()
    ensures Column(LineTexture) == 1 && Row(LineTexture) == 1
  {
  }

  // ---------------------------------------------------------------------
  // `update` and the getters

  /** The quads of a scene: each block's faces in iteration order, then
      each line's two quads. */
  function BlocksQuads(bs: seq<Block>): seq<Quad>
    requires forall i :: 0 <= i < |bs| ==> WellFormed(bs[i])
    decreases |bs|
  {
    if |bs| == 0 then [] else BlocksQuads(bs[..|bs| - 1]) + BlockQuads(bs[|bs| - 1])
  }

  function LinesQuads(ls: seq<Line>): seq<Quad>
    decreases |ls|
  {
    if |ls| == 0 then [] else LinesQuads(ls[..|ls| - 1]) + LineQuads(ls[|ls| - 1])
  }

  function SceneQuads(bs: seq<Block>, ls: seq<Line>): seq<Quad>
    requires forall i :: 0 <= i < |bs| ==> WellFormed(bs[i])
  {
    BlocksQuads(bs) + LinesQuads(ls)
  }

  lemma {:induction false} BlocksQuadsGrow(bs: seq<Block>, i: nat)
    requires forall k :: 0 <= k < |bs| ==> WellFormed(bs[k])
    requires i <= |bs|
    ensures |BlocksQuads(bs[..i])| <= |BlocksQuads(bs)|
    decreases |bs|
  {
    if i < |bs| {
      var front := bs[..|bs| - 1];
      assert bs[..i] == front[..i];
      BlocksQuadsGrow(front, i);
    } else {
      assert bs[..i] == bs;
    }
  }

  lemma {:induction false} LinesQuadsGrow(ls: seq<Line>, i: nat)
    requires i <= |ls|
    ensures |LinesQuads(ls[..i])| <= |LinesQuads(ls)|
    decreases |ls|
  {
    if i < |ls| {
      var front := ls[..|ls| - 1];
      assert ls[..i] == front[..i];
      LinesQuadsGrow(front, i);
    } else {
      assert ls[..i] == ls;
    }
  }

  /** `getCords`: a copy of the live vertex data. */
  function GetCords(b: Buffers): (cs: seq<real>)
    requires Allocated(b)
    ensures |cs| == b.sizeC
  {
    b.cordsRaw[..b.sizeC]
  }

  /** `getIndices` (its length is `indicesSize`). */
  function GetIndices(b: Buffers): (ixs: seq<int>)
    requires Allocated(b)
    ensures |ixs| == b.sizeI
  {
    b.indicesRaw[..b.sizeI]
  }

  /** The copies handed out by buffers holding `qs` are that scene's
      floats and index pattern, and every index names a vertex inside the
      returned float data. */
  lemma GetHeld(b: Buffers, qs: seq<Quad>)
    requires Holds(b, qs)
    ensures GetCords(b) == CordsOf(qs) && GetIndices(b) == IndicesOf(|qs|)
    ensures forall i :: 0 <= i < |GetIndices(b)| ==> 0 <= GetIndices(b)[i] < |GetCords(b)| / FloatsPerVertex
  {
    IndicesBelow(|qs|);
    assert |GetCords(b)| / FloatsPerVertex == VerticesPerQuad * |qs|;
  }

  /** One block of `update`'s first loop: its quads extend the scene
      prefix, or overflow only when the whole scene cannot fit. */
  lemma BlockStep(cur: Buffers, order: seq<Block>, lines: seq<Line>, i: nat)
    requires forall k :: 0 <= k < |order| ==> WellFormed(order[k])
    requires i < |order| && Holds(cur, BlocksQuads(order[..i]))
    ensures var o := TransferAll(cur, BlockQuads(order[i]));
            && (o.Fits? ==> Holds(o.buffers, BlocksQuads(order[..i + 1])))
            && (o.Overflows? ==> FloatsPerQuad * |SceneQuads(order, lines)| > TranslationSize)
  {
    AllHolds(cur, BlocksQuads(order[..i]), BlockQuads(order[i]));
    BlocksQuadsSnoc(order, i);
    BlocksQuadsGrow(order, i + 1);
  }

  lemma BlocksQuadsSnoc(bs: seq<Block>, i: nat)
    requires forall k :: 0 <= k < |bs| ==> WellFormed(bs[k])
    requires i < |bs|
    ensures BlocksQuads(bs[..i + 1]) == BlocksQuads(bs[..i]) + BlockQuads(bs[i])
  {
    assert bs[..i + 1][..i] == bs[..i];
  }

  /** One line of `update`'s second loop. */
  lemma LineStep(cur: Buffers, front: seq<Quad>, lines: seq<Line>, j: nat)
    requires j < |lines| && Holds(cur, front + LinesQuads(lines[..j]))
    ensures var o := TransferAll(cur, LineQuads(lines[j]));
            && (o.Fits? ==> Holds(o.buffers, front + LinesQuads(lines[..j + 1])))
            && (o.Overflows? ==> FloatsPerQuad * |front + LinesQuads(lines)| > TranslationSize)
  {
    var done := front + LinesQuads(lines[..j]);
    AllHolds(cur, done, LineQuads(lines[j]));
    assert lines[..j + 1][..j] == lines[..j];
    assert done + LineQuads(lines[j]) == front + LinesQuads(lines[..j + 1]);
    LinesQuadsGrow(lines, j + 1);
  }

  /** `update`: reset, transfer every block of the store in its iteration
      order `order`, then every line. The first overflow aborts the call.
      On success the getters return exactly the reference layout of the
      scene, whatever an earlier call left in the raw arrays. */
  method Update(b: Buffers, m: Store, order: seq<Block>, lines: seq<Line>) returns (r: Outcome)
    requires Allocated(b) && IsEnumeration(m, order)
    requires forall c :: c in m ==> WellFormed(m[c])
    ensures forall i :: 0 <= i < |order| ==> WellFormed(order[i])
    ensures r.Fits? <==> FloatsPerQuad * |SceneQuads(order, lines)| <= TranslationSize
    ensures r.Fits? ==> Holds(r.buffers, SceneQuads(order, lines))
    ensures r.Fits? ==> GetCords(r.buffers) == CordsOf(SceneQuads(order, lines))
    ensures r.Fits? ==> GetIndices(r.buffers) == IndicesOf(|SceneQuads(order, lines)|)
  {
    forall k | 0 <= k < |order| ensures WellFormed(order[k]) {
      assert m[order[k].cord] == order[k];
    }
    var cur := Reset(b);
    var i := 0;
    while i < |order|
      invariant 0 <= i <= |order|
      invariant Holds(cur, BlocksQuads(order[..i]))
    {
      BlockStep(cur, order, lines, i);
      var o := TransferAll(cur, BlockQuads(order[i]));
      if o.Overflows? {
        return o;
      }
      cur := o.buffers;
      i := i + 1;
    }
    assert order[..i] == order;
    var front := BlocksQuads(order);
    var j := 0;
    assert front + LinesQuads(lines[..0]) == front by {
      assert lines[..0] == [];
    }
    while j < |lines|
      invariant 0 <= j <= |lines|
      invariant Holds(cur, front + LinesQuads(lines[..j]))
    {
      LineStep(cur, front, lines, j);
      var o := TransferAll(cur, LineQuads(lines[j]));
      if o.Overflows? {
        return o;
      }
      cur := o.buffers;
      j := j + 1;
    }
    assert lines[..j] == lines;
    r := Fits(cur);
  }
}
