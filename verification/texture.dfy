/** `graphics.Texture`: the pixels of the atlas image, read as packed
    `int` ARGB values row by row from the top, are copied into the byte
    buffer handed to OpenGL as RGBA bytes with the rows in reverse order
    (OpenGL's first row is the bottom one). */
module Texture {
  import opened JavaInts

  /** The bit pattern of a Java `byte`, read as unsigned; the `(byte)`
      cast keeps the pattern. */
  type byte = x: int | 0 <= x < 256

  // ---------------------------------------------------------------------
  // One pixel

  /** `pixel >> shift` on a Java `int`: the arithmetic shift rounds toward
      negative infinity, as Dafny's `/` does for a positive divisor. */
  function ShiftRight(p: int32, shift: nat): (r: int)
    requires shift in {0, 8, 16, 24}
  {
    match shift
    case 0 => p
    case 8 => p / 0x100
    case 16 => p / 0x1_0000
    case _ => p / 0x100_0000
  }

  /** `x & 0xFF`: the low eight bits of the two's-complement pattern,
      which is Dafny's non-negative remainder. */
  function LowByte(x: int): (b: byte)
    ensures (x - b) % 0x100 == 0
  {
    x % 0x100
  }

  function Channel(p: int32, shift: nat): byte
    requires shift in {0, 8, 16, 24}
  {
    LowByte(ShiftRight(p, shift))
  }

  /** The four bytes a pixel becomes: red, green, blue, alpha. */
  function Rgba(p: int32): (bs: seq<byte>)
    ensures |bs| == 4
  {
    [Channel(p, 16), Channel(p, 8), Channel(p, 0), Channel(p, 24)]
  }

  /** The inverse: the ARGB `int` whose channels are the four RGBA bytes. */
  function Pack(bs: seq<byte>): (p: int32)
    requires |bs| == 4
  {
    Wrap(bs[3] as int * 0x100_0000 + bs[0] as int * 0x1_0000 + bs[1] as int * 0x100 + bs[2] as int)
  }

  /** Repacking a pixel loses nothing. */
  lemma PackRgba(p: int32)
    ensures Pack(Rgba(p)) == p
  {
    var q1 := p / 0x100;
    var q2 := q1 / 0x100;
    var q3 := q2 / 0x100;
    assert p / 0x1_0000 == q2;
    assert p / 0x100_0000 == q3;
    var x := (q3 % 0x100) * 0x100_0000 + (q2 % 0x100) * 0x1_0000 + (q1 % 0x100) * 0x100 + p % 0x100;
    assert x - p == ((q3 % 0x100) - q3) * 0x100_0000;
    assert (x - p) % Modulus == 0;
  }

  /** Every group of four bytes is the repacking of one pixel. */
  lemma RgbaPack(bs: seq<byte>)
    requires |bs| == 4
    ensures Rgba(Pack(bs)) == bs
  {
    var a, r, g, b := bs[3] as int, bs[0] as int, bs[1] as int, bs[2] as int;
    var p := Pack(bs);
    var k := if p == a * 0x100_0000 + r * 0x1_0000 + g * 0x100 + b then 0 else -1;
    assert p == k * 0x100 * 0x100_0000 + a * 0x100_0000 + r * 0x1_0000 + g * 0x100 + b;
    DivShift(p, k * 0x100_0000 + a * 0x1_0000 + r * 0x100 + g, b);
    DivShift(p / 0x100, k * 0x1_0000 + a * 0x100 + r, g);
    DivShift(p / 0x1_0000, k * 0x100 + a, r);
    DivShift(p / 0x100_0000, k, a);
    assert Channel(p, 0) == b;
    assert Channel(p, 8) == g;
    assert Channel(p, 16) == r;
    assert Channel(p, 24) == a;
  }

  /** Splitting off the low byte. */
  lemma DivShift(x: int, hi: int, lo: byte)
    requires x == hi * 0x100 + lo
    ensures x / 0x100 == hi && x % 0x100 == lo
  {
  }

  // ---------------------------------------------------------------------
  // Rows of pixels

  /** The rows of an image `width` pixels wide, top row first, as
      `getRGB` lays them out. */
  function Split(px: seq<int32>, width: nat, height: nat): (rows: seq<seq<int32>>)
    requires |px| == width * height
    ensures |rows| == height
    ensures Uniform(rows, width)
    decreases height
  {
    if height == 0 then []
    else
      assert width * height == width * (height - 1) + width;
      [px[..width]] + Split(px[width..], width, height - 1)
  }

  predicate Uniform(rows: seq<seq<int32>>, width: nat) {
    forall r :: 0 <= r < |rows| ==> |rows[r]| == width
  }

  /** The rows written one after another. */
  function Flat(rows: seq<seq<int32>>): seq<int32>
    decreases |rows|
  {
    if |rows| == 0 then [] else rows[0] + Flat(rows[1..])
  }

  function Reverse(rows: seq<seq<int32>>): (rev: seq<seq<int32>>)
    ensures |rev| == |rows|
  {
    seq(|rows|, r requires 0 <= r < |rows| => rows[|rows| - 1 - r])
  }

  /** The image upside down: the order in which the loops of the
      constructor visit the pixels. */
  function Flip(px: seq<int32>, width: nat, height: nat): (fl: seq<int32>)
    requires |px| == width * height
    ensures |fl| == |px|
  {
    var rev := Reverse(Split(px, width, height));
    assert Uniform(rev, width);
    FlatSize(rev, width);
    Flat(rev)
  }

  /** `r * width + c` for a pixel inside the image is inside the array. */
  lemma IndexInside(width: nat, height: nat, r: nat, c: nat)
    requires r < height && c < width
    ensures r * width + c < width * height
  {
    var k: nat := height - 1 - r;
    assert width * height == r * width + width + k * width;
  }

  lemma {:induction false} FlatSize(rows: seq<seq<int32>>, width: nat)
    requires Uniform(rows, width)
    ensures |Flat(rows)| == width * |rows|
    decreases |rows|
  {
    if |rows| > 0 {
      FlatSize(rows[1..], width);
      assert width * |rows| == width + width * (|rows| - 1);
    }
  }

  lemma {:induction false} FlatAppend(a: seq<seq<int32>>, b: seq<seq<int32>>)
    ensures Flat(a + b) == Flat(a) + Flat(b)
    decreases |a|
  {
    if |a| == 0 {
      assert a + b == b;
    } else {
      FlatAppend(a[1..], b);
      assert (a + b)[1..] == a[1..] + b;
    }
  }

  /** Joining the rows gives the image back. */
  lemma {:induction false} FlatSplit(px: seq<int32>, width: nat, height: nat)
    requires |px| == width * height
    ensures Flat(Split(px, width, height)) == px
    decreases height
  {
    if height > 0 {
      assert width * height == width * (height - 1) + width;
      FlatSplit(px[width..], width, height - 1);
      assert Split(px, width, height)[1..] == Split(px[width..], width, height - 1);
      assert px == px[..width] + px[width..];
    }
  }

  /** Cutting joined rows of equal width gives the rows back. */
  lemma {:induction false} SplitFlat(rows: seq<seq<int32>>, width: nat)
    requires Uniform(rows, width)
    ensures |Flat(rows)| == width * |rows|
    ensures Split(Flat(rows), width, |rows|) == rows
    decreases |rows|
  {
    FlatSize(rows, width);
    if |rows| > 0 {
      SplitFlat(rows[1..], width);
      assert Flat(rows)[..width] == rows[0];
      assert Flat(rows)[width..] == Flat(rows[1..]);
      assert rows == [rows[0]] + rows[1..];
    }
  }

  /** Pixel `c` of row `r` sits at `r * width + c`. */
  lemma {:induction false} SplitAt(px: seq<int32>, width: nat, height: nat, r: nat, c: nat)
    requires |px| == width * height && r < height && c < width
    ensures r * width + c < |px|
    ensures Split(px, width, height)[r][c] == px[r * width + c]
    decreases r
  {
    IndexInside(width, height, r, c);
    if r > 0 {
      var rest := px[width..];
      assert width * height == width * (height - 1) + width;
      SplitAt(rest, width, height - 1, r - 1, c);
      assert r * width + c == (r - 1) * width + c + width;
      assert Split(px, width, height)[r] == Split(rest, width, height - 1)[r - 1];
    }
  }

  /** Flipping twice is the identity, so flipping is a bijection of the
      pixels. */
  lemma FlipFlip(px: seq<int32>, width: nat, height: nat)
    requires |px| == width * height
    ensures Flip(Flip(px, width, height), width, height) == px
  {
    var rows := Split(px, width, height);
    var rev := Reverse(rows);
    assert Uniform(rev, width);
    SplitFlat(rev, width);
    assert Reverse(rev) == rows;
    FlatSplit(px, width, height);
  }

  /** Pixel `c` of row `r`: `pixels[r * width + c]`. */
  function At(px: seq<int32>, width: nat, height: nat, r: nat, c: nat): int32
    requires |px| == width * height && r < height && c < width
  {
    IndexInside(width, height, r, c);
    px[r * width + c]
  }

  /** Pixel `c` of row `r` of the flipped image is pixel `c` of row
      `height - 1 - r` of the original. */
  lemma FlipAt(px: seq<int32>, width: nat, height: nat, r: nat, c: nat)
    requires |px| == width * height && r < height && c < width
    ensures At(Flip(px, width, height), width, height, r, c) == At(px, width, height, height - 1 - r, c)
  {
    var rev := Reverse(Split(px, width, height));
    assert Uniform(rev, width);
    SplitFlat(rev, width);
    var fl := Flat(rev);
    SplitAt(fl, width, height, r, c);
    SplitAt(px, width, height, height - 1 - r, c);
    assert Split(fl, width, height)[r][c] == rev[r][c];
  }

  // ---------------------------------------------------------------------
  // Bytes

  /** The RGBA bytes of a run of pixels, in order. */
  function Encode(ps: seq<int32>): (bs: seq<byte>)
    ensures |bs| == 4 * |ps| && |bs| % 4 == 0
    decreases |ps|
  {
    if |ps| == 0 then [] else Rgba(ps[0]) + Encode(ps[1..])
  }

  /** The pixels back from their RGBA bytes. */
  function Decode(bs: seq<byte>): (ps: seq<int32>)
    requires |bs| % 4 == 0
    ensures 4 * |ps| == |bs|
    decreases |bs|
  {
    if |bs| == 0 then [] else [Pack(bs[..4])] + Decode(bs[4..])
  }

  lemma {:induction false} DecodeEncode(ps: seq<int32>)
    ensures Decode(Encode(ps)) == ps
    decreases |ps|
  {
    if |ps| > 0 {
      var bs := Encode(ps);
      assert bs[..4] == Rgba(ps[0]);
      assert bs[4..] == Encode(ps[1..]);
      PackRgba(ps[0]);
      DecodeEncode(ps[1..]);
      assert ps == [ps[0]] + ps[1..];
    }
  }

  lemma {:induction false} EncodeDecode(bs: seq<byte>)
    requires |bs| % 4 == 0
    ensures Encode(Decode(bs)) == bs
    decreases |bs|
  {
    if |bs| > 0 {
      var ps := Decode(bs);
      assert ps[0] == Pack(bs[..4]) && ps[1..] == Decode(bs[4..]);
      RgbaPack(bs[..4]);
      EncodeDecode(bs[4..]);
      assert bs == bs[..4] + bs[4..];
    }
  }

  lemma {:induction false} EncodeSnoc(ps: seq<int32>, p: int32)
    ensures Encode(ps + [p]) == Encode(ps) + Rgba(p)
    decreases |ps|
  {
    if |ps| == 0 {
      assert ps + [p] == [p];
    } else {
      EncodeSnoc(ps[1..], p);
      assert (ps + [p])[1..] == ps[1..] + [p];
    }
  }

  /** Byte `k` of pixel `i` is at `4 * i + k`. */
  lemma {:induction false} EncodeAt(ps: seq<int32>, i: nat, k: nat)
    requires i < |ps| && k < 4
    ensures Encode(ps)[4 * i + k] == Rgba(ps[i])[k]
    decreases i
  {
    if i > 0 {
      EncodeAt(ps[1..], i - 1, k);
    }
  }

  // ---------------------------------------------------------------------
  // The constructor's loops

  /** The index the loops read for row `h`, column `w` of the output. */
  lemma PixelIndex(px: seq<int32>, width: nat, height: nat, h: nat, w: nat)
    requires |px| == width * height && h < height && w < width
    ensures 0 <= (height - 1 - h) * width + w < |px|
    ensures Reverse(Split(px, width, height))[h][w] == px[(height - 1 - h) * width + w]
  {
    SplitAt(px, width, height, height - 1 - h, w);
  }

  /** One pixel of the inner loop: the pixel read is the next one of the
      flipped row, and its four bytes follow those already written. */
  lemma PixelStep(pixels: seq<int32>, width: nat, height: nat, rows: seq<seq<int32>>, h: nat, w: nat)
    requires |pixels| == width * height && h < height && w < width
    requires rows == Reverse(Split(pixels, width, height))
    ensures 0 <= (height - 1 - h) * width + w < |pixels|
    ensures Encode(Flat(rows[..h]) + rows[h][..w + 1])
         == Encode(Flat(rows[..h]) + rows[h][..w]) + Rgba(pixels[(height - 1 - h) * width + w])
  {
    PixelIndex(pixels, width, height, h, w);
    var pixel := pixels[(height - 1 - h) * width + w];
    EncodeSnoc(Flat(rows[..h]) + rows[h][..w], pixel);
    assert rows[h][..w + 1] == rows[h][..w] + [pixel];
    assert Flat(rows[..h]) + rows[h][..w + 1] == Flat(rows[..h]) + rows[h][..w] + [pixel];
  }

  /** A finished row extends the flattened prefix. */
  lemma RowDone(rows: seq<seq<int32>>, h: nat, width: nat)
    requires Uniform(rows, width) && h < |rows|
    ensures Flat(rows[..h]) + rows[h][..width] == Flat(rows[..h + 1])
  {
    assert rows[h][..width] == rows[h];
    FlatAppend(rows[..h], [rows[h]]);
    assert rows[..h + 1] == rows[..h] + [rows[h]];
    assert Flat([rows[h]]) == rows[h] + Flat([]);
  }

  /** The two loops of the constructor: row `h` of the buffer takes row
      `height - 1 - h` of the image, each pixel as red, green, blue and
      alpha bytes. */
  method Repack(pixels: seq<int32>, width: nat, height: nat) returns (buffer: seq<byte>)
    requires |pixels| == width * height
    ensures |buffer| == 4 * (width * height)
    ensures buffer == Encode(Flip(pixels, width, height))
  {
    ghost var rows := Reverse(Split(pixels, width, height));
    assert Uniform(rows, width);
    buffer := [];
    var h := 0;
    while h < height
      invariant 0 <= h <= height
      invariant buffer == Encode(Flat(rows[..h]))
    {
      var w := 0;
      assert rows[h][..0] == [] && Flat(rows[..h]) + [] == Flat(rows[..h]);
      while w < width
        invariant 0 <= w <= width
        invariant buffer == Encode(Flat(rows[..h]) + rows[h][..w])
      {
        PixelStep(pixels, width, height, rows, h, w);
        var pixel := pixels[(height - 1 - h) * width + w];
        buffer := buffer + Rgba(pixel);
        w := w + 1;
      }
      RowDone(rows, h, width);
      h := h + 1;
    }
    assert rows[..h] == rows;
    assert Flat(rows) == Flip(pixels, width, height);
  }

  /** Nothing is lost: the image comes back from the buffer by decoding
      its bytes and flipping the rows again. */
  lemma RepackRoundTrip(pixels: seq<int32>, width: nat, height: nat)
    requires |pixels| == width * height
    ensures Flip(Decode(Encode(Flip(pixels, width, height))), width, height) == pixels
  {
    FlipFlip(pixels, width, height);
    DecodeEncode(Flip(pixels, width, height));
  }

  /** Byte `k` of the pixel in row `r`, column `c` of a buffer. */
  function ByteAt(bs: seq<byte>, width: nat, height: nat, r: nat, c: nat, k: nat): byte
    requires |bs| == 4 * (width * height) && r < height && c < width && k < 4
  {
    IndexInside(width, height, r, c);
    bs[4 * (r * width + c) + k]
  }

  /** Where each byte of the buffer comes from: byte `k` of the pixel in
      row `h`, column `w` is channel `k` (red, green, blue, alpha) of the
      image's pixel in row `height - 1 - h`, column `w`. */
  lemma RepackAt(pixels: seq<int32>, width: nat, height: nat, h: nat, w: nat, k: nat)
    requires |pixels| == width * height && h < height && w < width && k < 4
    ensures ByteAt(Encode(Flip(pixels, width, height)), width, height, h, w, k)
         == Rgba(At(pixels, width, height, height - 1 - h, w))[k]
  {
    IndexInside(width, height, h, w);
    FlipAt(pixels, width, height, h, w);
    EncodeAt(Flip(pixels, width, height), h * width + w, k);
  }
}
