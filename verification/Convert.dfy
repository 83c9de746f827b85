/** Packed 32-bit RGB to I420 (BT.601 limited range): integer weights, and one chroma sample per 2x2 block. */
module Convert {
  import opened Basics
  import opened Planes

  /** The byte offsets of R, G and B within a pixel. */
  datatype PixelFormat = PixelFormat(r: nat, g: nat, b: nat)

  const BGRX := PixelFormat(2, 1, 0)
  const RGBX := PixelFormat(0, 1, 2)

  predicate Known(fmt: PixelFormat) {
    fmt == BGRX || fmt == RGBX
  }

  // The shift right by 8 rounds down, and the cast keeps the low byte.

  function Luma(r: int, g: int, b: int): byte {
    ((66 * r + 129 * g + 25 * b + 128) / 256 + 16) % 256
  }

  function ChromaU(r: int, g: int, b: int): byte {
    ((-38 * r - 74 * g + 112 * b + 128) / 256 + 128) % 256
  }

  function ChromaV(r: int, g: int, b: int): byte {
    ((112 * r - 94 * g - 18 * b + 128) / 256 + 128) % 256
  }

  lemma {:induction false} ShiftFits(x: int, bias: int, lo: int, hi: int)
    requires 256 * (lo - bias) <= x < 256 * (hi - bias + 1) && 0 <= lo <= hi < 256
    ensures lo <= x / 256 + bias <= hi && (x / 256 + bias) % 256 == x / 256 + bias
  {
  }

  lemma {:induction false} LumaFits(r: byte, g: byte, b: byte)
    ensures 16 <= Luma(r, g, b) <= 235 && Luma(r, g, b) == (66 * r + 129 * g + 25 * b + 128) / 256 + 16
  {
    ShiftFits(66 * r + 129 * g + 25 * b + 128, 16, 16, 235);
  }

  lemma {:induction false} ChromaUFits(r: byte, g: byte, b: byte)
    ensures 16 <= ChromaU(r, g, b) <= 240 && ChromaU(r, g, b) == (-38 * r - 74 * g + 112 * b + 128) / 256 + 128
  {
    ShiftFits(-38 * r - 74 * g + 112 * b + 128, 128, 16, 240);
  }

  lemma {:induction false} ChromaVFits(r: byte, g: byte, b: byte)
    ensures 16 <= ChromaV(r, g, b) <= 240 && ChromaV(r, g, b) == (112 * r - 94 * g - 18 * b + 128) / 256 + 128
  {
    ShiftFits(112 * r - 94 * g - 18 * b + 128, 128, 16, 240);
  }

  /** The casts never truncate: for every colour the results are in the limited range. */
  lemma {:induction false} LimitedRange(r: byte, g: byte, b: byte)
    ensures 16 <= Luma(r, g, b) <= 235 && 16 <= ChromaU(r, g, b) <= 240 && 16 <= ChromaV(r, g, b) <= 240
    ensures Luma(r, g, b) == (66 * r + 129 * g + 25 * b + 128) / 256 + 16
    ensures ChromaU(r, g, b) == (-38 * r - 74 * g + 112 * b + 128) / 256 + 128
    ensures ChromaV(r, g, b) == (112 * r - 94 * g - 18 * b + 128) / 256 + 128
  {
    hide Luma, ChromaU, ChromaV;
    LumaFits(r, g, b);
    ChromaUFits(r, g, b);
    ChromaVFits(r, g, b);
  }

  /** Grey has neutral chroma; black and white reach the ends of the luma range. */
  lemma {:induction false} GreyIsNeutral(x: byte)
    ensures ChromaU(x, x, x) == 128 && ChromaV(x, x, x) == 128
    ensures Luma(0, 0, 0) == 16 && Luma(255, 255, 255) == 235
  {
    hide Luma, ChromaU, ChromaV;
    LimitedRange(x, x, x);
    assert -38 * x - 74 * x + 112 * x + 128 == 128 == 112 * x - 94 * x - 18 * x + 128;
    LimitedRange(0, 0, 0);
    LimitedRange(255, 255, 255);
  }

  // ---------------------------------------------------------------- the planes, sample by sample

  function Channel(src: seq<byte>, stride: nat, r: nat, c: nat, offset: nat): byte {
    At(src, stride, r, 4 * c + offset)
  }

  function LumaAt(src: seq<byte>, stride: nat, fmt: PixelFormat, r: nat, c: nat): byte {
    Luma(Channel(src, stride, r, c, fmt.r), Channel(src, stride, r, c, fmt.g), Channel(src, stride, r, c, fmt.b))
  }

  /** The mean of a channel over the 2x2 block at block row `r`, block column `c`. */
  function BlockMean(src: seq<byte>, stride: nat, r: nat, c: nat, offset: nat): byte {
    (Channel(src, stride, 2 * r, 2 * c, offset) + Channel(src, stride, 2 * r, 2 * c + 1, offset)
     + Channel(src, stride, 2 * r + 1, 2 * c, offset) + Channel(src, stride, 2 * r + 1, 2 * c + 1, offset)) / 4
  }

  function UAt(src: seq<byte>, stride: nat, fmt: PixelFormat, r: nat, c: nat): byte {
    ChromaU(BlockMean(src, stride, r, c, fmt.r), BlockMean(src, stride, r, c, fmt.g), BlockMean(src, stride, r, c, fmt.b))
  }

  function VAt(src: seq<byte>, stride: nat, fmt: PixelFormat, r: nat, c: nat): byte {
    ChromaV(BlockMean(src, stride, r, c, fmt.r), BlockMean(src, stride, r, c, fmt.g), BlockMean(src, stride, r, c, fmt.b))
  }

  // The planes as functions of the position: sample k of a packed plane of width w is row k / w, column k % w.

  function LumaPlane(src: seq<byte>, stride: nat, fmt: PixelFormat, w: nat): nat -> byte {
    (k: nat) => if w == 0 then 0 else LumaAt(src, stride, fmt, k / w, k % w)
  }

  function UPlane(src: seq<byte>, stride: nat, fmt: PixelFormat, w: nat): nat -> byte {
    (k: nat) => if w == 0 then 0 else UAt(src, stride, fmt, k / w, k % w)
  }

  function VPlane(src: seq<byte>, stride: nat, fmt: PixelFormat, w: nat): nat -> byte {
    (k: nat) => if w == 0 then 0 else VAt(src, stride, fmt, k / w, k % w)
  }

  /** Every sample of a converted picture lies in the limited range. */
  lemma {:induction false} PictureInRange(src: seq<byte>, stride: nat, fmt: PixelFormat, w: nat, k: nat)
    requires w > 0
    ensures 16 <= LumaPlane(src, stride, fmt, w)(k) <= 235
    ensures 16 <= UPlane(src, stride, fmt, w)(k) <= 240 && 16 <= VPlane(src, stride, fmt, w)(k) <= 240
  {
    hide Luma, ChromaU, ChromaV, BlockMean, Channel;
    var r, c := k / w, k % w;
    LimitedRange(
      Channel(src, stride, r, c, fmt.r), Channel(src, stride, r, c, fmt.g), Channel(src, stride, r, c, fmt.b));
    LimitedRange(
      BlockMean(src, stride, r, c, fmt.r), BlockMean(src, stride, r, c, fmt.g), BlockMean(src, stride, r, c, fmt.b));
  }

  predicate GreyPixel(src: seq<byte>, stride: nat, fmt: PixelFormat, r: nat, c: nat) {
    Channel(src, stride, r, c, fmt.r) == Channel(src, stride, r, c, fmt.g) == Channel(src, stride, r, c, fmt.b)
  }

  lemma {:induction false} GreyBlock(src: seq<byte>, stride: nat, fmt: PixelFormat, r: nat, c: nat)
    requires GreyPixel(src, stride, fmt, 2 * r, 2 * c) && GreyPixel(src, stride, fmt, 2 * r, 2 * c + 1)
    requires GreyPixel(src, stride, fmt, 2 * r + 1, 2 * c) && GreyPixel(src, stride, fmt, 2 * r + 1, 2 * c + 1)
    ensures UAt(src, stride, fmt, r, c) == 128 && VAt(src, stride, fmt, r, c) == 128
  {
    hide Channel, ChromaU, ChromaV;
    GreyIsNeutral(BlockMean(src, stride, r, c, fmt.r));
  }

  /** A picture of grey pixels has neutral chroma everywhere, although averaging rounds. */
  lemma {:induction false} GreyPicture(src: seq<byte>, stride: nat, fmt: PixelFormat, w: nat, h: nat, k: nat)
    requires forall r: nat, c: nat :: r < 2 * h && c < 2 * w ==> GreyPixel(src, stride, fmt, r, c)
    requires k < RowStart(h, w)
    ensures UPlane(src, stride, fmt, w)(k) == 128 && VPlane(src, stride, fmt, w)(k) == 128
  {
    hide GreyPixel, UAt, VAt, RowStart;
    Position(k, w, h);
    var r, c := k / w, k % w;
    assert GreyPixel(src, stride, fmt, 2 * r, 2 * c) && GreyPixel(src, stride, fmt, 2 * r, 2 * c + 1);
    assert GreyPixel(src, stride, fmt, 2 * r + 1, 2 * c) && GreyPixel(src, stride, fmt, 2 * r + 1, 2 * c + 1);
    GreyBlock(src, stride, fmt, r, c);
  }

  /** All three planes of `dst` hold exactly the converted picture, whatever they held before. */
  method ToI420(src: seq<byte>, srcStride: nat, fmt: PixelFormat, dst: I420Buffer)
    requires dst.Valid() && Known(fmt) && Fits(|src|, srcStride, 4 * dst.width, dst.height)
    modifies dst.data
    ensures Filled(dst.data[..], 0, dst.YLen(), LumaPlane(src, srcStride, fmt, dst.width))
    ensures Filled(dst.data[..], dst.YLen(), dst.UvLen(), UPlane(src, srcStride, fmt, dst.width / 2))
    ensures Filled(dst.data[..], dst.YLen() + dst.UvLen(), dst.UvLen(), VPlane(src, srcStride, fmt, dst.width / 2))
  {
    hide LumaPlane, UPlane, VPlane, Filled;
    FillLuma(src, srcStride, fmt, dst);
    ghost var before := dst.data[..];
    FillChroma(src, srcStride, fmt, dst);
    FilledStays(before, dst.data[..], dst.YLen(), LumaPlane(src, srcStride, fmt, dst.width));
  }

  method FillLuma(src: seq<byte>, srcStride: nat, fmt: PixelFormat, dst: I420Buffer)
    requires dst.Valid() && Known(fmt) && Fits(|src|, srcStride, 4 * dst.width, dst.height)
    modifies dst.data
    ensures Filled(dst.data[..], 0, dst.YLen(), LumaPlane(src, srcStride, fmt, dst.width))
  {
    hide Luma, Filled, RowStart;
    var w, h := dst.width, dst.height;
    ghost var f := LumaPlane(src, srcStride, fmt, w);
    FirstRow(w);
    FillNothing(dst.data[..], 0, f);
    for row := 0 to h
      invariant Filled(dst.data[..], 0, RowStart(row, w), f)
    {
      InRow(|src|, srcStride, 4 * w, h, row);
      RowEnds(w, h, row);
      var line, at := RowStart(row, srcStride), RowStart(row, w);
      for col := 0 to w
        invariant Filled(dst.data[..], 0, at + col, f)
      {
        RowColumn(w, row, col);
        var px := line + 4 * col;
        var y := Luma(src[px + fmt.r], src[px + fmt.g], src[px + fmt.b]);
        FillNext(dst.data[..], 0, at + col, f, y);
        ghost var before := dst.data[..];
        dst.data[at + col] := y;
        assert dst.data[..] == before[at + col := y];
      }
    }
  }

  /** The sum over a 2x2 block, accumulated row by row, then divided. */
  method MeanOfBlock(src: seq<byte>, srcStride: nat, fmt: PixelFormat, cy: nat, cx: nat)
    returns (r: byte, g: byte, b: byte)
    requires Known(fmt) && RowStart(2 * cy + 1, srcStride) + 4 * (2 * cx + 2) <= |src|
    ensures r == BlockMean(src, srcStride, cy, cx, fmt.r)
    ensures g == BlockMean(src, srcStride, cy, cx, fmt.g)
    ensures b == BlockMean(src, srcStride, cy, cx, fmt.b)
  {
    hide PartialSum, BlockMean, RowStart;
    var sr: nat, sg: nat, sb: nat := 0, 0, 0;
    NoPixels(src, srcStride, cy, cx);
    for dy := 0 to 2
      invariant sr == PartialSum(src, srcStride, cy, cx, fmt.r, 2 * dy)
      invariant sg == PartialSum(src, srcStride, cy, cx, fmt.g, 2 * dy)
      invariant sb == PartialSum(src, srcStride, cy, cx, fmt.b, 2 * dy)
    {
      for dx := 0 to 2
        invariant sr == PartialSum(src, srcStride, cy, cx, fmt.r, 2 * dy + dx)
        invariant sg == PartialSum(src, srcStride, cy, cx, fmt.g, 2 * dy + dx)
        invariant sb == PartialSum(src, srcStride, cy, cx, fmt.b, 2 * dy + dx)
      {
        NextPixel(src, srcStride, cy, cx, dy, dx, fmt.r);
        NextPixel(src, srcStride, cy, cx, dy, dx, fmt.g);
        NextPixel(src, srcStride, cy, cx, dy, dx, fmt.b);
        var px := RowStart(cy * 2 + dy, srcStride) + (cx * 2 + dx) * 4;
        sr, sg, sb := sr + src[px + fmt.r], sg + src[px + fmt.g], sb + src[px + fmt.b];
      }
    }
    AllPixels(src, srcStride, cy, cx);
    r, g, b := sr / 4, sg / 4, sb / 4;
  }

  /** The first `n` pixels of a block, row by row. */
  function PartialSum(src: seq<byte>, stride: nat, r: nat, c: nat, offset: nat, n: nat): nat {
    (if n > 0 then Channel(src, stride, 2 * r, 2 * c, offset) else 0)
    + (if n > 1 then Channel(src, stride, 2 * r, 2 * c + 1, offset) else 0)
    + (if n > 2 then Channel(src, stride, 2 * r + 1, 2 * c, offset) else 0)
    + (if n > 3 then Channel(src, stride, 2 * r + 1, 2 * c + 1, offset) else 0)
  }

  lemma {:induction false} NoPixels(src: seq<byte>, stride: nat, r: nat, c: nat)
    ensures forall offset: nat :: PartialSum(src, stride, r, c, offset, 0) == 0
  {
  }

  lemma {:induction false} AllPixels(src: seq<byte>, stride: nat, r: nat, c: nat)
    ensures forall offset: nat :: PartialSum(src, stride, r, c, offset, 4) / 4 == BlockMean(src, stride, r, c, offset)
  {
    hide Channel;
  }

  lemma {:induction false} NextPixel(src: seq<byte>, stride: nat, r: nat, c: nat, dy: nat, dx: nat, offset: nat)
    requires RowStart(2 * r + 1, stride) + 4 * (2 * c + 2) <= |src| && dy < 2 && dx < 2 && offset < 4
    ensures var i := RowStart(r * 2 + dy, stride) + (c * 2 + dx) * 4 + offset;
      i < |src| && PartialSum(src, stride, r, c, offset, 2 * dy + dx + 1)
        == PartialSum(src, stride, r, c, offset, 2 * dy + dx) + src[i]
  {
    hide Channel;
    MulMonotone(r * 2 + dy, 2 * r + 1, stride);
    ChannelIs(src, stride, r * 2 + dy, c * 2 + dx, offset);
  }

  lemma {:induction false} ChannelIs(src: seq<byte>, stride: nat, r: nat, c: nat, offset: nat)
    requires RowStart(r, stride) + 4 * c + offset < |src|
    ensures Channel(src, stride, r, c, offset) == src[RowStart(r, stride) + 4 * c + offset]
  {
  }

  lemma {:induction false} BlockAt(src: seq<byte>, stride: nat, fmt: PixelFormat, cw: nat, cy: nat, cx: nat)
    requires cx < cw
    ensures var k := RowStart(cy, cw) + cx;
      var r, g := BlockMean(src, stride, cy, cx, fmt.r), BlockMean(src, stride, cy, cx, fmt.g);
      var b := BlockMean(src, stride, cy, cx, fmt.b);
      UPlane(src, stride, fmt, cw)(k) == ChromaU(r, g, b) && VPlane(src, stride, fmt, cw)(k) == ChromaV(r, g, b)
  {
    hide BlockMean, ChromaU, ChromaV;
    RowColumn(cw, cy, cx);
  }

  method FillChroma(src: seq<byte>, srcStride: nat, fmt: PixelFormat, dst: I420Buffer)
    requires dst.Valid() && Known(fmt) && Fits(|src|, srcStride, 4 * dst.width, dst.height)
    modifies dst.data
    ensures Filled(dst.data[..], dst.YLen(), dst.UvLen(), UPlane(src, srcStride, fmt, dst.width / 2))
    ensures Filled(dst.data[..], dst.YLen() + dst.UvLen(), dst.UvLen(), VPlane(src, srcStride, fmt, dst.width / 2))
    ensures dst.Y() == old(dst.Y())
  {
    hide ChromaU, ChromaV, BlockMean, Filled, RowStart, UPlane, VPlane;
    var cw, ch := dst.width / 2, dst.height / 2;
    var u0, v0 := dst.YLen(), dst.YLen() + dst.UvLen();
    ghost var fu, fv := UPlane(src, srcStride, fmt, cw), VPlane(src, srcStride, fmt, cw);
    FirstRow(cw);
    FillNothing(dst.data[..], u0, fu);
    FillNothing(dst.data[..], v0, fv);
    for cy := 0 to ch
      invariant Filled(dst.data[..], u0, RowStart(cy, cw), fu) && Filled(dst.data[..], v0, RowStart(cy, cw), fv)
      invariant dst.Y() == old(dst.Y())
    {
      InRow(|src|, srcStride, 4 * dst.width, dst.height, 2 * cy + 1);
      RowEnds(cw, ch, cy);
      var at := RowStart(cy, cw);
      for cx := 0 to cw
        invariant Filled(dst.data[..], u0, at + cx, fu) && Filled(dst.data[..], v0, at + cx, fv)
        invariant dst.Y() == old(dst.Y())
      {
        BlockAt(src, srcStride, fmt, cw, cy, cx);
        var r, g, b := MeanOfBlock(src, srcStride, fmt, cy, cx);
        ghost var before := dst.data[..];
        var u, v := ChromaU(r, g, b), ChromaV(r, g, b);
        FillTwo(before, u0, v0, at + cx, fu, fv, u, v);
        dst.data[u0 + at + cx] := u;
        dst.data[v0 + at + cx] := v;
        assert dst.data[..] == before[u0 + (at + cx) := u][v0 + (at + cx) := v];
        assert dst.Y() == before[..u0];
      }
    }
  }

  // ---------------------------------------------------------------- the planes from the bytes

  lemma {:induction false} PackedAt(r: nat, w: nat, c: nat)
    ensures RowStart(r, w) + c == r * w + c
  {
  }

  /** Luma at row `r`, column `c`, from the four bytes of the pixel, in the two formats the converter takes. */
  lemma {:induction false} LumaFromBytes(src: seq<byte>, stride: nat, w: nat, r: nat, c: nat)
    requires c < w && r * stride + 4 * c + 3 < |src|
    ensures Known(BGRX) && Known(RGBX)
    ensures
      var o := r * stride + 4 * c;
      var b0: int, b1: int, b2: int := src[o], src[o + 1], src[o + 2];
      && LumaPlane(src, stride, BGRX, w)(r * w + c) == (66 * b2 + 129 * b1 + 25 * b0 + 128) / 256 + 16
      && LumaPlane(src, stride, RGBX, w)(r * w + c) == (66 * b0 + 129 * b1 + 25 * b2 + 128) / 256 + 16
  {
    hide Luma, ChromaU, ChromaV, Channel;
    var o := r * stride + 4 * c;
    RowColumn(w, r, c);
    ChannelIs(src, stride, r, c, 0);
    ChannelIs(src, stride, r, c, 1);
    ChannelIs(src, stride, r, c, 2);
    LimitedRange(src[o + 2], src[o + 1], src[o]);
    LimitedRange(src[o], src[o + 1], src[o + 2]);
  }

  /** The mean of byte `k` of four pixels: two from `a` on and two from `b` on. */
  function Mean(src: seq<byte>, a: nat, b: nat, k: nat): int
    requires a + 4 + k < |src| && b + 4 + k < |src|
  {
    var x: int, y: int, z: int, w: int := src[a + k], src[a + 4 + k], src[b + k], src[b + 4 + k];
    (x + y + z + w) / 4
  }

  lemma {:induction false} BlockIsMean(src: seq<byte>, stride: nat, r: nat, c: nat, k: nat)
    requires k < 4 && 2 * r * stride + 8 * c + 7 < |src| && (2 * r + 1) * stride + 8 * c + 7 < |src|
    ensures BlockMean(src, stride, r, c, k) == Mean(src, 2 * r * stride + 8 * c, (2 * r + 1) * stride + 8 * c, k)
  {
    hide Channel;
    ChannelIs(src, stride, 2 * r, 2 * c, k);
    ChannelIs(src, stride, 2 * r, 2 * c + 1, k);
    ChannelIs(src, stride, 2 * r + 1, 2 * c, k);
    ChannelIs(src, stride, 2 * r + 1, 2 * c + 1, k);
  }

  /** Chroma at block row `r`, block column `c`, from the means of the block's bytes. */
  lemma {:induction false} ChromaFromBytes(src: seq<byte>, stride: nat, cw: nat, r: nat, c: nat)
    requires c < cw && 2 * r * stride + 8 * c + 7 < |src| && (2 * r + 1) * stride + 8 * c + 7 < |src|
    ensures
      var a, b := 2 * r * stride + 8 * c, (2 * r + 1) * stride + 8 * c;
      var m0, m1, m2 := Mean(src, a, b, 0), Mean(src, a, b, 1), Mean(src, a, b, 2);
      && UPlane(src, stride, BGRX, cw)(r * cw + c) == (-38 * m2 - 74 * m1 + 112 * m0 + 128) / 256 + 128
      && VPlane(src, stride, BGRX, cw)(r * cw + c) == (112 * m2 - 94 * m1 - 18 * m0 + 128) / 256 + 128
      && UPlane(src, stride, RGBX, cw)(r * cw + c) == (-38 * m0 - 74 * m1 + 112 * m2 + 128) / 256 + 128
      && VPlane(src, stride, RGBX, cw)(r * cw + c) == (112 * m0 - 94 * m1 - 18 * m2 + 128) / 256 + 128
  {
    hide Luma, ChromaU, ChromaV, BlockMean, Mean, RowStart, UPlane, VPlane;
    PackedAt(r, cw, c);
    BlockAt(src, stride, BGRX, cw, r, c);
    BlockAt(src, stride, RGBX, cw, r, c);
    var a, b := 2 * r * stride + 8 * c, (2 * r + 1) * stride + 8 * c;
    var m0, m1, m2 := Mean(src, a, b, 0), Mean(src, a, b, 1), Mean(src, a, b, 2);
    BlockIsMean(src, stride, r, c, 0);
    BlockIsMean(src, stride, r, c, 1);
    BlockIsMean(src, stride, r, c, 2);
    LimitedRange(m2, m1, m0);
    LimitedRange(m0, m1, m2);
  }
}
