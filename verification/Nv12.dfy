/**
 NV12 to I420 on the capture side, I420 to NV12 on the encoder side, and the round trip through both: every visible
 byte comes back, at any row padding, and the destination's padding is left alone.
 */
module Nv12 {
  import opened Basics
  import opened Planes

  function CbPlane(uv: seq<byte>, stride: nat, cw: nat): nat -> byte {
    (k: nat) => if cw == 0 then 0 else At(uv, stride, k / cw, 2 * (k % cw))
  }

  function CrPlane(uv: seq<byte>, stride: nat, cw: nat): nat -> byte {
    (k: nat) => if cw == 0 then 0 else At(uv, stride, k / cw, 2 * (k % cw) + 1)
  }

  function YPlane(y: seq<byte>, stride: nat, w: nat): nat -> byte {
    (k: nat) => if w == 0 then 0 else At(y, stride, k / w, k % w)
  }

  lemma {:induction false} YPlaneAt(y: seq<byte>, stride: nat, w: nat, r: nat, c: nat)
    requires c < w && RowStart(r, stride) + c < |y|
    ensures YPlane(y, stride, w)(RowStart(r, w) + c) == y[RowStart(r, stride) + c]
  {
    hide RowStart;
    RowColumn(w, r, c);
  }

  lemma {:induction false} FillRow(p: seq<byte>, r: nat, w: nat, y: seq<byte>, stride: nat)
    requires RowStart(r, w) + w == RowStart(r + 1, w) <= |p| && RowStart(r, stride) + w <= |y|
    requires Filled(p, 0, RowStart(r, w), YPlane(y, stride, w))
    ensures Filled(Spliced(p, RowStart(r, w), y[RowStart(r, stride)..RowStart(r, stride) + w], w), 0, RowStart(r + 1, w),
      YPlane(y, stride, w))
  {
    hide RowStart, YPlane;
    var lo, at := RowStart(r, w), RowStart(r, stride);
    var q := Spliced(p, lo, y[at..at + w], w);
    var f := YPlane(y, stride, w);
    forall k: nat | k < lo + w
      ensures q[0 + k] == f(k)
    {
      if k < lo {
        assert q[k] == p[0 + k];
      } else {
        YPlaneAt(y, stride, w, r, k - lo);
        assert q[k] == y[at + (k - lo)];
      }
    }
  }

  /** Split an NV12 frame into the three planes of `dst`; the source rows may be padded. */
  method ToI420(y: seq<byte>, yStride: nat, uv: seq<byte>, uvStride: nat, dst: I420Buffer)
    requires dst.Valid()
    requires Fits(|y|, yStride, dst.width, dst.height) && Fits(|uv|, uvStride, dst.width, dst.height / 2)
    modifies dst.data
    ensures Filled(dst.data[..], 0, dst.YLen(), YPlane(y, yStride, dst.width))
    ensures Filled(dst.data[..], dst.YLen(), dst.UvLen(), CbPlane(uv, uvStride, dst.width / 2))
    ensures Filled(dst.data[..], dst.YLen() + dst.UvLen(), dst.UvLen(), CrPlane(uv, uvStride, dst.width / 2))
  {
    hide Filled, YPlane, CbPlane, CrPlane, Spliced, RowStart;
    var width, height := dst.width, dst.height;
    FirstRow(width);
    FillNothing(dst.data[..], 0, YPlane(y, yStride, width));
    for row := 0 to height
      invariant Filled(dst.data[..], 0, RowStart(row, width), YPlane(y, yStride, width))
    {
      InRow(|y|, yStride, width, height, row);
      RowEnds(width, height, row);
      FillRow(dst.data[..], row, width, y, yStride);
      CopyInto(dst.data, RowStart(row, width), y[RowStart(row, yStride)..RowStart(row, yStride) + width]);
    }
    ghost var before := dst.data[..];
    SplitChroma(uv, uvStride, dst);
    FilledStays(before, dst.data[..], dst.YLen(), YPlane(y, yStride, width));
  }

  lemma {:induction false} PairAt(uv: seq<byte>, stride: nat, cw: nat, row: nat, i: nat)
    requires i < cw && RowStart(row, stride) + 2 * i + 1 < |uv|
    ensures CbPlane(uv, stride, cw)(RowStart(row, cw) + i) == uv[RowStart(row, stride) + 2 * i]
    ensures CrPlane(uv, stride, cw)(RowStart(row, cw) + i) == uv[RowStart(row, stride) + 2 * i + 1]
  {
    hide RowStart;
    RowColumn(cw, row, i);
  }

  /** One interleaved row per two luma rows; Cb goes to U, Cr to V. */
  method SplitChroma(uv: seq<byte>, uvStride: nat, dst: I420Buffer)
    requires dst.Valid() && Fits(|uv|, uvStride, dst.width, dst.height / 2)
    modifies dst.data
    ensures Filled(dst.data[..], dst.YLen(), dst.UvLen(), CbPlane(uv, uvStride, dst.width / 2))
    ensures Filled(dst.data[..], dst.YLen() + dst.UvLen(), dst.UvLen(), CrPlane(uv, uvStride, dst.width / 2))
    ensures dst.Y() == old(dst.Y())
  {
    hide Filled, RowStart, CbPlane, CrPlane;
    var cw, ch := dst.width / 2, dst.height / 2;
    var u0, v0 := dst.YLen(), dst.YLen() + dst.UvLen();
    ghost var fu, fv := CbPlane(uv, uvStride, cw), CrPlane(uv, uvStride, cw);
    FirstRow(cw);
    FillNothing(dst.data[..], u0, fu);
    FillNothing(dst.data[..], v0, fv);
    for row := 0 to ch
      invariant Filled(dst.data[..], u0, RowStart(row, cw), fu) && Filled(dst.data[..], v0, RowStart(row, cw), fv)
      invariant dst.Y() == old(dst.Y())
    {
      InRow(|uv|, uvStride, dst.width, ch, row);
      RowEnds(cw, ch, row);
      var src, at := RowStart(row, uvStride), RowStart(row, cw);
      for i := 0 to cw
        invariant Filled(dst.data[..], u0, at + i, fu) && Filled(dst.data[..], v0, at + i, fv)
        invariant dst.Y() == old(dst.Y())
      {
        PairAt(uv, uvStride, cw, row, i);
        ghost var before := dst.data[..];
        var cb, cr := uv[src + 2 * i], uv[src + 2 * i + 1];
        FillTwo(before, u0, v0, at + i, fu, fv, cb, cr);
        dst.data[u0 + at + i] := cb;
        dst.data[v0 + at + i] := cr;
        assert dst.data[..] == before[u0 + (at + i) := cb][v0 + (at + i) := cr];
        assert dst.Y() == before[..u0];
      }
    }
  }

  // ---------------------------------------------------------------- the encoder's pixel buffer

  function AtLeastOne(n: nat): nat {
    if n == 0 then 1 else n
  }

  /** Copy row by row into a destination with its own, possibly wider, rows. */
  method FillLuma(plane: seq<byte>, width: nat, dst: array<byte>, dstStride: nat)
    requires width <= dstStride && |plane| == RowStart(|plane| / AtLeastOne(width), width)
    requires Fits(dst.Length, dstStride, width, |plane| / AtLeastOne(width))
    modifies dst
    ensures dst[..] == Placed(old(dst[..]), dstStride, plane, width, |plane| / AtLeastOne(width))
  {
    CopyRows(plane, width, |plane| / AtLeastOne(width), dst, dstStride);
  }

  method CopyRows(plane: seq<byte>, width: nat, rows: nat, dst: array<byte>, dstStride: nat)
    requires width <= dstStride && |plane| == RowStart(rows, width) && Fits(dst.Length, dstStride, width, rows)
    modifies dst
    ensures dst[..] == Placed(old(dst[..]), dstStride, plane, width, rows)
  {
    hide Placed, Spliced, RowStart, Fits;
    ghost var before := dst[..];
    NoRowsPlaced(before, dstStride, plane, width);
    for row := 0 to rows
      invariant RowStart(row, width) <= |plane| && dst[..] == Placed(before, dstStride, plane, width, row)
    {
      RowEnds(width, rows, row);
      InRow(dst.Length, dstStride, width, rows, row);
      PlaceRow(before, dstStride, plane, width, row);
      CopyInto(dst, RowStart(row, dstStride), plane[RowStart(row, width)..RowStart(row, width) + width]);
    }
  }

  lemma {:induction false} Doubled(n: nat, cw: nat)
    ensures RowStart(n, 2 * cw) == 2 * RowStart(n, cw)
  {
  }

  /** Interleave U and V row by row into the chroma plane. */
  method FillChroma(u: seq<byte>, v: seq<byte>, cw: nat, dst: array<byte>, dstStride: nat)
    requires |u| == |v| && 2 * cw <= dstStride && |u| == RowStart(|u| / AtLeastOne(cw), cw)
    requires Fits(dst.Length, dstStride, 2 * cw, |u| / AtLeastOne(cw))
    modifies dst
    ensures RowStart(|u| / AtLeastOne(cw), 2 * cw) == 2 * |u|
    ensures dst[..] == Placed(old(dst[..]), dstStride, Interleaved(u, v), 2 * cw, |u| / AtLeastOne(cw))
  {
    Doubled(|u| / AtLeastOne(cw), cw);
    InterleaveRows(u, v, cw, |u| / AtLeastOne(cw), dst, dstStride);
  }

  method InterleaveRows(u: seq<byte>, v: seq<byte>, cw: nat, rows: nat, dst: array<byte>, dstStride: nat)
    requires |u| == |v| == RowStart(rows, cw) && 2 * cw <= dstStride && Fits(dst.Length, dstStride, 2 * cw, rows)
    requires RowStart(rows, 2 * cw) == 2 * |u|
    modifies dst
    ensures dst[..] == Placed(old(dst[..]), dstStride, Interleaved(u, v), 2 * cw, rows)
  {
    hide Placed, Interleaved, Spliced, Fits, RowStart;
    var wide := 2 * cw;
    ghost var src, before := Interleaved(u, v), dst[..];
    NoRowsPlaced(before, dstStride, src, wide);
    for row := 0 to rows
      invariant RowStart(row, wide) <= |src| && dst[..] == Placed(before, dstStride, src, wide, row)
    {
      RowEnds(cw, rows, row);
      RowEnds(wide, rows, row);
      InRow(dst.Length, dstStride, wide, rows, row);
      PlaceRow(before, dstStride, src, wide, row);
      var lo := RowStart(row, cw);
      InterleavedRow(u, v, cw, row);
      InterleaveRow(u[lo..lo + cw], v[lo..lo + cw], dst, RowStart(row, dstStride));
    }
  }

  lemma {:induction false} InterleavedRow(u: seq<byte>, v: seq<byte>, cw: nat, row: nat)
    requires |u| == |v| && RowStart(row, cw) + cw <= |u|
    ensures RowStart(row, 2 * cw) + 2 * cw <= 2 * |u|
    ensures var lo, lo2 := RowStart(row, cw), RowStart(row, 2 * cw);
      Interleaved(u, v)[lo2..lo2 + 2 * cw] == Interleaved(u[lo..lo + cw], v[lo..lo + cw])
  {
    hide Interleaved, RowStart;
    Doubled(row, cw);
    HalfSlice(u, v, RowStart(row, cw), cw);
  }

  lemma {:induction false} HalfSlice(u: seq<byte>, v: seq<byte>, lo: nat, n: nat)
    requires |u| == |v| && lo + n <= |u|
    ensures Interleaved(u, v)[2 * lo..2 * lo + 2 * n] == Interleaved(u[lo..lo + n], v[lo..lo + n])
  {
    var a, b := Interleaved(u, v)[2 * lo..2 * lo + 2 * n], Interleaved(u[lo..lo + n], v[lo..lo + n]);
    forall i | 0 <= i < 2 * n
      ensures a[i] == b[i]
    {
      assert (2 * lo + i) / 2 == lo + i / 2 && (2 * lo + i) % 2 == i % 2;
      assert a[i] == Interleaved(u, v)[2 * lo + i];
      assert u[lo..lo + n][i / 2] == u[lo + i / 2] && v[lo..lo + n][i / 2] == v[lo + i / 2];
    }
  }

  method InterleaveRow(u: seq<byte>, v: seq<byte>, dst: array<byte>, at: nat)
    requires |u| == |v| && at + 2 * |u| <= dst.Length
    modifies dst
    ensures dst[..] == Spliced(old(dst[..]), at, Interleaved(u, v), 2 * |u|)
  {
    hide Spliced;
    ghost var before, s := dst[..], Interleaved(u, v);
    NothingSpliced(before, at, s);
    for i := 0 to |u|
      invariant dst[..] == Spliced(before, at, s, 2 * i)
    {
      SpliceOne(before, at, s, 2 * i);
      SpliceOne(before, at, s, 2 * i + 1);
      ghost var p := dst[..];
      dst[at + 2 * i] := u[i];
      ghost var q := dst[..];
      assert q == p[at + 2 * i := u[i]];
      dst[at + 2 * i + 1] := v[i];
      assert dst[..] == q[at + 2 * i + 1 := v[i]];
    }
  }

  // ---------------------------------------------------------------- the round trip

  /** What the frame buffer holds after the split, as one interleaved plane, is the visible source chroma. */
  lemma {:induction false} SplitIsPacked(
    uv: seq<byte>, stride: nat, cw: nat, rows: nat, u: seq<byte>, v: seq<byte>)
    requires |u| == |v| == RowStart(rows, cw)
    requires Filled(u, 0, RowStart(rows, cw), CbPlane(uv, stride, cw))
    requires Filled(v, 0, RowStart(rows, cw), CrPlane(uv, stride, cw))
    ensures Interleaved(u, v) == Packed(uv, stride, 2 * cw, rows)
  {
    hide At, Filled, RowStart;
    var s, t := Interleaved(u, v), Packed(uv, stride, 2 * cw, rows);
    Doubled(rows, cw);
    forall i | 0 <= i < |s|
      ensures s[i] == t[i]
    {
      Position(i, 2 * cw, rows);
      Position(i / 2, cw, rows);
      var r, c := i / 2 / cw, i / 2 % cw;
      Doubled(r, cw);
      RowColumn(2 * cw, r, 2 * c + i % 2);
      FilledAt(u, RowStart(rows, cw), CbPlane(uv, stride, cw), i / 2);
      FilledAt(v, RowStart(rows, cw), CrPlane(uv, stride, cw), i / 2);
    }
  }

  lemma {:induction false} LumaIsPacked(y: seq<byte>, stride: nat, w: nat, rows: nat, p: seq<byte>)
    requires |p| == RowStart(rows, w) && Filled(p, 0, RowStart(rows, w), YPlane(y, stride, w))
    ensures p == Packed(y, stride, w, rows)
  {
    hide At, Filled, RowStart;
    forall i | 0 <= i < |p|
      ensures p[i] == Packed(y, stride, w, rows)[i]
    {
      Position(i, w, rows);
      FilledAt(p, RowStart(rows, w), YPlane(y, stride, w), i);
    }
  }

  lemma {:induction false} PaddingStays(before: seq<byte>, stride: nat, src: seq<byte>, width: nat, rows: nat, i: nat)
    requires RowStart(rows, width) <= |src| && width <= stride && i < |before|
    requires stride > 0 ==> i % stride >= width || i / stride >= rows
    ensures Placed(before, stride, src, width, rows)[i] == before[i]
  {
  }

  /** The row count recovered from a plane's length; a plane of no columns has none, and placing it changes nothing. */
  lemma {:induction false} RowsOf(before: seq<byte>, stride: nat, src: seq<byte>, width: nat, rows: nat)
    requires |src| == RowStart(rows, width) && width <= stride && Fits(|before|, stride, width, rows)
    ensures var n := |src| / AtLeastOne(width);
      && RowStart(n, width) == |src| && n <= rows && Fits(|before|, stride, width, n)
      && Placed(before, stride, src, width, n) == Placed(before, stride, src, width, rows)
  {
    if width > 0 {
      Remainder(|src|, width, rows, 0);
    } else {
      NoRowsPlaced(before, stride, src, 0);
      assert Placed(before, stride, src, 0, rows) == before;
    }
  }

  lemma {:induction false} RowsOfHalf(u: seq<byte>, cw: nat, rows: nat)
    requires |u| == RowStart(rows, cw)
    ensures var n := |u| / AtLeastOne(cw);
      RowStart(n, cw) == |u| && RowStart(n, 2 * cw) == 2 * |u| == RowStart(rows, 2 * cw)
      && n == 2 * |u| / AtLeastOne(2 * cw)
  {
    Doubled(rows, cw);
    Doubled(|u| / AtLeastOne(cw), cw);
    if cw > 0 {
      Remainder(|u|, cw, rows, 0);
      Remainder(2 * |u|, 2 * cw, rows, 0);
    }
  }

  /** `p` with all of `src` written over the visible bytes: they read back, and everything else is as before. */
  ghost predicate Holds(p: seq<byte>, before: seq<byte>, stride: nat, src: seq<byte>, width: nat, rows: nat) {
    && |p| == |before| && Packed(p, stride, width, rows) == src
    && forall i: nat :: i < |p| && (stride > 0 ==> i % stride >= width || i / stride >= rows) ==> p[i] == before[i]
  }

  lemma {:induction false} PlacedHolds(before: seq<byte>, stride: nat, src: seq<byte>, width: nat, rows: nat)
    requires |src| == RowStart(rows, width) && width <= stride && Fits(|before|, stride, width, rows)
    ensures Holds(Placed(before, stride, src, width, rows), before, stride, src, width, rows)
  {
    PlacedReadsBack(before, stride, src, width, rows);
    forall i: nat | i < |before| && (stride > 0 ==> i % stride >= width || i / stride >= rows)
      ensures Placed(before, stride, src, width, rows)[i] == before[i]
    {
      PaddingStays(before, stride, src, width, rows, i);
    }
  }

  /** `fill_pixel_buffer`: a packed I420 frame written into the encoder's two planes, each with its own row stride. */
  method FillPixelBuffer(
    y: seq<byte>, u: seq<byte>, v: seq<byte>, w: nat, h: nat,
    luma: array<byte>, lumaStride: nat, chroma: array<byte>, chromaStride: nat)
    requires |y| == RowStart(h, w) && w % 2 == 0 && |u| == |v| == RowStart(h / 2, w / 2) && luma != chroma
    requires w <= lumaStride && Fits(luma.Length, lumaStride, w, h)
    requires w <= chromaStride && Fits(chroma.Length, chromaStride, w, h / 2)
    modifies luma, chroma
    ensures Holds(luma[..], old(luma[..]), lumaStride, y, w, h)
    ensures Holds(chroma[..], old(chroma[..]), chromaStride, Interleaved(u, v), w, h / 2)
  {
    hide Holds, Placed, Interleaved, Fits, RowStart;
    var cw, ch := w / 2, h / 2;
    RowsOf(luma[..], lumaStride, y, w, h);
    PlacedHolds(luma[..], lumaStride, y, w, h);
    FillLuma(y, w, luma, lumaStride);
    RowsOfHalf(u, cw, ch);
    RowsOf(chroma[..], chromaStride, Interleaved(u, v), w, ch);
    PlacedHolds(chroma[..], chromaStride, Interleaved(u, v), w, ch);
    FillChroma(u, v, cw, chroma, chromaStride);
  }

  /**
   An NV12 frame split into I420 and interleaved again for the encoder: with any source and destination strides,
   every visible luma and chroma byte is reproduced and the destination's padding is untouched.
   */
  method RoundTrip(
    y: seq<byte>, yStride: nat, uv: seq<byte>, uvStride: nat, frame: I420Buffer,
    luma: array<byte>, lumaStride: nat, chroma: array<byte>, chromaStride: nat)
    requires frame.Valid() && frame.data != luma && frame.data != chroma && luma != chroma
    requires Fits(|y|, yStride, frame.width, frame.height) && Fits(|uv|, uvStride, frame.width, frame.height / 2)
    requires frame.width <= lumaStride && Fits(luma.Length, lumaStride, frame.width, frame.height)
    requires frame.width <= chromaStride && Fits(chroma.Length, chromaStride, frame.width, frame.height / 2)
    modifies frame.data, luma, chroma
    ensures Holds(luma[..], old(luma[..]), lumaStride,
      Packed(y, yStride, frame.width, frame.height), frame.width, frame.height)
    ensures Holds(chroma[..], old(chroma[..]), chromaStride,
      Packed(uv, uvStride, frame.width, frame.height / 2), frame.width, frame.height / 2)
  {
    hide Filled, Holds, Packed, Placed, Interleaved, YPlane, CbPlane, CrPlane, Fits, RowStart;
    var w, h, cw, ch := frame.width, frame.height, frame.width / 2, frame.height / 2;
    ToI420(y, yStride, uv, uvStride, frame);
    ghost var d := frame.data[..];
    var yp, up, vp := frame.Planes();
    assert vp == d[frame.YLen() + frame.UvLen()..frame.YLen() + frame.UvLen() + RowStart(ch, cw)];
    SliceFilled(d, 0, RowStart(h, w), YPlane(y, yStride, w));
    SliceFilled(d, frame.YLen(), RowStart(ch, cw), CbPlane(uv, uvStride, cw));
    SliceFilled(d, frame.YLen() + frame.UvLen(), RowStart(ch, cw), CrPlane(uv, uvStride, cw));
    LumaIsPacked(y, yStride, w, h, yp);
    SplitIsPacked(uv, uvStride, cw, ch, up, vp);
    FillPixelBuffer(yp, up, vp, w, h, luma, lumaStride, chroma, chromaStride);
  }

  // ---------------------------------------------------------------- byte by byte

  /** Each sample from its own byte: Cb before Cr. */
  lemma {:induction false} SampleFromByte(y: seq<byte>, uv: seq<byte>, stride: nat, w: nat, r: nat, c: nat)
    requires c < w
    ensures r * stride + c < |y| ==> YPlane(y, stride, w)(r * w + c) == y[r * stride + c]
    ensures r * stride + 2 * c + 1 < |uv| ==>
      CbPlane(uv, stride, w)(r * w + c) == uv[r * stride + 2 * c] && CrPlane(uv, stride, w)(r * w + c) == uv[r * stride + 2 * c + 1]
  {
    if r * stride + c < |y| {
      YPlaneAt(y, stride, w, r, c);
    }
    if r * stride + 2 * c + 1 < |uv| {
      PairAt(uv, stride, w, r, c);
    }
  }

  /** A byte of a placed row, by its position. */
  lemma {:induction false} PlacedByte(
    before: seq<byte>, stride: nat, src: seq<byte>, width: nat, rows: nat, r: nat, c: nat)
    requires |src| == RowStart(rows, width) && width <= stride && r < rows && c < width
    requires RowStart(r, stride) + c < |before|
    ensures RowStart(r, width) + c < |src|
    ensures Placed(before, stride, src, width, rows)[RowStart(r, stride) + c] == src[RowStart(r, width) + c]
  {
    hide RowStart;
    RowEnds(width, rows, r);
    RowColumn(stride, r, c);
  }

  /** Each sample to its own byte: a visible byte of the destination is that of the source, U before V in chroma. */
  lemma {:induction false} SampleToByte(
    before: seq<byte>, stride: nat, u: seq<byte>, v: seq<byte>, cw: nat, rows: nat, r: nat, c: nat)
    requires |u| == |v| == rows * cw && 2 * cw <= stride && r < rows && c < cw && r * stride + 2 * c + 1 < |before|
    ensures RowStart(rows, 2 * cw) == 2 * |u| && r * cw + c < |u|
    ensures var p := Placed(before, stride, Interleaved(u, v), 2 * cw, rows);
      p[r * stride + 2 * c] == u[r * cw + c] && p[r * stride + 2 * c + 1] == v[r * cw + c]
  {
    hide RowStart, Placed;
    Doubled(rows, cw);
    PackedRows(rows, cw);
    PackedRows(r, cw);
    PackedRows(r, stride);
    Doubled(r, cw);
    PlacedByte(before, stride, Interleaved(u, v), 2 * cw, rows, r, 2 * c);
    PlacedByte(before, stride, Interleaved(u, v), 2 * cw, rows, r, 2 * c + 1);
  }

  lemma {:induction false} PackedRows(n: nat, width: nat)
    ensures RowStart(n, width) == n * width
  {
  }

  lemma {:induction false} LumaToByte(before: seq<byte>, stride: nat, y: seq<byte>, w: nat, rows: nat, r: nat, c: nat)
    requires |y| == rows * w && w <= stride && r < rows && c < w && r * stride + c < |before|
    ensures RowStart(rows, w) == |y| && r * w + c < |y|
    ensures Placed(before, stride, y, w, rows)[r * stride + c] == y[r * w + c]
  {
    hide RowStart, Placed;
    PackedRows(rows, w);
    PackedRows(r, w);
    PackedRows(r, stride);
    PlacedByte(before, stride, y, w, rows, r, c);
  }

  /** The packed sample of row `r` and column `c` is the byte there, whatever the stride. */
  lemma {:induction false} PackedFromByte(src: seq<byte>, stride: nat, width: nat, rows: nat, r: nat, c: nat)
    requires r < rows && c < width && r * stride + c < |src|
    ensures r * width + c < |Packed(src, stride, width, rows)|
    ensures Packed(src, stride, width, rows)[r * width + c] == src[r * stride + c]
  {
    hide RowStart;
    PackedRows(r, width);
    PackedRows(r, stride);
    RowEnds(width, rows, r);
    RowColumn(width, r, c);
  }

  lemma {:induction false} HeldByte(
    p: seq<byte>, before: seq<byte>, stride: nat, src: seq<byte>, width: nat, rows: nat, i: nat)
    requires |src| == RowStart(rows, width) && width <= stride && Holds(p, before, stride, src, width, rows) && i < |p|
    ensures p[i] == Placed(before, stride, src, width, rows)[i]
  {
    hide RowStart, Packed;
    if stride > 0 && i % stride < width && i / stride < rows {
      var r, c := i / stride, i % stride;
      assert i == r * stride + c;
      PackedFromByte(p, stride, width, rows, r, c);
      PackedRows(r, width);
      RowEnds(width, rows, r);
    }
  }

  /** What `fill_pixel_buffer` promises leaves one outcome: the rows placed, and not a byte besides. */
  lemma {:induction false} HoldsIffPlaced(p: seq<byte>, before: seq<byte>, stride: nat, src: seq<byte>, width: nat, rows: nat)
    requires |src| == RowStart(rows, width) && width <= stride && Fits(|before|, stride, width, rows)
    ensures Holds(p, before, stride, src, width, rows) <==> p == Placed(before, stride, src, width, rows)
  {
    hide RowStart, Packed, Placed, Holds, Fits;
    PlacedHolds(before, stride, src, width, rows);
    if Holds(p, before, stride, src, width, rows) {
      HeldSize(p, before, stride, src, width, rows);
      forall i | 0 <= i < |p|
        ensures p[i] == Placed(before, stride, src, width, rows)[i]
      {
        HeldByte(p, before, stride, src, width, rows, i);
      }
    }
  }

  lemma {:induction false} HeldSize(p: seq<byte>, before: seq<byte>, stride: nat, src: seq<byte>, width: nat, rows: nat)
    requires Holds(p, before, stride, src, width, rows)
    ensures |p| == |before|
  {
  }
}
