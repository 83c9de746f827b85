/** Strided image planes: rows of a padded buffer, and the tightly packed I420 frame. */
module Planes {
  import opened Basics

  /** Where row `r` starts when rows are `stride` apart. */
  function RowStart(r: nat, stride: nat): nat {
    r * stride
  }

  /** The byte at row `r`, column `c` of a buffer whose rows start `stride` apart. */
  function At(src: seq<byte>, stride: nat, r: nat, c: nat): byte {
    if RowStart(r, stride) + c < |src| then src[RowStart(r, stride) + c] else 0
  }

  /** `rows` rows of `width` visible bytes fit. */
  predicate Fits(len: nat, stride: nat, width: nat, rows: nat) {
    rows > 0 ==> RowStart(rows - 1, stride) + width <= len
  }

  lemma {:induction false} FirstRow(stride: nat)
    ensures RowStart(0, stride) == 0
  {
  }

  /** Where each packed sample sits: position k is row k / width, column k % width. */
  lemma {:induction false} RowColumn(width: nat, r: nat, c: nat)
    requires c < width
    ensures (RowStart(r, width) + c) / width == r && (RowStart(r, width) + c) % width == c
  {
    Remainder(r * width + c, width, r, c);
  }

  lemma {:induction false} Position(k: nat, width: nat, rows: nat)
    requires k < RowStart(rows, width)
    ensures width > 0 && k / width < rows && k % width < width && k == RowStart(k / width, width) + k % width
  {
    if k / width >= rows {
      MulMonotone(rows, k / width, width);
    }
  }

  lemma {:induction false} InRow(len: nat, stride: nat, width: nat, rows: nat, r: nat)
    requires Fits(len, stride, width, rows) && r < rows
    ensures RowStart(r, stride) + width <= len
  {
    MulMonotone(r, rows - 1, stride);
  }

  /** What slice indexing asks for: every row ends within the buffer. */
  lemma {:induction false} FitsIffRowsEnd(len: nat, stride: nat, width: nat, rows: nat)
    ensures Fits(len, stride, width, rows) <==> forall r: nat :: r < rows ==> RowStart(r, stride) + width <= len
  {
    if Fits(len, stride, width, rows) {
      forall r: nat | r < rows
        ensures RowStart(r, stride) + width <= len
      {
        InRow(len, stride, width, rows, r);
      }
    } else {
      assert rows > 0 && RowStart(rows - 1, stride) + width > len;
    }
  }

  lemma {:induction false} RowEnds(width: nat, rows: nat, r: nat)
    requires r < rows
    ensures RowStart(r, width) + width == RowStart(r + 1, width) <= RowStart(rows, width)
  {
    MulMonotone(r + 1, rows, width);
  }

  /** The visible bytes, packed. */
  function Packed(src: seq<byte>, stride: nat, width: nat, rows: nat): (p: seq<byte>)
    ensures |p| == RowStart(rows, width)
  {
    seq(RowStart(rows, width), k requires 0 <= k < RowStart(rows, width) =>
      Position(k, width, rows); At(src, stride, k / width, k % width))
  }

  /** `src`'s rows written over the visible bytes of `before`; everything else stays. */
  function Placed(before: seq<byte>, stride: nat, src: seq<byte>, width: nat, rows: nat): (p: seq<byte>)
    requires RowStart(rows, width) <= |src| && width <= stride
    ensures |p| == |before|
  {
    seq(|before|, i requires 0 <= i < |before| =>
      if stride > 0 && i % stride < width && i / stride < rows
      then At(src, width, i / stride, i % stride)
      else before[i])
  }

  /** One more row placed is one more row copied. */
  lemma {:induction false} PlaceRow(before: seq<byte>, stride: nat, src: seq<byte>, width: nat, r: nat)
    requires RowStart(r, width) + width == RowStart(r + 1, width) <= |src| && width <= stride
    requires RowStart(r, stride) + width <= |before|
    ensures Placed(before, stride, src, width, r + 1)
      == Spliced(Placed(before, stride, src, width, r), RowStart(r, stride),
                 src[RowStart(r, width)..RowStart(r, width) + width], width)
  {
    var q, lo := Placed(before, stride, src, width, r + 1), RowStart(r, width);
    var w := Spliced(Placed(before, stride, src, width, r), RowStart(r, stride), src[lo..lo + width], width);
    forall i | 0 <= i < |before|
      ensures q[i] == w[i]
    {
      PlaceOne(before, stride, src, width, r, i);
    }
  }

  lemma {:induction false} PlaceOne(before: seq<byte>, stride: nat, src: seq<byte>, width: nat, r: nat, i: nat)
    requires RowStart(r, width) + width == RowStart(r + 1, width) <= |src| && width <= stride
    requires i < |before|
    ensures var lo, at := RowStart(r, width), RowStart(r, stride);
      Placed(before, stride, src, width, r + 1)[i]
      == if at <= i < at + width then src[lo + (i - at)] else Placed(before, stride, src, width, r)[i]
  {
    if stride > 0 {
      var q, c := i / stride, i % stride;
      assert i == q * stride + c;
      if RowStart(r, stride) <= i < RowStart(r, stride) + width {
        Remainder(i, stride, r, i - r * stride);
      } else if q == r {
        assert c >= width;
      }
    }
  }

  lemma {:induction false} NoRowsPlaced(before: seq<byte>, stride: nat, src: seq<byte>, width: nat)
    requires width <= stride
    ensures RowStart(0, width) == 0 && Placed(before, stride, src, width, 0) == before
  {
  }

  /** Placing rows and reading them back, at any strides. */
  lemma {:induction false} PlacedReadsBack(before: seq<byte>, stride: nat, src: seq<byte>, width: nat, rows: nat)
    requires RowStart(rows, width) == |src| && width <= stride && Fits(|before|, stride, width, rows)
    ensures Packed(Placed(before, stride, src, width, rows), stride, width, rows) == src
  {
    hide RowStart;
    var p := Placed(before, stride, src, width, rows);
    forall k | 0 <= k < RowStart(rows, width)
      ensures Packed(p, stride, width, rows)[k] == src[k]
    {
      Position(k, width, rows);
      var r, c := k / width, k % width;
      InRow(|before|, stride, width, rows, r);
      RowColumn(stride, r, c);
    }
  }

  // ---------------------------------------------------------------- filling a plane sample by sample

  /** The first `n` samples of the plane starting at `at` are `f(0)`, ..., `f(n - 1)`. */
  ghost predicate Filled(p: seq<byte>, at: nat, n: nat, f: nat -> byte) {
    at + n <= |p| && forall k: nat :: k < n ==> p[at + k] == f(k)
  }

  lemma {:induction false} FillNext(p: seq<byte>, at: nat, n: nat, f: nat -> byte, x: byte)
    requires Filled(p, at, n, f) && at + n < |p| && x == f(n)
    ensures Filled(p[at + n := x], at, n + 1, f)
  {
  }

  lemma {:induction false} FillElsewhere(p: seq<byte>, at: nat, n: nat, f: nat -> byte, i: nat, x: byte)
    requires Filled(p, at, n, f) && i < |p| && (i < at || at + n <= i)
    ensures Filled(p[i := x], at, n, f)
  {
  }

  lemma {:induction false} FilledStays(p: seq<byte>, q: seq<byte>, n: nat, f: nat -> byte)
    requires Filled(p, 0, n, f) && n <= |q| && p[..n] == q[..n]
    ensures Filled(q, 0, n, f)
  {
    forall k: nat | k < n
      ensures q[0 + k] == f(k)
    {
      assert q[k] == q[..n][k] == p[0 + k];
    }
  }

  lemma {:induction false} FilledAt(p: seq<byte>, n: nat, f: nat -> byte, k: nat)
    requires Filled(p, 0, n, f) && k < n
    ensures p[k] == f(k)
  {
    assert p[0 + k] == f(k);
  }

  lemma {:induction false} SliceFilled(p: seq<byte>, at: nat, n: nat, f: nat -> byte)
    requires Filled(p, at, n, f)
    ensures Filled(p[at..at + n], 0, n, f)
  {
    forall k: nat | k < n
      ensures p[at..at + n][0 + k] == f(k)
    {
      assert p[at + k] == f(k);
    }
  }

  /** One more sample of each of two planes. */
  lemma {:induction false} FillTwo(
    p: seq<byte>, at: nat, bt: nat, n: nat, f: nat -> byte, g: nat -> byte, x: byte, y: byte)
    requires Filled(p, at, n, f) && Filled(p, bt, n, g) && at + n < bt && bt + n < |p| && x == f(n) && y == g(n)
    ensures Filled(p[at + n := x][bt + n := y], at, n + 1, f) && Filled(p[at + n := x][bt + n := y], bt, n + 1, g)
  {
    FillNext(p, at, n, f, x);
    FillElsewhere(p, bt, n, g, at + n, x);
    FillElsewhere(p[at + n := x], at, n + 1, f, bt + n, y);
    FillNext(p[at + n := x], bt, n, g, y);
  }

  lemma {:induction false} FillNothing(p: seq<byte>, at: nat, f: nat -> byte)
    requires at <= |p|
    ensures Filled(p, at, 0, f)
  {
  }

  // ---------------------------------------------------------------- two interleaved planes

  function Interleaved(u: seq<byte>, v: seq<byte>): (s: seq<byte>)
    requires |u| == |v|
    ensures |s| == 2 * |u|
  {
    seq(2 * |u|, i requires 0 <= i < 2 * |u| => if i % 2 == 0 then u[i / 2] else v[i / 2])
  }

  // ---------------------------------------------------------------- the packed I420 frame

  /** Y, then U, then V in one buffer; both dimensions even. */
  class I420Buffer {
    const width: nat
    const height: nat
    const data: array<byte>

    function YLen(): nat {
      RowStart(height, width)
    }

    function UvLen(): nat {
      RowStart(height / 2, width / 2)
    }

    ghost predicate Valid() {
      width % 2 == 0 && height % 2 == 0 && data.Length == YLen() + 2 * UvLen()
    }

    ghost function Y(): (p: seq<byte>)
      requires Valid()
      reads data
      ensures |p| == YLen()
    {
      data[..YLen()]
    }

    ghost function U(): (p: seq<byte>)
      requires Valid()
      reads data
      ensures |p| == UvLen()
    {
      data[YLen()..YLen() + UvLen()]
    }

    ghost function V(): (p: seq<byte>)
      requires Valid()
      reads data
      ensures |p| == UvLen()
    {
      data[YLen() + UvLen()..]
    }

    /** Both dimensions are rounded down to even. */
    constructor (w: u32, h: u32)
      ensures Valid() && fresh(data) && width == w - w % 2 && height == h - h % 2
      ensures data.Length == width * height + 2 * ((width / 2) * (height / 2))
      ensures forall i :: 0 <= i < data.Length ==> data[i] == 0
    {
      width, height := w - w % 2, h - h % 2;
      data := new byte[RowStart(h - h % 2, w - w % 2) + 2 * RowStart((h - h % 2) / 2, (w - w % 2) / 2)](_ => 0);
    }

    /** `split_at` of the whole buffer. */
    method Planes() returns (y: seq<byte>, u: seq<byte>, v: seq<byte>)
      requires Valid()
      ensures y == Y() && u == U() && v == V() && data[..] == y + u + v
      ensures |y| == width * height && |u| == |v| == (width / 2) * (height / 2)
    {
      y, u, v := data[..YLen()], data[YLen()..YLen() + UvLen()], data[YLen() + UvLen()..];
    }

    method CopyFrame(dst: I420Buffer)
      requires Valid() && dst.Valid() && dst.width == width && dst.height == height
      modifies dst.data
      ensures dst.data[..] == old(data[..])
    {
      CopyInto(dst.data, 0, data[..]);
    }
  }
}
