/** Machine integers, big-endian byte strings and the growable buffer that every component shares. */
module Basics {

  datatype Option<+T> = None | Some(value: T)

  const TWO_16: int := 0x1_0000
  const TWO_32: int := 0x1_0000_0000
  const TWO_64: int := 0x1_0000_0000_0000_0000

  type byte = x: int | 0 <= x < 256
  type u16 = x: int | 0 <= x < TWO_16
  type u32 = x: int | 0 <= x < TWO_32
  type u64 = x: int | 0 <= x < TWO_64
  type i32 = x: int | -TWO_32 / 2 <= x < TWO_32 / 2

  /** A growable byte vector passed by mutable reference. */
  class ByteVec {
    var bytes: seq<byte>

    constructor ()
      ensures bytes == []
    {
      bytes := [];
    }

    method Extend(more: seq<byte>)
      modifies this
      ensures bytes == old(bytes) + more
    {
      bytes := bytes + more;
    }
  }

  /** The first `n` bytes of `src` written over `before` from `at` on. */
  function Spliced(before: seq<byte>, at: nat, src: seq<byte>, n: nat): seq<byte>
    requires n <= |src| && at + n <= |before|
  {
    before[..at] + src[..n] + before[at + n..]
  }

  lemma {:induction false} SpliceOne(before: seq<byte>, at: nat, src: seq<byte>, n: nat)
    requires n < |src| && at + |src| <= |before|
    ensures Spliced(before, at, src, n)[at + n := src[n]] == Spliced(before, at, src, n + 1)
  {
  }

  /** `copy_from_slice` at an offset. */
  method CopyInto(dst: array<byte>, at: nat, src: seq<byte>)
    requires at + |src| <= dst.Length
    modifies dst
    ensures dst[..] == Spliced(old(dst[..]), at, src, |src|)
  {
    hide Spliced;
    ghost var before := dst[..];
    NothingSpliced(before, at, src);
    for i := 0 to |src|
      invariant dst[..] == Spliced(before, at, src, i)
    {
      SpliceOne(before, at, src, i);
      ghost var p := dst[..];
      dst[at + i] := src[i];
      assert dst[..] == p[at + i := src[i]];
    }
  }

  lemma {:induction false} NothingSpliced(before: seq<byte>, at: nat, src: seq<byte>)
    requires at <= |before|
    ensures Spliced(before, at, src, 0) == before
  {
  }

  ghost predicate NoDuplicates<T>(s: seq<T>) {
    forall i, j :: 0 <= i < j < |s| ==> s[i] != s[j]
  }

  function Pow256(n: nat): (p: nat)
    ensures p > 0
  {
    if n == 0 then 1 else 256 * Pow256(n - 1)
  }

  lemma {:induction false} Pow256Values()
    ensures Pow256(1) == 256 && Pow256(2) == TWO_16 && Pow256(4) == TWO_32 && Pow256(8) == TWO_64
  {
    assert Pow256(2) == 256 * Pow256(1);
    assert Pow256(4) == 256 * Pow256(3) == 256 * 256 * Pow256(2);
    assert Pow256(6) == 256 * Pow256(5) == 256 * 256 * Pow256(4);
    assert Pow256(8) == 256 * Pow256(7) == 256 * 256 * Pow256(6);
  }

  /** The low `n` bytes of `x`, most significant first. */
  function BigEndian(n: nat, x: nat): (b: seq<byte>)
    ensures |b| == n
  {
    if n == 0 then [] else BigEndian(n - 1, x / 256) + [x % 256]
  }

  function FromBigEndian(b: seq<byte>): (x: nat)
    ensures x < Pow256(|b|)
  {
    if b == [] then 0 else FromBigEndian(b[..|b| - 1]) * 256 + b[|b| - 1]
  }

  /** Writing `n` bytes loses exactly what does not fit, as a narrowing cast does. */
  lemma {:induction false} ReadBack(n: nat, x: nat)
    ensures FromBigEndian(BigEndian(n, x)) == x % Pow256(n)
  {
    if n == 0 {
    } else {
      var b := BigEndian(n, x);
      assert b[..n - 1] == BigEndian(n - 1, x / 256);
      ReadBack(n - 1, x / 256);
      var p := Pow256(n - 1);
      SplitLowByte(x, p);
    }
  }

  lemma {:induction false} SplitLowByte(x: nat, p: nat)
    requires p > 0
    ensures (x / 256 % p) * 256 + x % 256 == x % (256 * p)
  {
    var q, r := x / 256, x % 256;
    var a, c := q / p, q % p;
    assert q == a * p + c;
    assert x == q * 256 + r;
    assert q * 256 == (a * p + c) * 256 == a * (256 * p) + c * 256;
    assert x == a * (256 * p) + (c * 256 + r);
    assert 0 <= c * 256 + r < 256 * p;
    Remainder(x, 256 * p, a, c * 256 + r);
  }

  lemma {:induction false} MulMonotone(a: int, b: int, d: int)
    requires a <= b && 0 <= d
    ensures a * d <= b * d
  {
    assert 0 <= (b - a) * d;
  }

  lemma {:induction false} Remainder(x: int, d: int, q: int, r: int)
    requires d > 0 && x == q * d + r && 0 <= r < d
    ensures x / d == q && x % d == r
  {
    var q' := x / d;
    assert q' * d <= x < q' * d + d;
    if q < q' {
      MulMonotone(q + 1, q', d);
    } else if q' < q {
      MulMonotone(q' + 1, q, d);
    }
  }

  lemma {:induction false} ReadBackExact(n: nat, x: nat)
    requires x < Pow256(n)
    ensures FromBigEndian(BigEndian(n, x)) == x
  {
    ReadBack(n, x);
    Remainder(x, Pow256(n), 0, x);
  }

  lemma {:induction false} WriteBack(b: seq<byte>)
    ensures BigEndian(|b|, FromBigEndian(b)) == b
  {
    if b != [] {
      var init, last := b[..|b| - 1], b[|b| - 1];
      WriteBack(init);
      var x := FromBigEndian(b);
      assert x / 256 == FromBigEndian(init) && x % 256 == last;
      assert b == init + [last];
    }
  }

  lemma {:induction false} PrefixesOfSum<T>(a: seq<T>, x: seq<T>, b: seq<T>, y: seq<T>)
    requires a + x == b + y && |a| == |b|
    ensures a == b && x == y
  {
    assert a == (a + x)[..|a|] && b == (b + y)[..|b|];
    assert x == (a + x)[|a|..] && y == (b + y)[|b|..];
  }

  ghost function Below(n: nat): (s: set<int>)
    ensures |s| == n
    ensures forall k :: k in s <==> 0 <= k < n
  {
    if n == 0 then {} else Below(n - 1) + {n - 1}
  }

  /** Pigeonhole: `n` distinct indices below `n` are all of them. */
  lemma {:induction false} AllIndices(have: set<int>, n: nat)
    requires |have| == n && forall k :: k in have ==> 0 <= k < n
    ensures forall k :: 0 <= k < n ==> k in have
  {
    var all := Below(n);
    assert have <= all;
    if have != all {
      var missing :| missing in all && missing !in have;
      SmallerSubset(have, all - {missing});
    }
  }

  lemma {:induction false} SmallerSubset<T>(a: set<T>, b: set<T>)
    requires a <= b
    ensures |a| <= |b|
    decreases |a|
  {
    if a != {} {
      var x :| x in a;
      SmallerSubset(a - {x}, b - {x});
    }
  }

  lemma {:induction false} DistinctCount<T>(s: seq<T>, elements: set<T>)
    requires NoDuplicates(s) && forall x :: x in elements <==> x in s
    ensures |elements| == |s|
  {
    if s == [] {
      assert elements == {};
    } else {
      var init, last := s[..|s| - 1], s[|s| - 1];
      assert s == init + [last] && last !in init;
      DistinctCount(init, elements - {last});
    }
  }
}
