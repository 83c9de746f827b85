/**
 Length-prefixed NAL units to Annex B start codes, and the start-code scanner that reads them back (Annex B of
 ITU-T H.265).
 */
module AnnexB {
  import opened Basics

  const START_CODE: seq<byte> := [0, 0, 0, 1]
  const NAL_IDR_W_RADL: int := 19
  const NAL_IDR_N_LP: int := 20

  datatype NalError = TruncatedPrefix | ExceedsAccessUnit | ZeroLength

  datatype Result = Ok(keyframe: bool) | Err(error: NalError)

  function NalType(header: byte): int {
    header / 2 % 64
  }

  predicate IsIdr(nal: seq<byte>) {
    nal != [] && (NalType(nal[0]) == NAL_IDR_W_RADL || NalType(nal[0]) == NAL_IDR_N_LP)
  }

  /** The units read before the end or the first error. */
  datatype Parsed = Parsed(nals: seq<seq<byte>>, error: Option<NalError>)

  /** The length is accumulated in 64 bits. */
  function PrefixValue(prefix: seq<byte>): nat {
    FromBigEndian(prefix) % TWO_64
  }

  function Parse(src: seq<byte>, n: nat): Parsed
    decreases |src|
  {
    if src == [] then Parsed([], None)
    else if n > |src| then Parsed([], Some(TruncatedPrefix))
    else
      var length := PrefixValue(src[..n]);
      if n + length > |src| then Parsed([], Some(ExceedsAccessUnit))
      else if length == 0 then Parsed([], Some(ZeroLength))
      else
        var rest := Parse(src[n + length..], n);
        Parsed([src[n..n + length]] + rest.nals, rest.error)
  }

  /** The Annex B byte stream: each unit after a four-byte start code. */
  function ByteStream(nals: seq<seq<byte>>): seq<byte> {
    if nals == [] then [] else START_CODE + nals[0] + ByteStream(nals[1..])
  }

  predicate AnyIdr(nals: seq<seq<byte>>) {
    exists i :: 0 <= i < |nals| && IsIdr(nals[i])
  }

  /** 256 divides 2^64, so a wrapped product leaves room for one more byte. */
  lemma {:induction false} WrapRoom(r: nat)
    ensures r * 256 % TWO_64 + 255 < TWO_64
  {
    var q, w := r * 256 / TWO_64, r * 256 % TWO_64;
    assert w == 256 * (r - q * 0x100_0000_0000_0000);
  }

  lemma {:induction false} WrapStep(x: nat, b: byte)
    ensures (x % TWO_64) * 256 % TWO_64 + b == (x * 256 + b) % TWO_64
  {
    var q, r := x / TWO_64, x % TWO_64;
    var q', r' := r * 256 / TWO_64, r * 256 % TWO_64;
    WrapRoom(r);
    assert x * 256 + b == (q * 256 + q') * TWO_64 + (r' + b);
    Remainder(x * 256 + b, TWO_64, q * 256 + q', r' + b);
  }

  lemma {:induction false} StreamSnoc(nals: seq<seq<byte>>, nal: seq<byte>)
    ensures ByteStream(nals + [nal]) == ByteStream(nals) + START_CODE + nal
  {
    if nals == [] {
      assert nals + [nal] == [nal] && [nal][1..] == [];
    } else {
      assert (nals + [nal])[1..] == nals[1..] + [nal];
      StreamSnoc(nals[1..], nal);
    }
  }

  method ReadPrefix(prefix: seq<byte>) returns (length: nat)
    ensures length == PrefixValue(prefix)
  {
    length := 0;
    for i := 0 to |prefix|
      invariant length == PrefixValue(prefix[..i])
    {
      assert prefix[..i + 1][..i] == prefix[..i];
      WrapStep(FromBigEndian(prefix[..i]), prefix[i]);
      length := length * 256 % TWO_64 + prefix[i];
    }
    assert prefix[..|prefix|] == prefix;
  }

  /** One round of the parser, at an offset. */
  lemma {:induction false} ParseAt(src: seq<byte>, n: nat, at: nat)
    requires at < |src|
    ensures Parse(src[at..], n) ==
      if at + n > |src| then Parsed([], Some(TruncatedPrefix))
      else
        var end := at + n + PrefixValue(src[at..at + n]);
        if end > |src| then Parsed([], Some(ExceedsAccessUnit))
        else if end == at + n then Parsed([], Some(ZeroLength))
        else Parsed([src[at + n..end]] + Parse(src[end..], n).nals, Parse(src[end..], n).error)
  {
    hide PrefixValue;
    if at + n <= |src| {
      assert src[at..][..n] == src[at..at + n];
      var end := at + n + PrefixValue(src[at..at + n]);
      if end <= |src| {
        assert src[at..][n..end - at] == src[at + n..end] && src[at..][end - at..] == src[end..];
      }
    }
  }

  lemma {:induction false} NothingToParse(n: nat)
    ensures Parse([], n) == Parsed([], None) && ByteStream([]) == [] && !AnyIdr([])
  {
  }

  /** One more unit after those already read. */
  lemma {:induction false} UnitRead(src: seq<byte>, n: nat, at: nat, done: seq<seq<byte>>)
    requires at < |src| && at + n <= |src|
    requires var end := at + n + PrefixValue(src[at..at + n]); at + n < end <= |src|
    ensures var end := at + n + PrefixValue(src[at..at + n]);
      var unit := src[at + n..end];
      && done + Parse(src[at..], n).nals == (done + [unit]) + Parse(src[end..], n).nals
      && Parse(src[at..], n).error == Parse(src[end..], n).error
      && ByteStream(done + [unit]) == ByteStream(done) + START_CODE + unit
      && (AnyIdr(done + [unit]) <==>
            AnyIdr(done) || NalType(unit[0]) == NAL_IDR_W_RADL || NalType(unit[0]) == NAL_IDR_N_LP)
  {
    hide PrefixValue, AnyIdr, Parse, ByteStream;
    ParseAt(src, n, at);
    var unit := src[at + n..at + n + PrefixValue(src[at..at + n])];
    IdrSnoc(done, unit);
    StreamSnoc(done, unit);
  }

  /** On an error the units already read stay in `out`. */
  method Append(src: seq<byte>, n: nat, out: ByteVec) returns (r: Result)
    modifies out
    ensures out.bytes == old(out.bytes) + ByteStream(Parse(src, n).nals)
    ensures r == match Parse(src, n).error
      case None => Ok(AnyIdr(Parse(src, n).nals))
      case Some(e) => Err(e)
    ensures r.Ok? ==> var nals := Parse(src, n).nals;
      r.keyframe <==> exists i :: 0 <= i < |nals| && nals[i] != [] && IdrByte(nals[i][0])
  {
    hide PrefixValue, AnyIdr, Parse, ByteStream;
    IdrByFirstByte(Parse(src, n).nals);
    var keyframe := false;
    var offset := 0;
    ghost var done: seq<seq<byte>> := [];
    NothingToParse(n);
    assert src[0..] == src && src[|src|..] == [];
    while offset < |src|
      invariant 0 <= offset <= |src|
      invariant Parse(src, n).nals == done + Parse(src[offset..], n).nals
      invariant Parse(src, n).error == Parse(src[offset..], n).error
      invariant out.bytes == old(out.bytes) + ByteStream(done)
      invariant keyframe == AnyIdr(done)
    {
      ParseAt(src, n, offset);
      assert done + [] == done;
      if offset + n > |src| {
        return Err(TruncatedPrefix);
      }
      var length := ReadPrefix(src[offset..offset + n]);
      offset := offset + n;
      var end := offset + length;
      if end > |src| {
        return Err(ExceedsAccessUnit);
      }
      if length == 0 {
        return Err(ZeroLength);
      }
      var nalType := NalType(src[offset]);
      keyframe := keyframe || nalType == NAL_IDR_W_RADL || nalType == NAL_IDR_N_LP;
      out.Extend(START_CODE);
      out.Extend(src[offset..end]);
      UnitRead(src, n, offset - n, done);
      done := done + [src[offset..end]];
      offset := end;
    }
    assert src[offset..] == [];
    assert done + [] == done;
    return Ok(keyframe);
  }

  lemma {:induction false} IdrSnoc(nals: seq<seq<byte>>, nal: seq<byte>)
    requires nal != []
    ensures AnyIdr(nals + [nal]) <==>
      AnyIdr(nals) || NalType(nal[0]) == NAL_IDR_W_RADL || NalType(nal[0]) == NAL_IDR_N_LP
  {
    var all := nals + [nal];
    assert all[|nals|] == nal;
    if AnyIdr(nals) {
      var i :| 0 <= i < |nals| && IsIdr(nals[i]);
      assert IsIdr(all[i]);
    }
    if AnyIdr(all) {
      var i :| 0 <= i < |all| && IsIdr(all[i]);
      assert i < |nals| ==> IsIdr(nals[i]);
    }
  }

  // ---------------------------------------------------------------- what parses

  function Prefixed(nals: seq<seq<byte>>, n: nat): seq<byte> {
    if nals == [] then [] else BigEndian(n, |nals[0]|) + nals[0] + Prefixed(nals[1..], n)
  }

  /** Non-empty units whose lengths fit an `n`-byte prefix. */
  predicate Framable(nals: seq<seq<byte>>, n: nat) {
    forall i :: 0 <= i < |nals| ==> 0 < |nals[i]| < Pow256(n)
  }

  lemma {:induction false} NothingPrefixed(n: nat)
    ensures Framable([], n) && Prefixed([], n) == []
  {
  }

  lemma {:induction false} PowMonotone(a: nat, b: nat)
    requires a <= b
    ensures Pow256(a) <= Pow256(b)
  {
    if a < b {
      PowMonotone(a, b - 1);
    }
  }

  lemma {:induction false} NarrowPrefix(n: nat, x: nat)
    requires n <= 8 && x < Pow256(n)
    ensures x % TWO_64 == x
  {
    PowMonotone(n, 8);
    Pow256Values();
    Remainder(x, TWO_64, 0, x);
  }

  lemma {:induction false} ParsesOwn(nals: seq<seq<byte>>, n: nat)
    requires n <= 8 && Framable(nals, n)
    ensures Parse(Prefixed(nals, n), n) == Parsed(nals, None)
  {
    hide BigEndian, FromBigEndian, Pow256;
    if nals != [] {
      var nal, rest := nals[0], Prefixed(nals[1..], n);
      var src := Prefixed(nals, n);
      ReadBackExact(n, |nal|);
      NarrowPrefix(n, |nal|);
      assert src[..n] == BigEndian(n, |nal|) && src[n..n + |nal|] == nal && src[n + |nal|..] == rest;
      ParsesOwn(nals[1..], n);
      assert nals == [nal] + nals[1..];
    }
  }

  lemma {:induction false} PrefixedCons(nal: seq<byte>, rest: seq<seq<byte>>, n: nat)
    requires 0 < |nal| < Pow256(n) && Framable(rest, n)
    ensures Framable([nal] + rest, n) && Prefixed([nal] + rest, n) == BigEndian(n, |nal|) + nal + Prefixed(rest, n)
  {
    hide BigEndian, Pow256;
    assert ([nal] + rest)[1..] == rest;
  }

  lemma {:induction false} ParsedIsPrefixed(src: seq<byte>, n: nat)
    requires n <= 8 && Parse(src, n).error.None?
    ensures Framable(Parse(src, n).nals, n) && Prefixed(Parse(src, n).nals, n) == src
    decreases |src|
  {
    hide BigEndian, FromBigEndian, Pow256, Framable, Parse, Prefixed;
    NothingToParse(n);
    if src == [] {
      NothingPrefixed(n);
    } else {
      ParseAt(src, n, 0);
      assert src[0..] == src && src[0..0 + n] == src[..n];
      var x := FromBigEndian(src[..n]);
      WriteBack(src[..n]);
      NarrowPrefix(n, x);
      ParsedIsPrefixed(src[n + x..], n);
      PrefixedCons(src[n..n + x], Parse(src[n + x..], n).nals, n);
      assert src == src[..n] + src[n..n + x] + src[n + x..];
    }
  }

  /**
   `append` succeeds exactly on concatenations of length-prefixed non-empty units, and such an input determines its
   units: no two different lists of units have the same bytes.
   */
  lemma {:induction false} ParsesIffPrefixed(src: seq<byte>, n: nat)
    requires n <= 8
    ensures Parse(src, n).error.None? <==> exists nals :: Framable(nals, n) && Prefixed(nals, n) == src
    ensures forall a, b :: Framable(a, n) && Framable(b, n) && Prefixed(a, n) == src == Prefixed(b, n) ==> a == b
  {
    if Parse(src, n).error.None? {
      ParsedIsPrefixed(src, n);
    }
    forall nals | Framable(nals, n) && Prefixed(nals, n) == src
      ensures Parse(src, n) == Parsed(nals, None)
    {
      ParsesOwn(nals, n);
    }
  }

  // ---------------------------------------------------------------- the start-code scanner

  predicate ShortCode(s: seq<byte>) {
    |s| >= 3 && s[0] == 0 && s[1] == 0 && s[2] == 1
  }

  predicate LongCode(s: seq<byte>) {
    |s| >= 4 && s[0] == 0 && s[1] == 0 && s[2] == 0 && s[3] == 1
  }

  function TypeAt(s: seq<byte>): seq<int> {
    if s == [] then [] else [NalType(s[0])]
  }

  function Scan(s: seq<byte>): seq<int>
    decreases |s|
  {
    if |s| <= 3 then []
    else if LongCode(s) then TypeAt(s[4..]) + Scan(s[4..])
    else if ShortCode(s) then TypeAt(s[3..]) + Scan(s[3..])
    else Scan(s[1..])
  }

  method NalTypes(stream: seq<byte>) returns (types: seq<int>)
    ensures types == Scan(stream)
  {
    types := [];
    var i := 0;
    assert stream[0..] == stream;
    while i + 3 < |stream|
      invariant 0 <= i <= |stream|
      invariant types + Scan(stream[i..]) == Scan(stream)
      decreases |stream| - i
    {
      var short := stream[i] == 0 && stream[i + 1] == 0 && stream[i + 2] == 1;
      var long := stream[i] == 0 && stream[i + 1] == 0 && stream[i + 2] == 0 && stream[i + 3] == 1;
      assert short == ShortCode(stream[i..]) && long == LongCode(stream[i..]);
      assert stream[i..][4..] == stream[i + 4..] && stream[i..][3..] == stream[i + 3..];
      assert stream[i..][1..] == stream[i + 1..];
      if short || long {
        var nalStart := i + if long then 4 else 3;
        if nalStart < |stream| {
          types := types + [NalType(stream[nalStart])];
        }
        i := nalStart;
      } else {
        i := i + 1;
      }
    }
  }

  /** Section 7.4.2 of H.265: no start code inside a unit, and no zero byte at its end. */
  predicate Clean(nal: seq<byte>) {
    && nal != [] && nal[|nal| - 1] != 0
    && forall p :: 0 <= p < |nal| - 2 ==> !(nal[p] == 0 && nal[p + 1] == 0 && nal[p + 2] == 1)
  }

  predicate AllClean(nals: seq<seq<byte>>) {
    forall i :: 0 <= i < |nals| ==> Clean(nals[i])
  }

  function Types(nals: seq<seq<byte>>): seq<int>
    requires AllClean(nals)
  {
    if nals == [] then [] else assert Clean(nals[0]); [NalType(nals[0][0])] + Types(nals[1..])
  }

  /** No start code begins inside a clean unit, whatever follows it. */
  lemma {:induction false} NoCodeInside(nal: seq<byte>, more: seq<byte>)
    requires Clean(nal)
    ensures !ShortCode(nal + more) && !LongCode(nal + more)
  {
    var s := nal + more;
    if |nal| == 1 {
    } else if |nal| == 2 {
      assert s[1] == nal[1];
    } else if |nal| == 3 {
      assert s[0] == nal[0] && s[1] == nal[1] && s[2] == nal[2];
    } else {
      assert s[0] == nal[0] && s[1] == nal[1] && s[2] == nal[2] && s[3] == nal[3];
      assert !(nal[0] == 0 && nal[0 + 1] == 0 && nal[0 + 2] == 1);
      assert !(nal[1] == 0 && nal[1 + 1] == 0 && nal[1 + 2] == 1);
    }
  }

  lemma {:induction false} SkipsUnit(nal: seq<byte>, more: seq<byte>)
    requires Clean(nal) && (more == [] || LongCode(more))
    ensures Scan(nal + more) == Scan(more)
    decreases |nal|
  {
    hide ShortCode, LongCode;
    var s := nal + more;
    NoCodeInside(nal, more);
    assert s[1..] == nal[1..] + more;
    if |nal| == 1 {
      assert s[1..] == more;
      ShortTail(s, more);
    } else {
      TailIsClean(nal);
      SkipsUnit(nal[1..], more);
      ShortTail(s, more);
    }
  }

  lemma {:induction false} TailIsClean(nal: seq<byte>)
    requires Clean(nal) && |nal| > 1
    ensures Clean(nal[1..])
  {
    forall p | 0 <= p < |nal[1..]| - 2
      ensures !(nal[1..][p] == 0 && nal[1..][p + 1] == 0 && nal[1..][p + 2] == 1)
    {
      assert !(nal[p + 1] == 0 && nal[p + 1 + 1] == 0 && nal[p + 1 + 2] == 1);
    }
  }

  lemma {:induction false} ShortTail(s: seq<byte>, more: seq<byte>)
    requires |more| <= |s| && (more == [] || LongCode(more))
    ensures |s| <= 3 ==> Scan(s) == [] && Scan(more) == []
  {
  }

  lemma {:induction false} StreamStartsWithCode(nals: seq<seq<byte>>)
    ensures ByteStream(nals) == [] || LongCode(ByteStream(nals))
  {
  }

  /** The scanner recovers the unit types of a byte stream in order. */
  lemma {:induction false} ScannerRecovers(nals: seq<seq<byte>>)
    requires AllClean(nals)
    ensures Scan(ByteStream(nals)) == Types(nals)
  {
    hide Clean;
    if nals != [] {
      var nal, rest := nals[0], ByteStream(nals[1..]);
      var s := ByteStream(nals);
      assert Clean(nal) && AllClean(nals[1..]);
      NonEmpty(nal);
      assert s[4..] == nal + rest;
      assert LongCode(s);
      StreamStartsWithCode(nals[1..]);
      SkipsUnit(nal, rest);
      ScannerRecovers(nals[1..]);
    }
  }

  lemma {:induction false} NonEmpty(nal: seq<byte>)
    requires Clean(nal)
    ensures nal != []
  {
  }

  lemma {:induction false} IdrAmongTypes(nals: seq<seq<byte>>)
    requires AllClean(nals)
    ensures AnyIdr(nals) <==> NAL_IDR_W_RADL in Types(nals) || NAL_IDR_N_LP in Types(nals)
  {
    if nals != [] {
      var nal, rest := nals[0], nals[1..];
      assert Clean(nal);
      IdrAmongTypes(rest);
      assert AnyIdr(nals) <==> IsIdr(nal) || AnyIdr(rest) by {
        if AnyIdr(rest) {
          var i :| 0 <= i < |rest| && IsIdr(rest[i]);
          assert IsIdr(nals[i + 1]);
        }
        if AnyIdr(nals) {
          var i :| 0 <= i < |nals| && IsIdr(nals[i]);
          assert i > 0 ==> IsIdr(rest[i - 1]);
        }
      }
    }
  }

  /**
   Translation keeps what the decoder looks for: from the output of `append` the scanner reads exactly the types of
   the length-prefixed units, and finds an IDR type exactly when `append` reported a keyframe.
   */
  lemma {:induction false} TranslationKeepsTypes(nals: seq<seq<byte>>, n: nat)
    requires n <= 8 && Framable(nals, n) && AllClean(nals)
    ensures var p := Parse(Prefixed(nals, n), n);
      && p.error.None? && Scan(ByteStream(p.nals)) == Types(nals)
      && (AnyIdr(p.nals) <==> NAL_IDR_W_RADL in Types(nals) || NAL_IDR_N_LP in Types(nals))
  {
    ParsesOwn(nals, n);
    ScannerRecovers(nals);
    IdrAmongTypes(nals);
  }

  // ---------------------------------------------------------------- the unit header

  /** Section 7.3.1.2 of H.265: one forbidden bit, six bits of type, and the first bit of the layer id. */
  lemma {:induction false} HeaderType(forbidden: nat, unitType: nat, layer: nat)
    requires forbidden < 2 && unitType < 64 && layer < 2
    ensures NalType(128 * forbidden + 2 * unitType + layer) == unitType
  {
  }

  /** Whatever the forbidden and the layer bit, the header of an IDR unit. */
  predicate IdrByte(header: byte) {
    38 <= header % 128 <= 41
  }

  lemma {:induction false} IdrByFirstByte(nals: seq<seq<byte>>)
    ensures AnyIdr(nals) <==> exists i :: 0 <= i < |nals| && nals[i] != [] && IdrByte(nals[i][0])
  {
    forall i | 0 <= i < |nals|
      ensures IsIdr(nals[i]) <==> nals[i] != [] && IdrByte(nals[i][0])
    {
    }
  }

  // ---------------------------------------------------------------- which error

  lemma {:induction false} ParsesAfter(nals: seq<seq<byte>>, n: nat, tail: seq<byte>)
    requires n <= 8 && Framable(nals, n)
    ensures Parse(Prefixed(nals, n) + tail, n) == Parsed(nals + Parse(tail, n).nals, Parse(tail, n).error)
  {
    hide BigEndian, FromBigEndian, Pow256, Parse, Framable, Prefixed;
    NothingPrefixed(n);
    if nals == [] {
      assert [] + tail == tail && [] + Parse(tail, n).nals == Parse(tail, n).nals;
    } else {
      var nal, rest := nals[0], nals[1..];
      var src := Prefixed(nals, n) + tail;
      assert nals == [nal] + rest;
      FirstFramable(nals, n);
      PrefixedCons(nal, rest, n);
      ReadBackExact(n, |nal|);
      NarrowPrefix(n, |nal|);
      assert src == BigEndian(n, |nal|) + nal + (Prefixed(rest, n) + tail);
      assert src[..n] == BigEndian(n, |nal|) && src[n..n + |nal|] == nal && src[n + |nal|..] == Prefixed(rest, n) + tail;
      ParseAt(src, n, 0);
      assert src[0..] == src && src[0..0 + n] == src[..n];
      ParsesAfter(rest, n, tail);
    }
  }

  lemma {:induction false} FirstFramable(nals: seq<seq<byte>>, n: nat)
    requires nals != [] && Framable(nals, n)
    ensures 0 < |nals[0]| < Pow256(n) && Framable(nals[1..], n)
  {
  }

  /**
   After any units, whatever follows that is no unit is named: a length cut short, a length of zero, or a length that
   reaches past the end. The units before it have been read.
   */
  lemma {:induction false} ErrorsByShape(nals: seq<seq<byte>>, n: nat, tail: seq<byte>, length: nat)
    requires 0 < n <= 8 && Framable(nals, n) && length < Pow256(n)
    ensures 0 < |tail| < n ==> Parse(Prefixed(nals, n) + tail, n) == Parsed(nals, Some(TruncatedPrefix))
    ensures var src := Prefixed(nals, n) + (BigEndian(n, length) + tail);
      && (length > |tail| ==> Parse(src, n) == Parsed(nals, Some(ExceedsAccessUnit)))
      && (length == 0 ==> Parse(src, n) == Parsed(nals, Some(ZeroLength)))
  {
    hide BigEndian, FromBigEndian, Pow256, Prefixed;
    ParsesAfter(nals, n, tail);
    ParsesAfter(nals, n, BigEndian(n, length) + tail);
    assert (BigEndian(n, length) + tail)[..n] == BigEndian(n, length);
    ReadBackExact(n, length);
    NarrowPrefix(n, length);
    assert nals + [] == nals;
  }

  // ---------------------------------------------------------------- the bytes themselves

  lemma {:induction false} HighPart(a: seq<byte>, b: seq<byte>)
    ensures FromBigEndian(a + b) == FromBigEndian(a) * Pow256(|b|) + FromBigEndian(b)
    decreases |b|
  {
    if b == [] {
      assert a + b == a;
    } else {
      var init, last := b[..|b| - 1], b[|b| - 1];
      HighPart(a, init);
      LastByte(a + b, a + init, last);
      LastByte(b, init, last);
      OneByteOn(FromBigEndian(a), Pow256(|init|), FromBigEndian(init), last);
    }
  }

  lemma {:induction false} LastByte(s: seq<byte>, init: seq<byte>, last: byte)
    requires s == init + [last]
    ensures FromBigEndian(s) == FromBigEndian(init) * 256 + last && Pow256(|s|) == 256 * Pow256(|init|)
  {
    assert s[..|s| - 1] == init;
  }

  lemma {:induction false} OneByteOn(x: nat, p: nat, y: nat, last: byte)
    ensures (x * p + y) * 256 + last == x * (256 * p) + (y * 256 + last)
  {
    assert (x * p) * 256 == x * (256 * p);
  }

  /** Of a prefix longer than eight bytes only the last eight count; up to eight, all of them. */
  lemma {:induction false} LongPrefixWraps(a: seq<byte>, b: seq<byte>)
    requires |b| <= 8 && (a == [] || |b| == 8)
    ensures PrefixValue(a + b) == FromBigEndian(b)
  {
    HighPart(a, b);
    Pow256Values();
    PowMonotone(|b|, 8);
    if a == [] {
      assert FromBigEndian(a) == 0;
      Remainder(FromBigEndian(b), TWO_64, 0, FromBigEndian(b));
    } else {
      Remainder(FromBigEndian(a + b), TWO_64, FromBigEndian(a), FromBigEndian(b));
    }
  }

  /** The two lengths in use: four bytes and two, most significant first. */
  lemma {:induction false} PrefixBytes(a: byte, b: byte, c: byte, d: byte)
    ensures PrefixValue([a, b, c, d]) == a * 0x100_0000 + b * 0x1_0000 + c * 0x100 + d
    ensures PrefixValue([c, d]) == c * 0x100 + d && PrefixValue([d]) == d
  {
    assert [a, b, c, d][..3] == [a, b, c] && [a, b, c][..2] == [a, b] && [a, b][..1] == [a] && [a][..0] == [];
    assert [c, d][..1] == [c] && [c][..0] == [] && [d][..0] == [];
    assert FromBigEndian([a]) == a && FromBigEndian([a, b]) == a * 256 + b && FromBigEndian([c]) == c;
    assert FromBigEndian([a, b, c]) == (a * 256 + b) * 256 + c && FromBigEndian([d]) == d;
    Remainder(FromBigEndian([a, b, c, d]), TWO_64, 0, FromBigEndian([a, b, c, d]));
  }

  /** Every unit stands whole behind the four bytes 0, 0, 0, 1, and nothing else is written. */
  lemma {:induction false} UnitStands(nals: seq<seq<byte>>, i: nat)
    requires i < |nals|
    ensures ByteStream(nals) == ByteStream(nals[..i]) + [0, 0, 0, 1] + nals[i] + ByteStream(nals[i + 1..])
  {
    if i == 0 {
      NothingToParse(4);
      assert nals[..0] == [];
    } else {
      var head := nals[0];
      UnitStands(nals[1..], i - 1);
      assert nals[1..][..i - 1] == nals[1..i] && nals[1..][i - 1 + 1..] == nals[i + 1..];
      assert nals[..i][1..] == nals[1..i];
      assert ByteStream(nals[..i]) == START_CODE + head + ByteStream(nals[1..i]);
    }
  }
}
