/** Datagram headers, fragmentation of a frame body, and the validating decoder (section 4 of the protocol). */
module Datagram {
  import opened Basics

  const MAGIC: byte := 0x4C
  const FLAG_KEYFRAME: byte := 1
  const FLAG_LAST_FRAGMENT: byte := 2
  const HEADER_LEN: nat := 12
  const MAX_DATAGRAM_LEN: nat := 1350
  const MAX_PAYLOAD: nat := 1338
  const MAX_FRAGMENTS: nat := 65535

  datatype Header = Header(
    keyframe: bool, lastFragment: bool, streamId: u16, frameSeq: u32, fragIndex: u16, fragCount: u16)

  datatype DropReason =
    | TooShort | Oversize | BadMagic | FragCountZero | FragIndexRange | LastFragmentMismatch | UnknownStream

  datatype Decoded = Accepted(header: Header, payloadLen: nat) | Dropped(reason: DropReason)

  function NewHeader(keyframe: bool, streamId: u16, frameSeq: u32, fragIndex: u16, fragCount: u16): Header {
    Header(keyframe, fragCount > 0 && fragIndex == fragCount - 1, streamId, frameSeq, fragIndex, fragCount)
  }

  function Flags(h: Header): byte {
    (if h.keyframe then FLAG_KEYFRAME else 0) + (if h.lastFragment then FLAG_LAST_FRAGMENT else 0)
  }

  function HeaderBytes(h: Header): (b: seq<byte>)
    ensures |b| == HEADER_LEN
  {
    [MAGIC, Flags(h)]
    + BigEndian(2, h.streamId) + BigEndian(4, h.frameSeq) + BigEndian(2, h.fragIndex) + BigEndian(2, h.fragCount)
  }

  /** The header is written field by field into a zeroed 12-byte buffer. */
  method WriteHeader(h: Header) returns (b: array<byte>)
    ensures fresh(b) && b[..] == HeaderBytes(h)
  {
    hide BigEndian, Flags;
    b := new byte[HEADER_LEN](_ => 0);
    b[0] := MAGIC;
    b[1] := Flags(h);
    var f0, f1 := BigEndian(2, h.streamId), BigEndian(4, h.frameSeq);
    var f2, f3 := BigEndian(2, h.fragIndex), BigEndian(2, h.fragCount);
    CopyInto(b, 2, f0);
    assert b[..4] == [MAGIC, Flags(h)] + f0;
    CopyInto(b, 4, f1);
    assert b[..8] == b[..4] + f1;
    CopyInto(b, 8, f2);
    assert b[..10] == b[..8] + f2;
    CopyInto(b, 10, f3);
    assert b[..] == b[..10] + f3;
  }

  predicate StreamKnown(streamId: u16, extra: seq<u16>) {
    streamId == 0 || streamId == 1 || streamId in extra
  }

  function Field(bytes: seq<byte>, lo: nat, hi: nat): (x: nat)
    requires lo <= hi <= |bytes|
    ensures x < Pow256(hi - lo)
  {
    FromBigEndian(bytes[lo..hi])
  }

  /** The checks, in order; every failure is a silent drop. */
  function Decode(bytes: seq<byte>, extra: seq<u16>): Decoded {
    if |bytes| < HEADER_LEN then Dropped(TooShort)
    else if |bytes| > MAX_DATAGRAM_LEN then Dropped(Oversize)
    else if bytes[0] != MAGIC then Dropped(BadMagic)
    else
      Pow256Values();
      var flags := bytes[1];
      var streamId: u16 := Field(bytes, 2, 4);
      var frameSeq: u32 := Field(bytes, 4, 8);
      var fragIndex: u16 := Field(bytes, 8, 10);
      var fragCount: u16 := Field(bytes, 10, 12);
      var last := flags / 2 % 2 == 1;
      if fragCount < 1 then Dropped(FragCountZero)
      else if fragIndex >= fragCount then Dropped(FragIndexRange)
      else if last != (fragIndex == fragCount - 1) then Dropped(LastFragmentMismatch)
      else if !StreamKnown(streamId, extra) then Dropped(UnknownStream)
      else Accepted(Header(flags % 2 == 1, last, streamId, frameSeq, fragIndex, fragCount), |bytes| - HEADER_LEN)
  }

  // ---------------------------------------------------------------- fragmentation

  function Min(a: nat, b: nat): nat {
    if a < b then a else b
  }

  function FragmentCount(len: nat): (n: nat)
    ensures n >= 1 && len <= n * MAX_PAYLOAD && (len > 0 ==> (n - 1) * MAX_PAYLOAD < len)
  {
    if len == 0 then 1 else (len + MAX_PAYLOAD - 1) / MAX_PAYLOAD
  }

  function Chunk(body: seq<byte>, i: nat): (c: seq<byte>)
    ensures |c| <= MAX_PAYLOAD
  {
    body[Min(i * MAX_PAYLOAD, |body|)..Min((i + 1) * MAX_PAYLOAD, |body|)]
  }

  /** The header of fragment `i`; the casts to 16 bits are part of it. */
  function FragmentHeader(streamId: u16, frameSeq: u32, keyframe: bool, len: nat, i: nat): Header {
    NewHeader(keyframe, streamId, frameSeq, i % TWO_16, FragmentCount(len) % TWO_16)
  }

  function FragmentAt(streamId: u16, frameSeq: u32, keyframe: bool, body: seq<byte>, i: nat): seq<byte> {
    HeaderBytes(FragmentHeader(streamId, frameSeq, keyframe, |body|, i)) + Chunk(body, i)
  }

  function Fragments(streamId: u16, frameSeq: u32, keyframe: bool, body: seq<byte>): (out: seq<seq<byte>>)
    ensures |out| == FragmentCount(|body|)
  {
    seq(FragmentCount(|body|), i requires 0 <= i => FragmentAt(streamId, frameSeq, keyframe, body, i))
  }

  /** What is left of the body after `i` chunks. */
  function Remaining(body: seq<byte>, i: nat): seq<byte> {
    body[Min(i * MAX_PAYLOAD, |body|)..]
  }

  lemma {:induction false} NextChunk(body: seq<byte>, i: nat)
    ensures Remaining(body, 0) == body
    ensures var rest := Remaining(body, i);
      && rest[..Min(MAX_PAYLOAD, |rest|)] == Chunk(body, i)
      && rest[Min(MAX_PAYLOAD, |rest|)..] == Remaining(body, i + 1)
  {
    var at := i * MAX_PAYLOAD;
    assert (i + 1) * MAX_PAYLOAD == at + MAX_PAYLOAD;
    CutAt(body, at, MAX_PAYLOAD);
  }

  lemma {:induction false} CutAt<T>(s: seq<T>, at: nat, n: nat)
    ensures var rest, lo, hi := s[Min(at, |s|)..], Min(at, |s|), Min(at + n, |s|);
      lo <= hi && rest[..Min(n, |rest|)] == s[lo..hi] && rest[Min(n, |rest|)..] == s[hi..]
  {
  }

  lemma {:induction false} CountIs(len: nat)
    ensures FragmentCount(len) == if (len + MAX_PAYLOAD - 1) / MAX_PAYLOAD < 1 then 1 else (len + MAX_PAYLOAD - 1) / MAX_PAYLOAD
  {
  }

  method Encode(h: Header, payload: seq<byte>) returns (datagram: seq<byte>)
    ensures datagram == HeaderBytes(h) + payload
  {
    var header := WriteHeader(h);
    datagram := header[..] + payload;
  }

  /** `fragment`: the body is consumed chunk by chunk, with one empty chunk for an empty body. */
  method Fragment(streamId: u16, frameSeq: u32, keyframe: bool, body: seq<byte>) returns (out: seq<seq<byte>>)
    ensures out == Fragments(streamId, frameSeq, keyframe, body)
  {
    hide HeaderBytes, Chunk, FragmentAt, FragmentCount, Remaining;
    CountIs(|body|);
    var count := (|body| + MAX_PAYLOAD - 1) / MAX_PAYLOAD;
    if count < 1 {
      count := 1;
    }
    NextChunk(body, 0);
    out := [];
    var rest := body;
    var idx := 0;
    while idx < count
      invariant 0 <= idx <= count == FragmentCount(|body|)
      invariant rest == Remaining(body, idx)
      invariant out == Fragments(streamId, frameSeq, keyframe, body)[..idx]
    {
      NextChunk(body, idx);
      var chunk := rest[..Min(MAX_PAYLOAD, |rest|)];
      rest := rest[Min(MAX_PAYLOAD, |rest|)..];
      var datagram := Encode(NewHeader(keyframe, streamId, frameSeq, idx % TWO_16, count % TWO_16), chunk);
      FragmentIs(streamId, frameSeq, keyframe, body, idx);
      out := out + [datagram];
      idx := idx + 1;
    }
  }

  lemma {:induction false} FragmentIs(streamId: u16, frameSeq: u32, keyframe: bool, body: seq<byte>, i: nat)
    ensures FragmentAt(streamId, frameSeq, keyframe, body, i)
      == HeaderBytes(NewHeader(keyframe, streamId, frameSeq, i % TWO_16, FragmentCount(|body|) % TWO_16)) + Chunk(body, i)
  {
  }

  function Concat(parts: seq<seq<byte>>): seq<byte> {
    if parts == [] then [] else Concat(parts[..|parts| - 1]) + parts[|parts| - 1]
  }

  function Payload(datagram: seq<byte>): seq<byte> {
    if |datagram| < HEADER_LEN then [] else datagram[HEADER_LEN..]
  }

  function Payloads(datagrams: seq<seq<byte>>, n: nat): seq<seq<byte>>
    requires n <= |datagrams|
  {
    seq(n, i requires 0 <= i < n => Payload(datagrams[i]))
  }

  lemma {:induction false} PayloadOf(streamId: u16, frameSeq: u32, keyframe: bool, body: seq<byte>, i: nat)
    ensures Payload(FragmentAt(streamId, frameSeq, keyframe, body, i)) == Chunk(body, i)
  {
  }

  lemma {:induction false} ChunkExtends(body: seq<byte>, i: nat)
    ensures body[..Min(i * MAX_PAYLOAD, |body|)] + Chunk(body, i) == body[..Min((i + 1) * MAX_PAYLOAD, |body|)]
  {
  }

  lemma {:induction false} PayloadPrefix(streamId: u16, frameSeq: u32, keyframe: bool, body: seq<byte>, n: nat)
    requires n <= FragmentCount(|body|)
    ensures Concat(Payloads(Fragments(streamId, frameSeq, keyframe, body), n)) == body[..Min(n * MAX_PAYLOAD, |body|)]
  {
    hide FragmentAt, Chunk, Payload, FragmentCount;
    if n > 0 {
      var d := Fragments(streamId, frameSeq, keyframe, body);
      PayloadPrefix(streamId, frameSeq, keyframe, body, n - 1);
      assert Payloads(d, n)[..n - 1] == Payloads(d, n - 1);
      PayloadOf(streamId, frameSeq, keyframe, body, n - 1);
      ChunkExtends(body, n - 1);
    }
  }

  /** Nothing of the body is lost or reordered, for a body of any length. */
  lemma {:induction false} PayloadsAreBody(streamId: u16, frameSeq: u32, keyframe: bool, body: seq<byte>)
    ensures var d := Fragments(streamId, frameSeq, keyframe, body);
      Concat(Payloads(d, |d|)) == body && forall i :: 0 <= i < |d| ==> |d[i]| <= MAX_DATAGRAM_LEN
  {
    PayloadPrefix(streamId, frameSeq, keyframe, body, FragmentCount(|body|));
  }

  lemma {:induction false} ConcatLength(parts: seq<seq<byte>>, max: nat)
    requires forall i :: 0 <= i < |parts| ==> |parts[i]| <= max
    ensures |Concat(parts)| <= |parts| * max
  {
    if parts != [] {
      ConcatLength(parts[..|parts| - 1], max);
      assert |parts| * max == (|parts| - 1) * max + max;
    }
  }

  /** No way to cut the body into payloads that fit uses fewer datagrams. */
  lemma {:induction false} CountIsMinimal(body: seq<byte>, parts: seq<seq<byte>>)
    requires parts != [] && Concat(parts) == body
    requires forall i :: 0 <= i < |parts| ==> |parts[i]| <= MAX_PAYLOAD
    ensures FragmentCount(|body|) <= |parts|
  {
    ConcatLength(parts, MAX_PAYLOAD);
  }

  lemma {:induction false} HeaderLayout(h: Header, payload: seq<byte>)
    ensures var b := HeaderBytes(h) + payload;
      && b[0] == MAGIC && b[1] == Flags(h)
      && b[2..4] == BigEndian(2, h.streamId) && b[4..8] == BigEndian(4, h.frameSeq)
      && b[8..10] == BigEndian(2, h.fragIndex) && b[10..12] == BigEndian(2, h.fragCount)
  {
    hide BigEndian, Flags;
  }

  lemma {:induction false} HeaderFields(h: Header, payload: seq<byte>)
    ensures var b := HeaderBytes(h) + payload;
      && b[0] == MAGIC && b[1] == Flags(h)
      && Field(b, 2, 4) == h.streamId && Field(b, 4, 8) == h.frameSeq
      && Field(b, 8, 10) == h.fragIndex && Field(b, 10, 12) == h.fragCount
  {
    hide HeaderBytes, BigEndian, FromBigEndian, Pow256;
    HeaderLayout(h, payload);
    Pow256Values();
    ReadBackExact(2, h.streamId);
    ReadBackExact(4, h.frameSeq);
    ReadBackExact(2, h.fragIndex);
    ReadBackExact(2, h.fragCount);
  }

  /** What the decoder makes of any datagram built by `NewHeader` and `encode`, for every payload and stream. */
  lemma {:induction false} DecodeEncoded(
    keyframe: bool, streamId: u16, frameSeq: u32, index: u16, count: u16, payload: seq<byte>, extra: seq<u16>)
    ensures var h := NewHeader(keyframe, streamId, frameSeq, index, count);
      Decode(HeaderBytes(h) + payload, extra)
      == if |payload| > MAX_PAYLOAD then Dropped(Oversize)
         else if count == 0 then Dropped(FragCountZero)
         else if index >= count then Dropped(FragIndexRange)
         else if !StreamKnown(streamId, extra) then Dropped(UnknownStream)
         else Accepted(h, |payload|)
  {
    hide HeaderBytes, Field, Flags;
    var h := NewHeader(keyframe, streamId, frameSeq, index, count);
    HeaderFields(h, payload);
    FlagBits(h);
  }

  lemma {:induction false} FlagBits(h: Header)
    ensures Flags(h) < 4 && (Flags(h) % 2 == 1 <==> h.keyframe) && (Flags(h) / 2 % 2 == 1 <==> h.lastFragment)
  {
  }

  lemma {:induction false} DecodeFragment(streamId: u16, frameSeq: u32, keyframe: bool, body: seq<byte>, i: nat, extra: seq<u16>)
    requires StreamKnown(streamId, extra)
    ensures var n := FragmentCount(|body|) % TWO_16;
      Decode(FragmentAt(streamId, frameSeq, keyframe, body, i), extra)
      == if n == 0 then Dropped(FragCountZero)
         else if i % TWO_16 >= n then Dropped(FragIndexRange)
         else Accepted(FragmentHeader(streamId, frameSeq, keyframe, |body|, i), |Chunk(body, i)|)
  {
    hide Chunk, HeaderBytes, NewHeader, Decode;
    DecodeEncoded(keyframe, streamId, frameSeq, i % TWO_16, FragmentCount(|body|) % TWO_16, Chunk(body, i), extra);
  }

  /** Datagram `i` of a frame cut into `n` arrives as what it is: its indices, flags and payload length. */
  ghost predicate DecodesAsSent(streamId: u16, frameSeq: u32, keyframe: bool, body: seq<byte>, i: nat, extra: seq<u16>)
    requires i < FragmentCount(|body|)
  {
    var n := FragmentCount(|body|);
    && n < TWO_16
    && Decode(FragmentAt(streamId, frameSeq, keyframe, body, i), extra)
      == Accepted(Header(keyframe, i == n - 1, streamId, frameSeq, i, n), |Chunk(body, i)|)
  }

  /**
   Every datagram of a frame decodes to its own header exactly when the count fits 16 bits; for every longer
   body the truncated count makes the receiver drop some of them.
   */
  lemma {:induction false} DecodesIffCountFits(streamId: u16, frameSeq: u32, keyframe: bool, body: seq<byte>, extra: seq<u16>)
    requires StreamKnown(streamId, extra)
    ensures (forall i :: 0 <= i < FragmentCount(|body|) ==> DecodesAsSent(streamId, frameSeq, keyframe, body, i, extra))
      <==> |body| <= MAX_FRAGMENTS * MAX_PAYLOAD
    ensures |body| > MAX_FRAGMENTS * MAX_PAYLOAD ==>
      exists i :: 0 <= i < FragmentCount(|body|) && Decode(FragmentAt(streamId, frameSeq, keyframe, body, i), extra).Dropped?
  {
    hide Chunk, Decode, FragmentAt;
    var n := FragmentCount(|body|);
    if n < TWO_16 {
      forall i | 0 <= i < n
        ensures DecodesAsSent(streamId, frameSeq, keyframe, body, i, extra)
      {
        DecodeFragment(streamId, frameSeq, keyframe, body, i, extra);
      }
    } else {
      var i := n % TWO_16;
      DecodeFragment(streamId, frameSeq, keyframe, body, i, extra);
      assert !DecodesAsSent(streamId, frameSeq, keyframe, body, i, extra);
    }
  }

  /** An accepted datagram's header re-serializes to its first 12 bytes, reserved flag bits cleared. */
  lemma {:induction false} Reserializes(bytes: seq<byte>, extra: seq<u16>)
    requires Decode(bytes, extra).Accepted?
    ensures var d := Decode(bytes, extra);
      && HeaderBytes(d.header) == bytes[..HEADER_LEN][1 := bytes[1] % 4]
      && d.payloadLen == |Payload(bytes)|
      && d.header == NewHeader(d.header.keyframe, d.header.streamId, d.header.frameSeq, d.header.fragIndex, d.header.fragCount)
      && d.header.fragIndex < d.header.fragCount && StreamKnown(d.header.streamId, extra)
  {
    hide BigEndian, FromBigEndian, Pow256, Flags;
    var h := Decode(bytes, extra).header;
    WriteBack(bytes[2..4]);
    WriteBack(bytes[4..8]);
    WriteBack(bytes[8..10]);
    WriteBack(bytes[10..12]);
    FlagsAre(bytes[1], h);
    assert HeaderBytes(h) == [bytes[0], bytes[1] % 4] + bytes[2..4] + bytes[4..8] + bytes[8..10] + bytes[10..12];
  }

  lemma {:induction false} FlagsAre(flags: byte, h: Header)
    requires h.keyframe == (flags % 2 == 1) && h.lastFragment == (flags / 2 % 2 == 1)
    ensures Flags(h) == flags % 4
  {
  }

  /** A received datagram spelled out: a well-formed header, any reserved flag bits, and a payload that fits. */
  ghost predicate IsDatagram(bytes: seq<byte>, extra: seq<u16>, h: Header, reserved: nat, payload: seq<byte>) {
    && h == NewHeader(h.keyframe, h.streamId, h.frameSeq, h.fragIndex, h.fragCount)
    && h.fragIndex < h.fragCount && StreamKnown(h.streamId, extra)
    && reserved < 64 && |payload| <= MAX_PAYLOAD
    && bytes == HeaderBytes(h)[1 := Flags(h) + 4 * reserved] + payload
  }

  lemma {:induction false} ReservedFields(h: Header, reserved: nat, payload: seq<byte>)
    requires reserved < 64
    ensures var b := HeaderBytes(h)[1 := Flags(h) + 4 * reserved] + payload;
      && b[0] == MAGIC && b[1] % 2 == Flags(h) % 2 && b[1] / 2 % 2 == Flags(h) / 2 % 2
      && Field(b, 2, 4) == h.streamId && Field(b, 4, 8) == h.frameSeq
      && Field(b, 8, 10) == h.fragIndex && Field(b, 10, 12) == h.fragCount
  {
    hide HeaderBytes, FromBigEndian;
    HeaderFields(h, payload);
    var a, b := HeaderBytes(h) + payload, HeaderBytes(h)[1 := Flags(h) + 4 * reserved] + payload;
    assert a[2..4] == b[2..4] && a[4..8] == b[4..8] && a[8..10] == b[8..10] && a[10..12] == b[10..12];
  }

  lemma {:induction false} DatagramIsAccepted(bytes: seq<byte>, extra: seq<u16>, h: Header, reserved: nat, payload: seq<byte>)
    requires IsDatagram(bytes, extra, h, reserved, payload)
    ensures Decode(bytes, extra) == Accepted(h, |payload|)
  {
    hide HeaderBytes, Field, Flags;
    ReservedFields(h, reserved, payload);
    FlagBits(h);
  }

  /** The decoder accepts exactly the datagrams a well-formed header and a fitting payload can produce. */
  lemma {:induction false} AcceptedIffWellFormed(bytes: seq<byte>, extra: seq<u16>)
    ensures Decode(bytes, extra).Accepted? <==>
      exists h, reserved: nat, payload :: IsDatagram(bytes, extra, h, reserved, payload)
  {
    hide Flags, HeaderBytes;
    if Decode(bytes, extra).Accepted? {
      Reserializes(bytes, extra);
      var h, payload := Decode(bytes, extra).header, Payload(bytes);
      FlagsAre(bytes[1], h);
      assert bytes == HeaderBytes(h)[1 := Flags(h) + 4 * (bytes[1] / 4)] + payload;
      assert IsDatagram(bytes, extra, h, bytes[1] / 4, payload);
    }
    forall h, reserved: nat, payload | IsDatagram(bytes, extra, h, reserved, payload)
      ensures Decode(bytes, extra).Accepted?
    {
      DatagramIsAccepted(bytes, extra, h, reserved, payload);
    }
  }

  // ---------------------------------------------------------------- the format, byte by byte

  /** Streams by number: 0 and 1 always, others as negotiated; everything else is dropped. */
  lemma {:induction false} StreamsByNumber(
    keyframe: bool, streamId: u16, frameSeq: u32, index: u16, count: u16, payload: seq<byte>, extra: seq<u16>)
    requires index < count && |payload| <= 1338
    ensures
      var h := NewHeader(keyframe, streamId, frameSeq, index, count);
      var d := Decode(HeaderBytes(h) + payload, extra);
      && (streamId == 0 || streamId == 1 || streamId in extra ==> d == Accepted(h, |payload|))
      && (streamId >= 2 && streamId !in extra ==> d == Dropped(UnknownStream))
  {
    hide HeaderBytes, Decode;
    DecodeEncoded(keyframe, streamId, frameSeq, index, count, payload, extra);
  }

  function Two(a: byte, b: byte): u16 {
    256 * a + b
  }

  function Four(a: byte, b: byte, c: byte, d: byte): u32 {
    65536 * Two(a, b) + Two(c, d)
  }

  lemma {:induction false} ReadsTwo(b: seq<byte>, lo: nat)
    requires lo + 2 <= |b|
    ensures Field(b, lo, lo + 2) == Two(b[lo], b[lo + 1])
  {
    var f := b[lo..lo + 2];
    assert f[..1] == [b[lo]] && f[..1][..0] == [];
    assert FromBigEndian(f[..1]) == FromBigEndian([]) * 256 + b[lo];
  }

  lemma {:induction false} ReadsFour(b: seq<byte>, lo: nat)
    requires lo + 4 <= |b|
    ensures Field(b, lo, lo + 4) == Four(b[lo], b[lo + 1], b[lo + 2], b[lo + 3])
  {
    var f := b[lo..lo + 4];
    assert f[..3][..2] == b[lo..lo + 2] && f[..3] == b[lo..lo + 3] && f[..2] == f[..3][..2];
    ReadsTwo(b, lo);
    assert FromBigEndian(f) == FromBigEndian(f[..3]) * 256 + b[lo + 3];
    assert FromBigEndian(f[..3]) == FromBigEndian(f[..3][..2]) * 256 + b[lo + 2];
  }

  /** The decoder on raw bytes: magic, two flag bits, then stream, frame, index and count, most significant first. */
  lemma {:induction false} DecodesRawBytes(b: seq<byte>, extra: seq<u16>)
    requires 12 <= |b| <= 1350 && b[0] == 0x4C
    ensures
      var stream, frame := Two(b[2], b[3]), Four(b[4], b[5], b[6], b[7]);
      var index, count := Two(b[8], b[9]), Two(b[10], b[11]);
      var key, last := b[1] % 2 == 1, b[1] % 4 >= 2;
      Decode(b, extra) ==
        if count == 0 then Dropped(FragCountZero)
        else if index >= count then Dropped(FragIndexRange)
        else if last != (index + 1 == count) then Dropped(LastFragmentMismatch)
        else if stream >= 2 && stream !in extra then Dropped(UnknownStream)
        else Accepted(Header(key, last, stream, frame, index, count), |b| - 12)
  {
    hide Field, Two, Four;
    ReadsTwo(b, 2);
    ReadsFour(b, 4);
    ReadsTwo(b, 8);
    ReadsTwo(b, 10);
    SecondBit(b[1]);
  }

  lemma {:induction false} SecondBit(x: byte)
    ensures x / 2 % 2 == 1 <==> x % 4 >= 2
  {
  }

  /** Other lengths and other first bytes. */
  lemma {:induction false} DropsRawBytes(b: seq<byte>, extra: seq<u16>)
    ensures |b| < 12 ==> Decode(b, extra) == Dropped(TooShort)
    ensures |b| > 1350 ==> Decode(b, extra) == Dropped(Oversize)
    ensures 12 <= |b| <= 1350 && b[0] != 0x4C ==> Decode(b, extra) == Dropped(BadMagic)
  {
  }
}
