/** Exact bytes: the heads of section 3 of RFC 8949 and examples of its appendix A, control frames and type numbers. */
module WireVectors {
  import opened Basics
  import opened Cbor
  import CborReading
  import opened Control
  import opened ControlStream

  lemma {:induction false} TwoBytes(x: nat)
    ensures BigEndian(2, x) == [x / 256 % 256, x % 256]
  {
    assert BigEndian(1, x / 256) == BigEndian(0, x / 256 / 256) + [x / 256 % 256];
  }

  lemma {:induction false} FourBytes(x: nat)
    ensures BigEndian(4, x) == [x / 0x100_0000 % 256, x / 0x1_0000 % 256, x / 256 % 256, x % 256]
  {
    assert BigEndian(3, x / 256) == BigEndian(2, x / 256 / 256) + [x / 256 % 256];
    TwoBytes(x / 256 / 256);
    assert x / 256 / 256 == x / 0x1_0000 && x / 0x1_0000 / 256 == x / 0x100_0000;
  }

  lemma {:induction false} EightBytes(x: nat)
    ensures BigEndian(8, x) == BigEndian(4, x / 0x1_0000_0000) + BigEndian(4, x)
  {
    var y := x / 256 / 256 / 256 / 256;
    assert BigEndian(8, x) == BigEndian(7, x / 256) + [x % 256];
    assert BigEndian(7, x / 256) == BigEndian(6, x / 256 / 256) + [x / 256 % 256];
    assert BigEndian(6, x / 256 / 256) == BigEndian(5, x / 256 / 256 / 256) + [x / 256 / 256 % 256];
    assert BigEndian(5, x / 256 / 256 / 256) == BigEndian(4, y) + [x / 256 / 256 / 256 % 256];
    FourBytes(x);
    assert y == x / 0x1_0000_0000;
    assert x / 256 / 256 == x / 0x1_0000 && x / 256 / 256 / 256 == x / 0x100_0000;
  }

  /** The initial byte and the argument, in bytes, for every argument and major type 0 to 7. */
  lemma {:induction false} HeadBytes(major: nat, x: u64)
    requires major < 8
    ensures Head(major, x) ==
      if x < 24 then [major * 32 + x]
      else if x < 0x100 then [major * 32 + 24, x]
      else if x < 0x1_0000 then [major * 32 + 25, x / 256, x % 256]
      else if x < 0x1_0000_0000 then
        [major * 32 + 26, x / 0x100_0000, x / 0x1_0000 % 256, x / 256 % 256, x % 256]
      else [major * 32 + 27] + BigEndian(4, x / 0x1_0000_0000) + BigEndian(4, x)
  {
    hide BigEndian;
    OneByte(x % 256);
    TwoBytes(x);
    FourBytes(x);
    EightBytes(x);
    if x < 0x1_0000 {
      Remainder(x / 256, 256, 0, x / 256);
    } else if x < 0x1_0000_0000 {
      Remainder(x / 0x100_0000, 256, 0, x / 0x100_0000);
    }
  }

  /** Which major type each kind of value has, and what its argument is. */
  lemma {:induction false} MajorTypes(x: u64, s: seq<byte>)
    requires |s| < TWO_64
    ensures Encode(Int(x)) == Head(0, x) && Encode(Int(-1 - x)) == Head(1, x)
    ensures Encode(Bytes(s)) == Head(2, |s|) + s && Encode(Text(s)) == Head(3, |s|) + s
  {
    hide Head;
    Remainder(x, TWO_64, 0, x);
    Remainder(|s|, TWO_64, 0, |s|);
  }

  /** The values without a head of their own, all of which can be read back. */
  lemma {:induction false} SimpleVectors()
    ensures InRange(Array([Bool(false), Bool(true), Null]))
    ensures Encode(Bool(false)) == [0xF4] && Encode(Bool(true)) == [0xF5] && Encode(Null) == [0xF6]
    ensures Encode(Float([0x3C, 0x00])) == [0xF9, 0x3C, 0x00]
    ensures Encode(Float([0x47, 0xC3, 0x50, 0x00])) == [0xFA, 0x47, 0xC3, 0x50, 0x00]
    ensures Encode(Float([0x3F, 0xF1, 0x99, 0x99, 0x99, 0x99, 0x99, 0x9A]))
      == [0xFB, 0x3F, 0xF1, 0x99, 0x99, 0x99, 0x99, 0x99, 0x9A]
  {
    hide Head;
  }

  lemma {:induction false} OneValue(v: Value)
    ensures EncodeAll([v]) == Encode(v)
  {
    hide Encode;
    assert [v][1..] == [];
    assert EncodeAll([v]) == Encode(v) + EncodeAll([]);
  }

  lemma {:induction false} MoreValues(v: Value, vs: seq<Value>)
    ensures EncodeAll([v] + vs) == Encode(v) + EncodeAll(vs)
  {
    hide Encode;
    assert ([v] + vs)[1..] == vs;
  }

  lemma {:induction false} ArrayVector()
    ensures Encode(Array([])) == [0x80] && Encode(Array([Int(1), Int(2), Int(3)])) == [0x83, 0x01, 0x02, 0x03]
  {
    hide Encode;
    assert [Int(1), Int(2), Int(3)] == [Int(1)] + ([Int(2)] + [Int(3)]);
    MoreValues(Int(1), [Int(2)] + [Int(3)]);
    MoreValues(Int(2), [Int(3)]);
    OneValue(Int(3));
    SmallInt(1);
    SmallInt(2);
    SmallInt(3);
    ArrayBytes([]);
    ArrayBytes([Int(1), Int(2), Int(3)]);
  }

  lemma {:induction false} ArrayBytes(vs: seq<Value>)
    requires |vs| < 24
    ensures Encode(Array(vs)) == [0x80 + |vs|] + EncodeAll(vs)
  {
    hide EncodeAll, Head;
    Remainder(|vs|, TWO_64, 0, |vs|);
    HeadBytes(4, |vs|);
  }

  lemma {:induction false} OneItem(x: Item)
    ensures SortItems([x]) == [x] && Emit([x]) == x.kb + x.vb
  {
    assert [x][..0] == [] && [x][1..] == [];
    assert Emit([x]) == x.kb + x.vb + Emit([]);
  }

  lemma {:induction false} OneEntryMap(k: Value, v: Value)
    ensures Encode(Map([Entry(k, v)])) == [0xA1] + (Encode(k) + Encode(v))
  {
    hide Encode, SortItems, Emit;
    var e := Entry(k, v);
    assert EncodeEntries([e]) == [EncodeEntry(e)];
    OneItem(EncodeEntry(e));
    MapBytes([e]);
  }

  lemma {:induction false} MapBytes(es: seq<Entry>)
    requires |es| < 24
    ensures Encode(Map(es)) == [0xA0 + |es|] + Emit(SortItems(EncodeEntries(es)))
  {
    hide SortItems, Emit, EncodeEntries, Head;
    Remainder(|es|, TWO_64, 0, |es|);
    HeadBytes(5, |es|);
  }

  lemma {:induction false} TwoSwapped(x: Item, y: Item)
    requires LexLess(y.kb, x.kb)
    ensures SortItems([x, y]) == [y, x] && Emit([y, x]) == y.kb + y.vb + (x.kb + x.vb)
  {
    hide LexLess;
    assert [x, y][..1] == [x] && [x][..0] == [] && [y, x][1..] == [x];
    OneItem(x);
    assert InsertItem([x], y) == InsertItem([], y) + [x];
  }

  /** The keys are sorted whatever order they come in. */
  lemma {:induction false} MapVector()
    ensures Encode(Map([])) == [0xA0]
    ensures Encode(Map([Entry(Int(3), Int(4)), Entry(Int(1), Int(2))])) == [0xA2, 0x01, 0x02, 0x03, 0x04]
  {
    hide SortItems, Emit, Encode, BigEndian;
    var a, b := Entry(Int(3), Int(4)), Entry(Int(1), Int(2));
    SmallInt(1);
    SmallInt(2);
    SmallInt(3);
    SmallInt(4);
    MapBytes([a, b]);
    MapBytes([]);
    assert EncodeEntries([a, b]) == [Item([3], [4]), Item([1], [2])];
    TwoSwapped(Item([3], [4]), Item([1], [2]));
    NoItems();
  }

  lemma {:induction false} NoItems()
    ensures Emit(SortItems(EncodeEntries([]))) == []
  {
  }

  // ---------------------------------------------------------------- control frames

  lemma {:induction false} EnvelopeBytes(t: nat, body: seq<Entry>)
    ensures Encode(Envelope(t, body)) == [0x82] + Encode(Int(t)) + Encode(Map(body))
  {
    hide Encode;
    var vs := [Int(t), Map(body)];
    assert vs == [Int(t)] + [Map(body)];
    MoreValues(Int(t), [Map(body)]);
    OneValue(Map(body));
    PairHead(vs);
  }

  lemma {:induction false} PairHead(vs: seq<Value>)
    requires |vs| == 2
    ensures Encode(Array(vs)) == [0x82] + EncodeAll(vs)
  {
    hide Encode;
    ArrayBytes(vs);
  }

  /** A frame without a body: length, the two-element array, the type, the empty map. */
  lemma {:induction false} EmptyFrame(t: nat)
    requires t < 256
    ensures Frame(t, []) == if t < 24 then [0, 0, 0, 3, 0x82, t, 0xA0] else [0, 0, 0, 4, 0x82, 0x18, t, 0xA0]
  {
    hide BigEndian, Encode;
    EnvelopeBytes(t, []);
    MapVector();
    SmallInt(t);
    FourBytes(3);
    FourBytes(4);
  }

  lemma {:induction false} SmallInt(t: nat)
    requires t < 256
    ensures Encode(Int(t)) == if t < 24 then [t] else [0x18, t]
  {
    hide Encode, Head;
    MajorTypes(t, []);
    HeadBytes(0, t);
  }

  /** The registry of message types, as they appear on the wire. */
  lemma {:induction false} TypeNumbers()
    ensures Frame(HELLO, []) == [0, 0, 0, 3, 0x82, 0x01, 0xA0] && Frame(WELCOME, []) == [0, 0, 0, 3, 0x82, 0x02, 0xA0]
    ensures Frame(CONFIG, []) == [0, 0, 0, 3, 0x82, 0x03, 0xA0] && Frame(CONFIG_ACK, []) == [0, 0, 0, 3, 0x82, 0x04, 0xA0]
    ensures Frame(START, []) == [0, 0, 0, 3, 0x82, 0x05, 0xA0] && Frame(INPUT, []) == [0, 0, 0, 3, 0x82, 0x10, 0xA0]
    ensures Frame(IDR_REQUEST, []) == [0, 0, 0, 4, 0x82, 0x18, 0x20, 0xA0]
    ensures Frame(STATS, []) == [0, 0, 0, 4, 0x82, 0x18, 0x21, 0xA0]
    ensures Frame(VIEWPORT, []) == [0, 0, 0, 4, 0x82, 0x18, 0x22, 0xA0]
    ensures Frame(CLOCK_PING, []) == [0, 0, 0, 4, 0x82, 0x18, 0x30, 0xA0]
    ensures Frame(CLOCK_PONG, []) == [0, 0, 0, 4, 0x82, 0x18, 0x31, 0xA0]
    ensures Frame(ERROR, []) == [0, 0, 0, 4, 0x82, 0x18, 0x40, 0xA0] && Frame(BYE, []) == [0, 0, 0, 4, 0x82, 0x18, 0x41, 0xA0]
    ensures Frame(PAIR_A, []) == [0, 0, 0, 4, 0x82, 0x18, 0x50, 0xA0]
    ensures Frame(PAIR_B, []) == [0, 0, 0, 4, 0x82, 0x18, 0x51, 0xA0]
    ensures Frame(PAIR_C, []) == [0, 0, 0, 4, 0x82, 0x18, 0x52, 0xA0]
    ensures Frame(PAIR_RESULT, []) == [0, 0, 0, 4, 0x82, 0x18, 0x53, 0xA0]
  {
    hide Frame;
    EmptyFrame(HELLO);
    EmptyFrame(WELCOME);
    EmptyFrame(CONFIG);
    EmptyFrame(CONFIG_ACK);
    EmptyFrame(START);
    EmptyFrame(INPUT);
    EmptyFrame(IDR_REQUEST);
    EmptyFrame(STATS);
    EmptyFrame(VIEWPORT);
    EmptyFrame(CLOCK_PING);
    EmptyFrame(CLOCK_PONG);
    EmptyFrame(ERROR);
    EmptyFrame(BYE);
    EmptyFrame(PAIR_A);
    EmptyFrame(PAIR_B);
    EmptyFrame(PAIR_C);
    EmptyFrame(PAIR_RESULT);
  }

  /** The acknowledgement of generation 1. */
  lemma {:induction false} AckFrame()
    ensures Frame(CONFIG_ACK, [Entry(Int(0), Int(1))]) == [0, 0, 0, 5, 0x82, 0x04, 0xA1, 0x00, 0x01]
  {
    hide BigEndian, Encode;
    EnvelopeBytes(4, [Entry(Int(0), Int(1))]);
    OneEntryMap(Int(0), Int(1));
    SmallInt(0);
    SmallInt(1);
    SmallInt(4);
    FourBytes(5);
  }

  /** The length field: four bytes, most significant first, and at most 65536. */
  lemma {:induction false} LengthFieldLimit(a: byte, b: byte, c: byte, d: byte, rest: seq<byte>)
    ensures
      var bytes := [a, b, c, d] + rest;
      var len := a * 0x100_0000 + b * 0x1_0000 + c * 0x100 + d;
      if len > 65536 then Unframe(bytes) == ProtocolViolation && TakeFrame(bytes) == Taken(Broken, rest)
      else if |rest| < len then Unframe(bytes) == ProtocolViolation && TakeFrame(bytes) == Taken(Broken, [])
      else TakeFrame(bytes) == Taken(FrameBytes([a, b, c, d] + rest[..len]), rest[len..])
  {
    hide FromBigEndian;
    var bytes := [a, b, c, d] + rest;
    FourRead(a, b, c, d);
    assert bytes[..4] == [a, b, c, d] && bytes[4..] == rest;
    var len := a * 0x100_0000 + b * 0x1_0000 + c * 0x100 + d;
    if len <= |rest| {
      assert bytes[..4 + len] == [a, b, c, d] + rest[..len] && bytes[4 + len..] == rest[len..];
    }
  }

  lemma {:induction false} FourRead(a: byte, b: byte, c: byte, d: byte)
    ensures FromBigEndian([a, b, c, d]) == a * 0x100_0000 + b * 0x1_0000 + c * 0x100 + d
  {
    assert [a, b, c, d][..3] == [a, b, c] && [a, b, c][..2] == [a, b] && [a, b][..1] == [a] && [a][..0] == [];
    assert FromBigEndian([a]) == a && FromBigEndian([a, b]) == a * 256 + b;
    assert FromBigEndian([a, b, c]) == (a * 256 + b) * 256 + c;
  }

  predicate IsEnvelope(v: Value, t: nat, body: seq<Entry>) {
    v == Array([Int(t), Map(body)])
  }

  lemma {:induction false} ValueFramed(v: Value, x: seq<byte>)
    requires InRange(v) && |Encode(v) + x| <= 65536
    ensures Unframe(BigEndian(4, |Encode(v) + x|) + (Encode(v) + x)) == OpenEnvelope(CborReading.Canon(v))
  {
    hide Encode, CborReading.Decode, OpenEnvelope, CborReading.Canon, BigEndian, Unframe;
    CborReading.RoundTrip(v);
    UnframeFramed(Encode(v) + x);
  }

  lemma {:induction false} CanonPairs(v: Value)
    requires v.Array? && |v.items| == 2
    ensures CborReading.Canon(v) == Array([CborReading.Canon(v.items[0]), CborReading.Canon(v.items[1])])
  {
    var tail := v.items[1..];
    assert tail[1..] == [];
    assert CborReading.CanonAll(tail) == [CborReading.Canon(tail[0])] + CborReading.CanonAll(tail[1..]);
  }

  /**
   A frame holding any encodable value, whatever follows the value in the body: a pair of a type number and a map is a
   message, and everything else is refused.
   */
  lemma {:induction false} WhichFramesAreMessages(v: Value, x: seq<byte>)
    requires InRange(v) && |Encode(v) + x| <= 65536
    ensures
      var frame := BigEndian(4, |Encode(v) + x|) + (Encode(v) + x);
      && (forall t: nat, body :: IsEnvelope(v, t, body) ==> Unframe(frame) == Ok(Received(Msg(t, body))))
      && ((forall t: nat, body :: !IsEnvelope(v, t, body)) ==> Unframe(frame) == ProtocolViolation)
  {
    hide Encode, Unframe, BigEndian, CborReading.Canon;
    ValueFramed(v, x);
    forall t: nat, body | IsEnvelope(v, t, body)
      ensures OpenEnvelope(CborReading.Canon(v)) == Ok(Received(Msg(t, body)))
    {
      EnvelopeOpens(t, body);
    }
    if forall t: nat, body :: !IsEnvelope(v, t, body) {
      OthersAreRefused(v);
    }
  }

  lemma {:induction false} EnvelopeOpens(t: nat, body: seq<Entry>)
    requires InRange(Array([Int(t), Map(body)]))
    ensures OpenEnvelope(CborReading.Canon(Array([Int(t), Map(body)]))) == Ok(Received(Msg(t, body)))
  {
    hide KeepKnown, KnownKeys, CborReading.SortEntries, CborReading.CanonEach;
    var v := Array([Int(t), Map(body)]);
    assert InRange(v.items[0]);
    CanonPairs(v);
    Remainder(t, TWO_64, 0, t);
  }

  lemma {:induction false} OthersAreRefused(v: Value)
    requires forall t: nat, body :: !IsEnvelope(v, t, body)
    ensures OpenEnvelope(CborReading.Canon(v)) == ProtocolViolation
  {
    hide KeepKnown, KnownKeys, CborReading.SortEntries, CborReading.CanonEach;
    if v.Array? && |v.items| == 2 {
      CanonPairs(v);
      if v.items[0].Int? && v.items[0].i >= 0 && v.items[1].Map? {
        PairIsEnvelope(v);
        assert false;
      }
    }
  }

  lemma {:induction false} PairIsEnvelope(v: Value)
    requires v.Array? && |v.items| == 2 && v.items[0].Int? && v.items[0].i >= 0 && v.items[1].Map?
    ensures IsEnvelope(v, v.items[0].i, v.items[1].entries)
  {
    assert v.items == [v.items[0], v.items[1]];
  }

  /** How many body keys each type registers; they are numbered from 0. */
  function KeyCount(t: nat): Option<nat> {
    match t
    case 0x01 => Some(6)
    case 0x02 => Some(4)
    case 0x03 => Some(7)
    case 0x05 => Some(0)
    case 0x21 => Some(8)
    case 0x31 => Some(3)
    case 0x10 => Some(2)
    case 0x20 => Some(2)
    case 0x40 => Some(2)
    case 0x51 => Some(2)
    case 0x53 => Some(2)
    case 0x04 => Some(1)
    case 0x22 => Some(1)
    case 0x30 => Some(1)
    case 0x41 => Some(1)
    case 0x50 => Some(1)
    case 0x52 => Some(1)
    case _ => None
  }

  /** A message keeps exactly the entries under its registered keys, and a type that is not registered is ignored. */
  lemma {:induction false} RegisteredKeys(m: Msg, k: int)
    ensures KeyCount(m.msgType).None? <==> Received(m).Ignored?
    ensures KeyCount(m.msgType).Some? ==>
      (k in KnownKeys(m.msgType).value <==> 0 <= k < KeyCount(m.msgType).value)
  {
    hide KeepKnown;
  }
}
