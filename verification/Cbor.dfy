/**
 The CBOR value model and its canonical encoder (section 4.2.1 of RFC 8949). `Encode` is the specification;
 `EncodeInto` and its helpers append to a shared buffer and sort in place, as the encoder does.
 */
module Cbor {
  import opened Basics

  /**
   Integers cover both CBOR integer ranges, texts are their UTF-8 bytes, and a float is its 2, 4 or 8 bytes
   in the width the encoder chose.
   */
  datatype Value =
    | Int(i: int)
    | Bytes(b: seq<byte>)
    | Text(t: seq<byte>)
    | Array(items: seq<Value>)
    | Map(entries: seq<Entry>)
    | Bool(flag: bool)
    | Float(ieee: seq<byte>)
    | Null

  datatype Entry = Entry(key: Value, val: Value)

  /** Encoded key and value of one map entry. */
  datatype Item = Item(kb: seq<byte>, vb: seq<byte>)

  const FALSE_BYTE: byte := 0xF4
  const TRUE_BYTE: byte := 0xF5
  const NULL_BYTE: byte := 0xF6

  // ---------------------------------------------------------------- values the encoder can represent

  /** The Rust types bound lengths; integers are the caller's business: -2^64 .. 2^64 - 1. */
  predicate InRange(v: Value)
    decreases v, 1
  {
    match v
    case Int(i) => -TWO_64 <= i < TWO_64
    case Bytes(b) => |b| < TWO_64
    case Text(t) => |t| < TWO_64
    case Array(items) => |items| < TWO_64 && AllInRange(items)
    case Map(entries) => |entries| < TWO_64 && EntriesInRange(entries)
    case Bool(_) => true
    case Float(ieee) => |ieee| == 2 || |ieee| == 4 || |ieee| == 8
    case Null => true
  }

  predicate AllInRange(vs: seq<Value>)
    decreases vs, 0
  {
    forall i :: 0 <= i < |vs| ==> InRange(vs[i])
  }

  predicate EntriesInRange(es: seq<Entry>)
    decreases es, 0
  {
    forall i :: 0 <= i < |es| ==> EntryInRange(es[i])
  }

  predicate EntryInRange(e: Entry)
    decreases e, 0
  {
    InRange(e.key) && InRange(e.val)
  }

  // ---------------------------------------------------------------- bytewise order

  /** Lexicographic order of byte vectors; a proper prefix comes first. */
  predicate LexLess(a: seq<byte>, b: seq<byte>) {
    b != [] && (a == [] || a[0] < b[0] || (a[0] == b[0] && LexLess(a[1..], b[1..])))
  }

  predicate LexAtMost(a: seq<byte>, b: seq<byte>) {
    !LexLess(b, a)
  }

  predicate SortedByKey(items: seq<Item>) {
    forall i, j :: 0 <= i < j < |items| ==> LexAtMost(items[i].kb, items[j].kb)
  }

  /** Insert after every item whose key is not greater: the sort is stable. */
  function InsertItem(items: seq<Item>, x: Item): (r: seq<Item>)
    ensures |r| == |items| + 1
  {
    if items == [] || LexAtMost(items[|items| - 1].kb, x.kb) then items + [x]
    else InsertItem(items[..|items| - 1], x) + [items[|items| - 1]]
  }

  function SortItems(items: seq<Item>): (r: seq<Item>)
    ensures |r| == |items|
  {
    if items == [] then [] else InsertItem(SortItems(items[..|items| - 1]), items[|items| - 1])
  }

  // ---------------------------------------------------------------- the encoding

  /** Major type in the top three bits, argument in the shortest of five forms. */
  function Head(major: nat, arg: nat): (h: seq<byte>)
    requires major < 8
    ensures 1 <= |h| <= 9
  {
    var mt := major * 32;
    if arg < 24 then [mt + arg]
    else if arg < 256 then [mt + 24] + BigEndian(1, arg)
    else if arg < TWO_16 then [mt + 25] + BigEndian(2, arg)
    else if arg < TWO_32 then [mt + 26] + BigEndian(4, arg)
    else [mt + 27] + BigEndian(8, arg)
  }

  /** The casts to `u64` are part of the encoder: integers out of range wrap. */
  function EncodeInteger(i: int): seq<byte> {
    if i >= 0 then Head(0, i % TWO_64) else Head(1, (-1 - i) % TWO_64)
  }

  function FloatHead(ieee: seq<byte>): byte {
    if |ieee| == 2 then 0xF9 else if |ieee| == 4 then 0xFA else 0xFB
  }

  function Encode(v: Value): (b: seq<byte>)
    ensures b != []
    decreases v, 2
  {
    match v
    case Int(i) => EncodeInteger(i)
    case Bytes(b) => Head(2, |b| % TWO_64) + b
    case Text(t) => Head(3, |t| % TWO_64) + t
    case Array(items) => Head(4, |items| % TWO_64) + EncodeAll(items)
    case Map(entries) => Head(5, |entries| % TWO_64) + Emit(SortItems(EncodeEntries(entries)))
    case Bool(flag) => [if flag then TRUE_BYTE else FALSE_BYTE]
    case Float(ieee) => [FloatHead(ieee)] + ieee
    case Null => [NULL_BYTE]
  }

  function EncodeAll(vs: seq<Value>): seq<byte>
    decreases vs, 0
  {
    if vs == [] then [] else Encode(vs[0]) + EncodeAll(vs[1..])
  }

  function EncodeEntry(e: Entry): Item
    decreases e, 0
  {
    Item(Encode(e.key), Encode(e.val))
  }

  function EncodeEntries(es: seq<Entry>): (items: seq<Item>)
    ensures |items| == |es|
    ensures forall i :: 0 <= i < |es| ==> items[i] == EncodeEntry(es[i])
    decreases es, 0
  {
    if es == [] then [] else [EncodeEntry(es[0])] + EncodeEntries(es[1..])
  }

  function Emit(items: seq<Item>): seq<byte> {
    if items == [] then [] else items[0].kb + items[0].vb + Emit(items[1..])
  }

  // ---------------------------------------------------------------- the encoder in place

  method EncodeHead(major: nat, arg: nat, out: ByteVec)
    requires major < 8
    modifies out
    ensures out.bytes == old(out.bytes) + Head(major, arg)
  {
    hide BigEndian;
    var mt := major * 32;
    ghost var before := out.bytes;
    if arg < 24 {
      out.Extend([mt + arg]);
    } else if arg < 256 {
      out.Extend([mt + 24]);
      out.Extend([arg]);
      OneByte(arg);
      Associate(before, [mt + 24], [arg]);
    } else if arg < TWO_16 {
      out.Extend([mt + 25]);
      out.Extend(BigEndian(2, arg));
      Associate(before, [mt + 25], BigEndian(2, arg));
    } else if arg < TWO_32 {
      out.Extend([mt + 26]);
      out.Extend(BigEndian(4, arg));
      Associate(before, [mt + 26], BigEndian(4, arg));
    } else {
      out.Extend([mt + 27]);
      out.Extend(BigEndian(8, arg));
      Associate(before, [mt + 27], BigEndian(8, arg));
    }
  }

  lemma {:induction false} OneByte(x: byte)
    ensures BigEndian(1, x) == [x]
  {
  }

  method EncodeInt(i: int, out: ByteVec)
    modifies out
    ensures out.bytes == old(out.bytes) + EncodeInteger(i)
  {
    if i >= 0 {
      EncodeHead(0, i % TWO_64, out);
    } else {
      EncodeHead(1, (-1 - i) % TWO_64, out);
    }
  }

  lemma {:induction false} Associate(a: seq<byte>, b: seq<byte>, c: seq<byte>)
    ensures a + b + c == a + (b + c)
  {
  }

  method EncodeInto(v: Value, out: ByteVec)
    modifies out
    ensures out.bytes == old(out.bytes) + Encode(v)
    decreases v, 1
  {
    hide Head, EncodeInteger, EncodeAll;
    match v
    case Int(i) => EncodeInt(i, out);
    case Bytes(b) => EncodeString(2, b, out);
    case Text(t) => EncodeString(3, t, out);
    case Array(items) =>
      EncodeHead(4, |items| % TWO_64, out);
      EncodeItems(items, out);
      Associate(old(out.bytes), Head(4, |items| % TWO_64), EncodeAll(items));
    case Map(entries) => EncodeMap(entries, out);
    case Bool(flag) => out.Extend([if flag then TRUE_BYTE else FALSE_BYTE]);
    case Float(ieee) =>
      out.Extend([FloatHead(ieee)]);
      out.Extend(ieee);
      Associate(old(out.bytes), [FloatHead(ieee)], ieee);
    case Null => out.Extend([NULL_BYTE]);
  }

  method EncodeString(major: nat, s: seq<byte>, out: ByteVec)
    requires major < 8
    modifies out
    ensures out.bytes == old(out.bytes) + (Head(major, |s| % TWO_64) + s)
  {
    hide Head;
    EncodeHead(major, |s| % TWO_64, out);
    out.Extend(s);
    Associate(old(out.bytes), Head(major, |s| % TWO_64), s);
  }

  method EncodeItems(items: seq<Value>, out: ByteVec)
    modifies out
    ensures out.bytes == old(out.bytes) + EncodeAll(items)
    decreases items, 0
  {
    hide Encode;
    for i := 0 to |items|
      invariant out.bytes + EncodeAll(items[i..]) == old(out.bytes) + EncodeAll(items)
    {
      ghost var before := out.bytes;
      EncodeInto(items[i], out);
      assert items[i..][1..] == items[i + 1..];
      assert before + EncodeAll(items[i..]) == out.bytes + EncodeAll(items[i + 1..]);
    }
  }

  method EncodePair(e: Entry) returns (item: Item)
    ensures item == EncodeEntry(e)
    decreases e, 0
  {
    var kb := new ByteVec();
    var vb := new ByteVec();
    EncodeInto(e.key, kb);
    EncodeInto(e.val, vb);
    item := Item(kb.bytes, vb.bytes);
  }

  /** The entries are encoded into separate vectors, sorted by key bytes, and appended in that order. */
  method EncodeMap(entries: seq<Entry>, out: ByteVec)
    modifies out
    ensures out.bytes == old(out.bytes) + Encode(Map(entries))
    decreases entries, 0
  {
    hide Head, Emit, SortItems, EncodeEntry;
    var items: seq<Item> := [];
    for i := 0 to |entries|
      invariant |items| == i && forall k :: 0 <= k < i ==> items[k] == EncodeEntry(entries[k])
      invariant out.bytes == old(out.bytes)
    {
      var item := EncodePair(entries[i]);
      items := items + [item];
    }
    assert items == EncodeEntries(entries);
    var sorted := SortByKey(items);
    EncodeHead(5, |sorted| % TWO_64, out);
    EmitItems(sorted, out);
    Associate(old(out.bytes), Head(5, |sorted| % TWO_64), Emit(sorted));
  }

  /** The stable library sort, as insertion. */
  method SortByKey(items: seq<Item>) returns (sorted: seq<Item>)
    ensures sorted == SortItems(items)
  {
    sorted := [];
    for i := 0 to |items|
      invariant sorted == SortItems(items[..i])
    {
      assert items[..i + 1][..i] == items[..i];
      sorted := InsertItem(sorted, items[i]);
    }
    assert items[..|items|] == items;
  }

  method EmitItems(items: seq<Item>, out: ByteVec)
    modifies out
    ensures out.bytes == old(out.bytes) + Emit(items)
  {
    for i := 0 to |items|
      invariant out.bytes + Emit(items[i..]) == old(out.bytes) + Emit(items)
    {
      ghost var before := out.bytes;
      out.Extend(items[i].kb);
      out.Extend(items[i].vb);
      assert items[i..][1..] == items[i + 1..];
      assert before + Emit(items[i..]) == out.bytes + Emit(items[i + 1..]);
    }
  }

  method ToCanonical(v: Value) returns (bytes: seq<byte>)
    ensures bytes == Encode(v)
  {
    var out := new ByteVec();
    EncodeInto(v, out);
    bytes := out.bytes;
  }
}
