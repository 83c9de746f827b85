/**
 A reference decoder for definite-length CBOR (section 3 of RFC 8949), lowering into `Value`, and the proof that it
 reads every canonical encoding back: the encoding is prefix-free and injective up to the order of map entries.
 */
module CborReading {
  import opened Basics
  import opened Cbor
  import opened CborOrder

  // ---------------------------------------------------------------- the decoder

  /** Major type, additional information, argument, and what follows the head. */
  datatype HeadRead = HeadRead(major: nat, info: nat, arg: nat, rest: seq<byte>)

  function ArgumentWidth(info: nat): Option<nat> {
    if info < 24 then Some(0) else if info == 24 then Some(1) else if info == 25 then Some(2)
    else if info == 26 then Some(4) else if info == 27 then Some(8) else None
  }

  /** Any width is accepted, shortest or not; indefinite lengths are not. */
  function ReadHead(b: seq<byte>): (r: Option<HeadRead>)
    ensures r.Some? ==> r.value.major < 8 && r.value.info < 28 && |r.value.rest| < |b|
    ensures r.Some? && r.value.info >= 24 ==> |r.value.rest| + ArgumentWidth(r.value.info).value + 1 == |b|
  {
    if b == [] then None
    else
      var info := b[0] % 32;
      match ArgumentWidth(info)
      case None => None
      case Some(w) =>
        if |b| < 1 + w then None
        else Some(HeadRead(b[0] / 32, info, if w == 0 then info else FromBigEndian(b[1..1 + w]), b[1 + w..]))
  }

  datatype Read = Read(value: Value, rest: seq<byte>)
  datatype ReadMany = ReadMany(values: seq<Value>, rest: seq<byte>)
  datatype ReadPairs = ReadPairs(entries: seq<Entry>, rest: seq<byte>)

  /** Tags unwrap to their content; other simple values read as null. */
  function Decode(b: seq<byte>): (r: Option<Read>)
    ensures r.Some? ==> |r.value.rest| < |b|
    decreases |b|, 0
  {
    match ReadHead(b)
    case None => None
    case Some(h) =>
      if h.major == 0 then Some(Read(Int(h.arg), h.rest))
      else if h.major == 1 then Some(Read(Int(-1 - h.arg), h.rest))
      else if h.major == 2 || h.major == 3 then
        if |h.rest| < h.arg then None
        else Some(Read(if h.major == 2 then Bytes(h.rest[..h.arg]) else Text(h.rest[..h.arg]), h.rest[h.arg..]))
      else if h.major == 4 then
        match DecodeItems(h.arg, h.rest) {
          case None => None
          case Some(m) => Some(Read(Array(m.values), m.rest))
        }
      else if h.major == 5 then
        match DecodePairs(h.arg, h.rest) {
          case None => None
          case Some(m) => Some(Read(Map(m.entries), m.rest))
        }
      else if h.major == 6 then Decode(h.rest)
      else Some(Read(Simple(h.info, b[1..|b| - |h.rest|]), h.rest))
  }

  function Simple(info: nat, payload: seq<byte>): Value {
    if info == 20 then Bool(false) else if info == 21 then Bool(true) else if info >= 25 then Float(payload) else Null
  }

  function DecodeItems(n: nat, b: seq<byte>): (r: Option<ReadMany>)
    ensures r.Some? ==> |r.value.rest| <= |b|
    decreases |b|, n + 1
  {
    if n == 0 then Some(ReadMany([], b))
    else
      match Decode(b)
      case None => None
      case Some(first) =>
        match DecodeItems(n - 1, first.rest)
        case None => None
        case Some(more) => Some(ReadMany([first.value] + more.values, more.rest))
  }

  function DecodePairs(n: nat, b: seq<byte>): (r: Option<ReadPairs>)
    ensures r.Some? ==> |r.value.rest| <= |b|
    decreases |b|, n + 1
  {
    if n == 0 then Some(ReadPairs([], b))
    else
      match Decode(b)
      case None => None
      case Some(k) =>
        match Decode(k.rest)
        case None => None
        case Some(v) =>
          match DecodePairs(n - 1, v.rest)
          case None => None
          case Some(more) => Some(ReadPairs([Entry(k.value, v.value)] + more.entries, more.rest))
  }

  // ---------------------------------------------------------------- what a canonical encoding reads back as

  function InsertEntry(es: seq<Entry>, x: Entry): (r: seq<Entry>)
    ensures |r| == |es| + 1
  {
    if es == [] || LexAtMost(Encode(es[|es| - 1].key), Encode(x.key)) then es + [x]
    else InsertEntry(es[..|es| - 1], x) + [es[|es| - 1]]
  }

  /** The stable sort of the entries themselves by their encoded keys. */
  function SortEntries(es: seq<Entry>): (r: seq<Entry>)
    ensures |r| == |es|
  {
    if es == [] then [] else InsertEntry(SortEntries(es[..|es| - 1]), es[|es| - 1])
  }

  /** `v` with the entries of every map, at every depth, in canonical order. */
  function Canon(v: Value): Value
    decreases v, 2
  {
    match v
    case Array(items) => Array(CanonAll(items))
    case Map(entries) => Map(SortEntries(CanonEach(entries)))
    case _ => v
  }

  function CanonAll(vs: seq<Value>): (r: seq<Value>)
    ensures |r| == |vs|
    ensures forall i :: 0 <= i < |vs| ==> r[i] == Canon(vs[i])
    decreases vs, 0
  {
    if vs == [] then [] else [Canon(vs[0])] + CanonAll(vs[1..])
  }

  function CanonEntry(e: Entry): Entry
    decreases e, 0
  {
    Entry(Canon(e.key), Canon(e.val))
  }

  function CanonEach(es: seq<Entry>): (r: seq<Entry>)
    ensures |r| == |es|
    ensures forall i :: 0 <= i < |es| ==> r[i] == CanonEntry(es[i])
    decreases es, 0
  {
    if es == [] then [] else [CanonEntry(es[0])] + CanonEach(es[1..])
  }

  // ---------------------------------------------------------------- sorting entries and sorting their encodings

  lemma {:induction false} InsertCommutes(es: seq<Entry>, x: Entry)
    ensures EncodeEntries(InsertEntry(es, x)) == InsertItem(EncodeEntries(es), EncodeEntry(x))
  {
    hide Encode, LexLess;
    if es != [] {
      InsertCommutes(es[..|es| - 1], x);
      assert EncodeEntries(es)[..|es| - 1] == EncodeEntries(es[..|es| - 1]);
    }
  }

  lemma {:induction false} SortCommutes(es: seq<Entry>)
    ensures EncodeEntries(SortEntries(es)) == SortItems(EncodeEntries(es))
  {
    hide Encode;
    if es != [] {
      var init := es[..|es| - 1];
      SortCommutes(init);
      assert EncodeEntries(es)[..|es| - 1] == EncodeEntries(init);
      InsertCommutes(SortEntries(init), es[|es| - 1]);
    }
  }

  ghost predicate SameBytes(v: Value) {
    Encode(Canon(v)) == Encode(v)
  }

  lemma {:induction false} InsertBytes(e: Entry)
    requires SameBytes(e.key)
    ensures Encode(CanonEntry(e).key) == Encode(e.key)
  {
  }

  lemma {:induction false} CanonSnoc(es: seq<Entry>, x: Entry)
    ensures CanonEach(es + [x]) == CanonEach(es) + [CanonEntry(x)]
  {
    hide CanonEntry;
  }

  lemma {:induction false} InsertCanon(es: seq<Entry>, x: Entry)
    requires SameBytes(x.key) && forall e :: e in es ==> SameBytes(e.key)
    ensures CanonEach(InsertEntry(es, x)) == InsertEntry(CanonEach(es), CanonEntry(x))
  {
    hide Encode, Canon, SameBytes, LexLess, CanonEntry, CanonEach;
    InsertBytes(x);
    if es != [] {
      var init, last := es[..|es| - 1], es[|es| - 1];
      InsertBytes(last);
      InsertCanon(init, x);
      assert es == init + [last];
      CanonSnoc(init, last);
      CanonSnoc(es, x);
      CanonSnoc(InsertEntry(init, x), last);
      assert CanonEach(es)[..|es| - 1] == CanonEach(init);
    } else {
      CanonSnoc([], x);
      assert [] + [x] == [x];
    }
  }

  lemma {:induction false} InsertMembers(es: seq<Entry>, x: Entry)
    ensures forall e :: e in InsertEntry(es, x) ==> e in es || e == x
  {
    if es != [] {
      InsertMembers(es[..|es| - 1], x);
    }
  }

  lemma {:induction false} SortMembers(es: seq<Entry>)
    ensures forall e :: e in SortEntries(es) ==> e in es
  {
    if es != [] {
      SortMembers(es[..|es| - 1]);
      InsertMembers(SortEntries(es[..|es| - 1]), es[|es| - 1]);
    }
  }

  lemma {:induction false} SortCanon(es: seq<Entry>)
    requires forall e :: e in es ==> SameBytes(e.key)
    ensures CanonEach(SortEntries(es)) == SortEntries(CanonEach(es))
  {
    hide Encode, Canon, SameBytes;
    if es != [] {
      var init := es[..|es| - 1];
      SortCanon(init);
      assert CanonEach(es)[..|es| - 1] == CanonEach(init);
      SortMembers(init);
      InsertCanon(SortEntries(init), es[|es| - 1]);
    }
  }

  lemma {:induction false} SameBytesAll(vs: seq<Value>)
    requires forall i :: 0 <= i < |vs| ==> SameBytes(vs[i])
    ensures EncodeAll(CanonAll(vs)) == EncodeAll(vs)
  {
    hide Encode, Canon;
    if vs != [] {
      SameBytesAll(vs[1..]);
      assert CanonAll(vs)[1..] == CanonAll(vs[1..]);
    }
  }

  /** Putting the entries of every map in canonical order does not change a byte. */
  lemma {:induction false} CanonKeepsBytes(v: Value)
    ensures SameBytes(v)
    decreases v
  {
    match v
    case Array(items) =>
      forall i | 0 <= i < |items|
        ensures SameBytes(items[i])
      {
        CanonKeepsBytes(items[i]);
      }
      SameBytesAll(items);
    case Map(entries) =>
      forall i | 0 <= i < |entries|
        ensures SameBytes(entries[i].key) && SameBytes(entries[i].val)
      {
        assert entries[i] < v;
        CanonKeepsBytes(entries[i].key);
        CanonKeepsBytes(entries[i].val);
      }
      MapKeepsBytes(entries);
    case _ =>
  }

  lemma {:induction false} MapKeepsBytes(es: seq<Entry>)
    requires forall i :: 0 <= i < |es| ==> SameBytes(es[i].key) && SameBytes(es[i].val)
    ensures SameBytes(Map(es))
  {
    hide Emit, SortItems, Head, InsertEntry;
    var fs := CanonEach(es);
    assert EncodeEntries(fs) == EncodeEntries(es);
    SortCommutes(SortEntries(fs));
    SortCommutes(fs);
    SortCommutes(es);
    SortTwice(EncodeEntries(es));
  }

  lemma {:induction false} SortTwice(items: seq<Item>)
    ensures SortItems(SortItems(items)) == SortItems(items)
  {
    SortSorts(items);
    SortOfSorted(SortItems(items));
  }

  lemma {:induction false} SortedInit(items: seq<Item>)
    requires items != [] && SortedByKey(items)
    ensures SortedByKey(items[..|items| - 1])
    ensures |items| > 1 ==> LexAtMost(items[|items| - 2].kb, items[|items| - 1].kb)
  {
    hide LexAtMost;
  }

  lemma {:induction false} SortOfSorted(items: seq<Item>)
    requires SortedByKey(items)
    ensures SortItems(items) == items
  {
    hide LexAtMost, SortedByKey;
    if items != [] {
      var init, last := items[..|items| - 1], items[|items| - 1];
      SortedInit(items);
      SortOfSorted(init);
      assert items == init + [last];
    }
  }

  // ---------------------------------------------------------------- reading back

  lemma {:induction false} LeadParts(major: nat, arg: nat)
    requires major < 8
    ensures var info := LeadByte(major, arg) - major * 32;
      && LeadByte(major, arg) / 32 == major && LeadByte(major, arg) % 32 == info
      && ArgumentWidth(info) == Some(Width(arg)) && (arg < 24 ==> info == arg)
  {
  }

  lemma {:induction false} ReadHeadBack(major: nat, arg: nat, x: seq<byte>)
    requires major < 8 && arg < TWO_64
    ensures var info := LeadByte(major, arg) - major * 32;
      ReadHead(Head(major, arg) + x) == Some(HeadRead(major, info, arg, x))
  {
    hide Head, LeadByte, ArgumentWidth, Width;
    HeadShape(major, arg);
    LeadParts(major, arg);
    var w := Width(arg);
    var b := Head(major, arg) + x;
    assert b[0] == LeadByte(major, arg);
    assert b[1..1 + w] == BigEndian(w, arg);
    assert b[1 + w..] == x;
    if arg >= 24 {
      ReadBackExact(w, arg);
    }
    NoWidth(arg);
  }

  lemma {:induction false} NoWidth(arg: nat)
    ensures Width(arg) == 0 <==> arg < 24
  {
  }

  /** `v` reads back, in canonical order, whatever follows it. */
  ghost predicate ReadsBack(v: Value) {
    forall x: seq<byte> {:trigger Encode(v) + x} :: Decode(Encode(v) + x) == Some(Read(Canon(v), x))
  }

  lemma {:induction false} ItemsReadBack(vs: seq<Value>, x: seq<byte>)
    requires forall i :: 0 <= i < |vs| ==> ReadsBack(vs[i])
    ensures DecodeItems(|vs|, EncodeAll(vs) + x) == Some(ReadMany(CanonAll(vs), x))
  {
    hide Encode, Decode, Canon;
    if vs != [] {
      var rest := EncodeAll(vs[1..]) + x;
      ItemsReadBack(vs[1..], x);
      assert EncodeAll(vs) + x == Encode(vs[0]) + rest;
      assert ReadsBack(vs[0]);
    } else {
      assert [] + x == x;
    }
  }

  lemma {:induction false} FirstPair(es: seq<Entry>, x: seq<byte>)
    requires es != []
    ensures Emit(EncodeEntries(es)) + x == Encode(es[0].key) + (Encode(es[0].val) + (Emit(EncodeEntries(es[1..])) + x))
  {
    hide Encode;
    assert EncodeEntries(es)[1..] == EncodeEntries(es[1..]);
  }

  lemma {:induction false} PairsReadBack(es: seq<Entry>, x: seq<byte>)
    requires forall i :: 0 <= i < |es| ==> ReadsBack(es[i].key) && ReadsBack(es[i].val)
    ensures DecodePairs(|es|, Emit(EncodeEntries(es)) + x) == Some(ReadPairs(CanonEach(es), x))
  {
    hide Encode, Decode, Canon, Emit;
    if es != [] {
      var rest := Emit(EncodeEntries(es[1..])) + x;
      PairsReadBack(es[1..], x);
      FirstPair(es, x);
      var vs := Encode(es[0].val) + rest;
      assert Decode(Encode(es[0].key) + vs) == Some(Read(Canon(es[0].key), vs));
      assert Decode(vs) == Some(Read(Canon(es[0].val), rest));
      assert CanonEach(es)[1..] == CanonEach(es[1..]);
    } else {
      NothingToRead(x);
    }
  }

  lemma {:induction false} NothingToRead(x: seq<byte>)
    ensures Emit(EncodeEntries([])) + x == x
  {
  }

  lemma {:induction false} HeadedReadsBack(major: nat, arg: nat, body: seq<byte>, x: seq<byte>)
    requires major < 8 && arg < TWO_64
    ensures var info := LeadByte(major, arg) - major * 32;
      ReadHead(Head(major, arg) + body + x) == Some(HeadRead(major, info, arg, body + x))
  {
    ReadHeadBack(major, arg, body + x);
    assert Head(major, arg) + body + x == Head(major, arg) + (body + x);
  }

  lemma {:induction false} LeafReadsBack(v: Value)
    requires InRange(v) && !v.Array? && !v.Map?
    ensures ReadsBack(v)
  {
    hide Encode, Decode;
    forall x: seq<byte>
      ensures Decode(Encode(v) + x) == Some(Read(Canon(v), x))
    {
      match v
      case Int(i) => IntReadsBack(i, x);
      case Bytes(b) => StringReadsBack(v, b, x);
      case Text(t) => StringReadsBack(v, t, x);
      case _ => SimpleReadsBack(v, x);
    }
  }

  lemma {:induction false} IntReadsBack(i: int, x: seq<byte>)
    requires InRange(Int(i))
    ensures Decode(Encode(Int(i)) + x) == Some(Read(Int(i), x))
  {
    hide Head, ReadHead, LeadByte;
    var major, arg := if i >= 0 then 0 else 1, if i >= 0 then i else -1 - i;
    Remainder(arg, TWO_64, 0, arg);
    assert Encode(Int(i)) == Head(major, arg);
    ReadHeadBack(major, arg, x);
  }

  lemma {:induction false} StringReadsBack(v: Value, s: seq<byte>, x: seq<byte>)
    requires |s| < TWO_64 && (v == Bytes(s) || v == Text(s))
    ensures Decode(Encode(v) + x) == Some(Read(v, x))
  {
    hide Head, ReadHead;
    HeadedReadsBack(if v.Bytes? then 2 else 3, |s|, s, x);
  }

  lemma {:induction false} SimpleReadsBack(v: Value, x: seq<byte>)
    requires InRange(v) && (v.Bool? || v.Null? || v.Float?)
    ensures Decode(Encode(v) + x) == Some(Read(v, x))
  {
    hide FromBigEndian;
    if v.Float? {
      FloatReadsBack(v.ieee, x);
    } else {
      assert (Encode(v) + x)[1..] == x;
    }
  }

  lemma {:induction false} FloatReadsBack(ieee: seq<byte>, x: seq<byte>)
    requires InRange(Float(ieee))
    ensures Decode(Encode(Float(ieee)) + x) == Some(Read(Float(ieee), x))
  {
    hide FromBigEndian;
    var b := Encode(Float(ieee)) + x;
    assert b[1..1 + |ieee|] == ieee;
    assert b[1 + |ieee|..] == x;
  }

  lemma {:induction false} MapReadsBack(es: seq<Entry>)
    requires |es| < TWO_64 && forall i :: 0 <= i < |es| ==> ReadsBack(es[i].key) && ReadsBack(es[i].val)
    ensures ReadsBack(Map(es))
  {
    hide Head, ReadHead, DecodePairs, SortEntries, SortItems, ReadsBack, Emit;
    var fs := SortEntries(es);
    SortCommutes(es);
    SortMembers(es);
    assert forall e :: e in es ==> ReadsBack(e.key) && ReadsBack(e.val);
    forall i | 0 <= i < |es|
      ensures SameBytes(es[i].key)
    {
      CanonKeepsBytes(es[i].key);
    }
    SortCanon(es);
    SortedReadsBack(es, fs);
  }

  lemma {:induction false} SortedReadsBack(es: seq<Entry>, fs: seq<Entry>)
    requires |fs| == |es| < TWO_64 && EncodeEntries(fs) == SortItems(EncodeEntries(es))
    requires CanonEach(fs) == SortEntries(CanonEach(es))
    requires forall i :: 0 <= i < |fs| ==> ReadsBack(fs[i].key) && ReadsBack(fs[i].val)
    ensures ReadsBack(Map(es))
  {
    hide Encode, Canon, Decode, EncodeEntries, CanonEach, SortEntries, SortItems;
    forall x: seq<byte>
      ensures Decode(Encode(Map(es)) + x) == Some(Read(Canon(Map(es)), x))
    {
      SortedReadsBackBefore(es, fs, x);
    }
  }

  lemma {:induction false} SortedReadsBackBefore(es: seq<Entry>, fs: seq<Entry>, x: seq<byte>)
    requires |fs| == |es| < TWO_64 && EncodeEntries(fs) == SortItems(EncodeEntries(es))
    requires CanonEach(fs) == SortEntries(CanonEach(es))
    requires forall i :: 0 <= i < |fs| ==> ReadsBack(fs[i].key) && ReadsBack(fs[i].val)
    ensures Decode(Encode(Map(es)) + x) == Some(Read(Canon(Map(es)), x))
  {
    hide Head, ReadHead, Decode, DecodePairs, SortEntries, SortItems, Emit, EncodeEntries, CanonEach, ReadsBack;
    HeadedReadsBack(5, |es|, Emit(EncodeEntries(fs)), x);
    PairsReadBack(fs, x);
    assert Encode(Map(es)) == Head(5, |es|) + Emit(EncodeEntries(fs));
    DecodeMapHead(Encode(Map(es)) + x, ReadHead(Encode(Map(es)) + x).value);
  }

  lemma {:induction false} DecodeMapHead(b: seq<byte>, h: HeadRead)
    requires ReadHead(b) == Some(h) && h.major == 5 && DecodePairs(h.arg, h.rest).Some?
    ensures var m := DecodePairs(h.arg, h.rest).value; Decode(b) == Some(Read(Map(m.entries), m.rest))
  {
    hide ReadHead, DecodePairs;
  }

  lemma {:induction false} DecodeArrayHead(b: seq<byte>, h: HeadRead)
    requires ReadHead(b) == Some(h) && h.major == 4 && DecodeItems(h.arg, h.rest).Some?
    ensures var m := DecodeItems(h.arg, h.rest).value; Decode(b) == Some(Read(Array(m.values), m.rest))
  {
    hide ReadHead, DecodeItems;
  }

  lemma {:induction false} ArrayReadsBack(vs: seq<Value>)
    requires |vs| < TWO_64 && forall i :: 0 <= i < |vs| ==> ReadsBack(vs[i])
    ensures ReadsBack(Array(vs))
  {
    hide Head, ReadHead, Decode, DecodeItems, LeadByte;
    forall x: seq<byte>
      ensures Decode(Encode(Array(vs)) + x) == Some(Read(Canon(Array(vs)), x))
    {
      HeadedReadsBack(4, |vs|, EncodeAll(vs), x);
      ItemsReadBack(vs, x);
      DecodeArrayHead(Encode(Array(vs)) + x, HeadRead(4, LeadByte(4, |vs|) - 4 * 32, |vs|, EncodeAll(vs) + x));
    }
  }

  /** Every value in range is read back from its encoding, with its map entries in canonical order. */
  lemma {:induction false} RoundTrip(v: Value)
    requires InRange(v)
    ensures ReadsBack(v)
    decreases v
  {
    hide ReadsBack;
    match v
    case Array(items) =>
      forall i | 0 <= i < |items|
        ensures ReadsBack(items[i])
      {
        RoundTrip(items[i]);
      }
      ArrayReadsBack(items);
    case Map(entries) =>
      forall i | 0 <= i < |entries|
        ensures ReadsBack(entries[i].key) && ReadsBack(entries[i].val)
      {
        assert EntryInRange(entries[i]);
        assert entries[i] < v;
        RoundTrip(entries[i].key);
        RoundTrip(entries[i].val);
      }
      MapReadsBack(entries);
    case _ => LeafReadsBack(v);
  }
}
