/** A whole control stream survives framing: same messages, same order, unknown keys stripped, keys in canonical order. */
module ControlStream {
  import opened Basics
  import opened Cbor
  import opened CborOrder
  import opened CborReading
  import opened CborCanonical
  import opened CborTruncation
  import opened Control

  datatype Msg = Msg(msgType: nat, body: seq<Entry>)

  /** What a sender may send: 64-bit type, encodable body, and a body length within the limit. */
  predicate Sendable(m: Msg) {
    && m.msgType < TWO_64
    && |m.body| < TWO_64 && EntriesInRange(m.body)
    && |Encode(Envelope(m.msgType, m.body))| <= MAX_FRAME_BODY
  }

  /** What the receiver of `m` sees. */
  function Received(m: Msg): Decoded {
    match KnownKeys(m.msgType)
    case None => Ignored
    case Some(keys) => Message(m.msgType, KeepKnown(SortEntries(CanonEach(m.body)), keys))
  }

  lemma {:induction false} EnvelopeReadsBack(m: Msg, x: seq<byte>)
    requires m.msgType < TWO_64 && |m.body| < TWO_64 && EntriesInRange(m.body)
    ensures var canon := Array([Int(m.msgType), Map(SortEntries(CanonEach(m.body)))]);
      CborReading.Decode(Encode(Envelope(m.msgType, m.body)) + x) == Some(Read(canon, x))
  {
    hide Encode, CborReading.Decode, EntriesInRange;
    var v := Envelope(m.msgType, m.body);
    assert InRange(v.items[0]) && InRange(v.items[1]);
    RoundTrip(v);
    assert Canon(v).items[0] == Canon(v.items[0]) && Canon(v.items[1]) == Map(SortEntries(CanonEach(m.body)));
    assert CborReading.Decode(Encode(v) + x) == Some(Read(Canon(v), x));
    assert Canon(v).items == [Int(m.msgType), Map(SortEntries(CanonEach(m.body)))];
  }

  lemma {:induction false} UnframeFramed(cbor: seq<byte>)
    requires |cbor| < TWO_32
    ensures Unframe(BigEndian(4, |cbor|) + cbor)
      == if |cbor| > MAX_FRAME_BODY then ProtocolViolation
         else match CborReading.Decode(cbor) { case None => ProtocolViolation case Some(read) => OpenEnvelope(read.value) }
  {
    hide CborReading.Decode, OpenEnvelope, BigEndian, FromBigEndian;
    var frame := BigEndian(4, |cbor|) + cbor;
    LengthField(|cbor|);
    assert frame[..4] == BigEndian(4, |cbor|);
    assert |cbor| <= MAX_FRAME_BODY ==> frame[4..4 + |cbor|] == cbor;
  }

  /** A length field that claims less than the body: the frame is cut, or already too long. */
  lemma {:induction false} UnframeCut(cbor: seq<byte>, len: nat)
    requires len < |cbor| && len < TWO_32
    requires CborReading.Decode(cbor[..len]) == None
    ensures Unframe(BigEndian(4, len) + cbor) == ProtocolViolation
  {
    hide CborReading.Decode, OpenEnvelope, BigEndian, FromBigEndian;
    var frame := BigEndian(4, len) + cbor;
    LengthField(len);
    assert frame[..4] == BigEndian(4, len);
    assert frame[4..4 + len] == cbor[..len];
  }

  lemma {:induction false} LengthField(n: nat)
    requires n < TWO_32
    ensures FromBigEndian(BigEndian(4, n)) == n
  {
    Pow256Values();
    ReadBackExact(4, n);
  }

  /**
   A frame decodes to its own message exactly when its body is within the limit. Over it, it is a violation: also
   where the 32-bit length field has wrapped to a small value, because no cut envelope decodes.
   */
  lemma {:induction false} FrameRoundTrip(m: Msg)
    requires m.msgType < TWO_64 && |m.body| < TWO_64 && EntriesInRange(m.body)
    ensures Unframe(Frame(m.msgType, m.body))
      == if |Encode(Envelope(m.msgType, m.body))| <= MAX_FRAME_BODY then Ok(Received(m)) else ProtocolViolation
  {
    hide Encode, CborReading.Decode, KeepKnown, KnownKeys, EntriesInRange, SortEntries, Unframe;
    var v := Envelope(m.msgType, m.body);
    var cbor := Encode(v);
    if |cbor| < TWO_32 {
      Remainder(|cbor|, TWO_32, 0, |cbor|);
      UnframeFramed(cbor);
      EnvelopeReadsBack(m, []);
      assert cbor + [] == cbor;
    } else {
      assert InRange(v.items[0]) && InRange(v.items[1]);
      NoProperPrefix(v, |cbor| % TWO_32);
      UnframeCut(cbor, |cbor| % TWO_32);
    }
  }

  // ---------------------------------------------------------------- the body a receiver gets

  lemma {:induction false} KeepKnownCounts(es: seq<Entry>, keys: seq<int>, e: Entry)
    ensures multiset(KeepKnown(es, keys))[e] == if Kept(e, keys) then multiset(es)[e] else 0
  {
    if es != [] {
      KeepKnownCounts(es[..|es| - 1], keys, e);
      assert es == es[..|es| - 1] + [es[|es| - 1]];
    }
  }

  lemma {:induction false} KeepKnownMembers(es: seq<Entry>, keys: seq<int>)
    ensures forall e :: e in KeepKnown(es, keys) ==> e in es && Kept(e, keys)
  {
    if es != [] {
      KeepKnownMembers(es[..|es| - 1], keys);
    }
  }

  ghost predicate KeysAscend(r: seq<Entry>) {
    && (forall i :: 0 <= i < |r| ==> r[i].key.Int?)
    && (forall i, j :: 0 <= i < j < |r| ==> r[i].key.i <= r[j].key.i)
  }

  lemma {:induction false} AscendSnoc(r: seq<Entry>, last: Entry)
    requires KeysAscend(r) && last.key.Int?
    requires forall e :: e in r ==> e.key.Int? && e.key.i <= last.key.i
    ensures KeysAscend(r + [last])
  {
  }

  lemma {:induction false} SortedPrefix(es: seq<Entry>, n: nat)
    requires n <= |es| && SortedByKey(EncodeEntries(es))
    ensures SortedByKey(EncodeEntries(es[..n]))
  {
    hide Encode, LexAtMost;
    var all, init := EncodeEntries(es), EncodeEntries(es[..n]);
    forall i, j | 0 <= i < j < n
      ensures LexAtMost(init[i].kb, init[j].kb)
    {
      assert init[i] == all[i] && init[j] == all[j];
    }
  }

  lemma {:induction false} KeepKnownOrder(es: seq<Entry>, keys: seq<int>)
    requires SortedByKey(EncodeEntries(es))
    requires forall k :: k in keys ==> 0 <= k < TWO_64
    ensures KeysAscend(KeepKnown(es, keys))
  {
    hide EncodeEntries, SortedByKey, KeysAscend;
    if es == [] {
      NothingAscends();
    } else {
      var n := |es| - 1;
      var init, last := es[..n], es[n];
      SortedPrefix(es, n);
      KeepKnownOrder(init, keys);
      var r := KeepKnown(init, keys);
      if Kept(last, keys) {
        KeepKnownMembers(init, keys);
        forall e | e in r
          ensures e.key.Int? && e.key.i <= last.key.i
        {
          BeforeLast(es, keys, e);
        }
        AscendSnoc(r, last);
      } else {
        assert KeepKnown(es, keys) == r;
      }
    }
  }

  lemma {:induction false} NothingAscends()
    ensures KeysAscend([])
  {
  }

  lemma {:induction false} BeforeLast(es: seq<Entry>, keys: seq<int>, e: Entry)
    requires es != [] && SortedByKey(EncodeEntries(es)) && e in es[..|es| - 1]
    requires Kept(e, keys) && Kept(es[|es| - 1], keys) && forall k :: k in keys ==> 0 <= k < TWO_64
    ensures e.key.i <= es[|es| - 1].key.i
  {
    hide Encode;
    var n := |es| - 1;
    var i :| 0 <= i < n && es[i] == e;
    assert LexAtMost(EncodeEntries(es)[i].kb, EncodeEntries(es)[n].kb);
    KeyOrder(e.key.i, es[n].key.i);
  }

  lemma {:induction false} KeyOrder(a: nat, b: nat)
    requires a < TWO_64 && b < TWO_64
    ensures LexAtMost(Encode(Int(a)), Encode(Int(b))) <==> a <= b
  {
    hide LexLess, Head;
    HeadOrder(0, b, a);
  }

  /**
   The received body holds exactly the entries with registered integer keys, each with its multiplicity and its
   maps in canonical order, sorted by key.
   */
  lemma {:induction false} ReceivedBody(m: Msg)
    requires KnownKeys(m.msgType).Some?
    ensures var keys := KnownKeys(m.msgType).value; var r := Received(m).body;
      && (forall e :: multiset(r)[e] == if Kept(e, keys) then multiset(CanonEach(m.body))[e] else 0)
      && KeysAscend(r)
  {
    hide Encode, KeepKnown, SortItems, SortEntries;
    var keys := KnownKeys(m.msgType).value;
    var es := SortEntries(CanonEach(m.body));
    forall e
      ensures multiset(KeepKnown(es, keys))[e] == if Kept(e, keys) then multiset(CanonEach(m.body))[e] else 0
    {
      KeepKnownCounts(es, keys, e);
      SortKeepsMembers(CanonEach(m.body));
    }
    SortCommutes(CanonEach(m.body));
    SortSorts(EncodeEntries(CanonEach(m.body)));
    SmallKeys(m.msgType);
    KeepKnownOrder(es, keys);
  }

  lemma {:induction false} SmallKeys(msgType: nat)
    ensures KnownKeys(msgType).Some? ==> forall k :: k in KnownKeys(msgType).value ==> 0 <= k < 8
  {
  }

  lemma {:induction false} KeepAll(es: seq<Entry>, keys: seq<int>)
    requires forall i :: 0 <= i < |es| ==> Kept(es[i], keys)
    ensures KeepKnown(es, keys) == es
  {
    if es != [] {
      KeepAll(es[..|es| - 1], keys);
    }
  }

  /** A body of registered keys that is already in canonical order arrives unchanged. */
  lemma {:induction false} CanonicalBodySurvives(m: Msg)
    requires Sendable(m) && KnownKeys(m.msgType).Some?
    requires Canon(Map(m.body)) == Map(m.body)
    requires forall i :: 0 <= i < |m.body| ==> Kept(m.body[i], KnownKeys(m.msgType).value)
    ensures Unframe(Frame(m.msgType, m.body)) == Ok(Message(m.msgType, m.body))
  {
    FrameRoundTrip(m);
    KeepAll(m.body, KnownKeys(m.msgType).value);
  }

  // ---------------------------------------------------------------- the whole stream

  function Stream(msgs: seq<Msg>): seq<byte> {
    if msgs == [] then [] else Frame(msgs[0].msgType, msgs[0].body) + Stream(msgs[1..])
  }

  /** What the read loop makes of a byte stream: the results in order, and how it ended. */
  datatype Session = Session(results: seq<Result<Decoded>>, end: FrameRead)

  function ReadAll(stream: seq<byte>): Session
    decreases |stream|
  {
    var t := TakeFrame(stream);
    if !t.frame.FrameBytes? then Session([], t.frame)
    else
      var more := ReadAll(t.rest);
      Session([Unframe(t.frame.bytes)] + more.results, more.end)
  }

  lemma {:induction false} TakesOwnFrame(m: Msg, rest: seq<byte>)
    requires Sendable(m)
    ensures TakeFrame(Frame(m.msgType, m.body) + rest) == Taken(FrameBytes(Frame(m.msgType, m.body)), rest)
  {
    hide Encode, BigEndian, FromBigEndian;
    var cbor := Encode(Envelope(m.msgType, m.body));
    var stream := Frame(m.msgType, m.body) + rest;
    LengthField(|cbor|);
    assert stream[..4] == BigEndian(4, |cbor|);
    assert stream[..4 + |cbor|] == Frame(m.msgType, m.body);
    assert stream[4 + |cbor|..] == rest;
  }

  /** Any list of messages, framed and concatenated, comes out as the same messages in order and a clean end. */
  lemma {:induction false} StreamSurvives(msgs: seq<Msg>)
    requires forall i :: 0 <= i < |msgs| ==> Sendable(msgs[i])
    ensures var s := ReadAll(Stream(msgs));
      && s.end == Eof && |s.results| == |msgs|
      && forall i :: 0 <= i < |msgs| ==> s.results[i] == Ok(Received(msgs[i]))
  {
    hide Encode, Unframe, TakeFrame, Frame, Received;
    if msgs != [] {
      var rest := Stream(msgs[1..]);
      TakesOwnFrame(msgs[0], rest);
      FrameRoundTrip(msgs[0]);
      StreamSurvives(msgs[1..]);
    } else {
      EmptyStreamEnds();
    }
  }

  lemma {:induction false} EmptyStreamEnds()
    ensures TakeFrame([]) == Taken(Eof, [])
  {
  }

  lemma {:induction false} CutFrame(m: Msg, k: nat)
    requires Sendable(m) && k < |Frame(m.msgType, m.body)|
    ensures TakeFrame(Frame(m.msgType, m.body)[..k]) == Taken(if k == 0 then Eof else Broken, [])
  {
    hide Encode, BigEndian, FromBigEndian;
    var cbor := Encode(Envelope(m.msgType, m.body));
    var cut := Frame(m.msgType, m.body)[..k];
    LengthField(|cbor|);
    assert k >= 4 ==> cut[..4] == BigEndian(4, |cbor|);
  }

  /**
   A stream that stops short: the whole frames are read, and the end is clean exactly when it falls between two frames.
   */
  lemma {:induction false} CutShows(msgs: seq<Msg>, m: Msg, k: nat)
    requires (forall i :: 0 <= i < |msgs| ==> Sendable(msgs[i])) && Sendable(m) && k < |Frame(m.msgType, m.body)|
    ensures var s := ReadAll(Stream(msgs) + Frame(m.msgType, m.body)[..k]);
      && s.end == (if k == 0 then Eof else Broken) && |s.results| == |msgs|
      && forall i :: 0 <= i < |msgs| ==> s.results[i] == Ok(Received(msgs[i]))
  {
    hide Encode, Unframe, TakeFrame, Frame, Received, Sendable;
    var cut := Frame(m.msgType, m.body)[..k];
    if msgs == [] {
      CutFrame(m, k);
      assert [] + cut == cut;
    } else {
      var first, rest := Frame(msgs[0].msgType, msgs[0].body), Stream(msgs[1..]);
      assert Stream(msgs) + cut == first + (rest + cut);
      TakesOwnFrame(msgs[0], rest + cut);
      OwnFrameReads(msgs[0]);
      CutShows(msgs[1..], m, k);
    }
  }

  lemma {:induction false} OwnFrameReads(m: Msg)
    requires Sendable(m)
    ensures Unframe(Frame(m.msgType, m.body)) == Ok(Received(m))
  {
    hide Unframe, Received, Frame;
    FrameRoundTrip(m);
  }
}
