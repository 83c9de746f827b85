/**
 The protocol as a peer sees it, by its numbers: what the host does with each message type in each phase, and what a
 client reads, under every key, from the WELCOME, CONFIG and ERROR that reach it over the control stream.
 */
module ClientView {
  import opened Basics
  import opened Cbor
  import opened CborReading
  import opened CborRepeats
  import opened Control
  import opened ControlStream
  import opened Session
  import opened SessionFeatures
  import opened T = SessionTransport
  import opened Connection

  // ---------------------------------------------------------------- bodies by key

  lemma {:induction false} NoneUnder(es: seq<Entry>, key: Value)
    requires forall j :: 0 <= j < |es| ==> es[j].key != key
    ensures Under(es, key) == []
  {
    if es != [] {
      assert es[0].key != key && forall j :: 0 <= j < |es[1..]| ==> es[1..][j] == es[j + 1];
      NoneUnder(es[1..], key);
    }
  }

  lemma {:induction false} OnlyUnder(es: seq<Entry>, i: nat)
    requires i < |es| && forall j :: 0 <= j < |es| && j != i ==> es[j].key != es[i].key
    ensures Under(es, es[i].key) == [es[i].val]
  {
    var a, b := es[..i], es[i + 1..];
    assert es == a + [es[i]] + b;
    NoneUnder(a, es[i].key);
    NoneUnder(b, es[i].key);
    UnderOne(es[i], es[i].key);
    UnderSplit(a + [es[i]], b, es[i].key);
    UnderSplit(a, [es[i]], es[i].key);
  }

  lemma {:induction false} OneCanon(v: Value)
    ensures CanonAll([]) == [] && CanonAll([v]) == [Canon(v)]
  {
    assert [v][1..] == [];
  }

  /** What arrives under a registered key that is given once, or not at all. */
  lemma {:induction false} ArrivesUnder(m: Msg, i: nat, k: int)
    requires KnownKeys(m.msgType).Some? && k in KnownKeys(m.msgType).value
    requires i < |m.body| ==> m.body[i].key == Int(k)
    requires forall j :: 0 <= j < |m.body| && j != i ==> m.body[j].key != Int(k)
    ensures Received(m).Message? && Received(m).msgType == m.msgType
    ensures Under(Received(m).body, Int(k)) == if i < |m.body| then [Canon(m.body[i].val)] else []
  {
    hide Under, KeepKnown, SortEntries, CanonEach, Canon;
    ReceivedUnder(m, k);
    if i < |m.body| {
      OnlyUnder(m.body, i);
      OneCanon(m.body[i].val);
    } else {
      NoneUnder(m.body, Int(k));
      OneCanon(Null);
    }
  }

  lemma {:induction false} CanonPair(a: int, b: int)
    ensures Canon(Array([Int(a), Int(b)])) == Array([Int(a), Int(b)])
  {
    assert [Int(a), Int(b)][1..] == [Int(b)] && [Int(b)][1..] == [];
    assert CanonAll([Int(b)]) == [Int(b)] && CanonAll([Int(a), Int(b)]) == [Int(a)] + CanonAll([Int(b)]);
  }

  /** WELCOME: version 1, the host's name, the session id, and feature bit 1 only with extra streams active. */
  lemma {:induction false} ClientReadsWelcome(s: State)
    ensures
      var d := Received(Msg(0x02, WelcomeBody(s)));
      && d.Message? && d.msgType == 0x02
      && Under(d.body, Int(0)) == [Int(1)] && Under(d.body, Int(1)) == [Text(s.hostName)]
      && Under(d.body, Int(2)) == [Bytes(s.sessionId)]
      && Under(d.body, Int(3)) == if s.multiActive then [Int(2)] else []
  {
    hide Under, Received;
    var m := Msg(0x02, WelcomeBody(s));
    ArrivesUnder(m, 0, 0);
    ArrivesUnder(m, 1, 1);
    ArrivesUnder(m, 2, 2);
    ArrivesUnder(m, 3, 3);
  }

  lemma {:induction false} StreamArrives(c: StreamConfig)
    ensures DescribesStream(Canon(StreamEntry(c)), c)
  {
    hide IntKey, PairElem, Under, SortEntries, CanonEach, CanonAll;
    StreamReadsBack(c);
    var es := StreamEntry(c).entries;
    var r := SortEntries(CanonEach(es));
    forall k: int | 0 <= k <= 4
      ensures IntKey(r, k) == IntKey(es, k)
      ensures PairElem(r, k, 0) == PairElem(es, k, 0) && PairElem(r, k, 1) == PairElem(es, k, 1)
    {
      SortUnder(CanonEach(es), Int(k));
      T.CanonUnder(es, k);
      SameLookups(r, es, k);
    }
  }

  lemma {:induction false} SameLookups(r: seq<Entry>, es: seq<Entry>, k: int)
    requires Under(r, Int(k)) == CanonAll(Under(es, Int(k)))
    ensures IntKey(r, k) == IntKey(es, k)
    ensures PairElem(r, k, 0) == PairElem(es, k, 0) && PairElem(r, k, 1) == PairElem(es, k, 1)
  {
    hide IntKey, PairElem, FloatKey, Under, CanonAll, FirstInt, FirstElem, FirstFloat;
    LookupsSeeUnder(r, k, 0);
    LookupsSeeUnder(r, k, 1);
    LookupsSeeUnder(es, k, 0);
    LookupsSeeUnder(es, k, 1);
    CanonLookups(Under(es, Int(k)), 0);
    CanonLookups(Under(es, Int(k)), 1);
  }

  lemma {:induction false} StreamsArrive(s: State)
    ensures
      var vs := seq(|s.extraStreams|, i requires 0 <= i < |s.extraStreams| => StreamEntry(s.extraStreams[i]));
      Canon(Array(vs)).Array? && DescribesStreams(Canon(Array(vs)).items, s.extraStreams)
  {
    hide StreamEntry, DescribesStream;
    var vs := seq(|s.extraStreams|, i requires 0 <= i < |s.extraStreams| => StreamEntry(s.extraStreams[i]));
    CanonEvery(vs);
    forall i | 0 <= i < |vs|
      ensures DescribesStream(CanonAll(vs)[i], s.extraStreams[i])
    {
      StreamArrives(s.extraStreams[i]);
    }
  }

  lemma {:induction false} CanonEvery(vs: seq<Value>)
    ensures |CanonAll(vs)| == |vs| && forall i :: 0 <= i < |vs| ==> CanonAll(vs)[i] == Canon(vs[i])
  {
    hide Canon;
    if vs != [] {
      CanonEvery(vs[1..]);
    }
  }

  lemma {:induction false} ConfigStreamsArrive(s: State)
    ensures
      var extras := Under(Received(Msg(0x03, ConfigBody(s))).body, Int(6));
      if s.multiActive then |extras| == 1 && extras[0].Array? && DescribesStreams(extras[0].items, s.extraStreams)
      else extras == []
  {
    hide Under, Received, StreamEntry, DescribesStreams;
    ArrivesUnder(Msg(0x03, ConfigBody(s)), 6, 6);
    StreamsArrive(s);
  }

  /** The entries of a CONFIG before the streams. */
  lemma {:induction false} ConfigEntries(s: State)
    ensures var b := ConfigBody(s);
      && |b| >= 6 && b[0].val == Int(s.generation) && b[1].val == Int(s.params.codec)
      && b[2].val == Array([Int(s.params.width), Int(s.params.height)])
      && b[3].val == Int(s.params.refresh) && b[4].val == Int(s.params.audio) && b[5].val == Int(s.params.bitrateKbps)
      && forall j :: 0 <= j < |b| ==> b[j].key == Int(j)
  {
    hide StreamEntry;
  }

  /** CONFIG: generation, codec, size, refresh, audio, bitrate, and the extra streams exactly when they are active. */
  lemma {:induction false} ClientReadsConfig(s: State)
    ensures
      var d := Received(Msg(0x03, ConfigBody(s)));
      && d.Message? && d.msgType == 0x03
      && Under(d.body, Int(0)) == [Int(s.generation)] && Under(d.body, Int(1)) == [Int(s.params.codec)]
      && Under(d.body, Int(2)) == [Array([Int(s.params.width), Int(s.params.height)])]
      && Under(d.body, Int(3)) == [Int(s.params.refresh)] && Under(d.body, Int(4)) == [Int(s.params.audio)]
      && Under(d.body, Int(5)) == [Int(s.params.bitrateKbps)]
      && var extras := Under(d.body, Int(6));
         if s.multiActive then |extras| == 1 && extras[0].Array? && DescribesStreams(extras[0].items, s.extraStreams)
         else extras == []
  {
    hide Under, Received, DescribesStreams, ConfigBody;
    var m := Msg(0x03, ConfigBody(s));
    ConfigEntries(s);
    ArrivesUnder(m, 0, 0);
    ArrivesUnder(m, 1, 1);
    ArrivesUnder(m, 2, 2);
    ArrivesUnder(m, 3, 3);
    ArrivesUnder(m, 4, 4);
    ArrivesUnder(m, 5, 5);
    CanonPair(s.params.width, s.params.height);
    ConfigStreamsArrive(s);
  }

  /** ERROR: the code and a text. */
  lemma {:induction false} ClientReadsError(code: nat, detail: seq<byte>)
    ensures
      var d := Received(Msg(0x40, ErrorBody(code, detail)));
      && d.Message? && d.msgType == 0x40
      && Under(d.body, Int(0)) == [Int(code)] && Under(d.body, Int(1)) == [Text(detail)]
  {
    hide Under, Received;
    var m := Msg(0x40, ErrorBody(code, detail));
    ArrivesUnder(m, 0, 0);
    ArrivesUnder(m, 1, 1);
  }

  /** A frame the host cannot read is answered by error 4. */
  lemma {:induction false} ClientReadsBadFrame()
    ensures
      var d := Received(Msg(0x40, BadFrameBody()));
      && d.Message? && d.msgType == 0x40
      && Under(d.body, Int(0)) == [Int(4)] && Under(d.body, Int(1)) == [Text(Ascii("PROTOCOL_VIOLATION"))]
  {
    hide Under, Received;
    var m := Msg(0x40, BadFrameBody());
    ArrivesUnder(m, 0, 0);
    ArrivesUnder(m, 1, 1);
  }

  /** CLOCK_PONG: the client's own time stamp back, then the host's clock twice. */
  lemma {:induction false} ClientReadsPong(t0: int, now: int)
    ensures
      var d := Received(Msg(0x31, PongBody(t0, now)));
      && d.Message? && d.msgType == 0x31
      && Under(d.body, Int(0)) == [Int(t0)] && Under(d.body, Int(1)) == [Int(now)] && Under(d.body, Int(2)) == [Int(now)]
  {
    hide Under, Received;
    var m := Msg(0x31, PongBody(t0, now));
    ArrivesUnder(m, 0, 0);
    ArrivesUnder(m, 1, 1);
    ArrivesUnder(m, 2, 2);
  }

  /** What goes out for each output, and with which code the connection is closed. */
  lemma {:induction false} DrivenByNumber(cfg: HostCfg, w: Wire, o: Output, now: int)
    requires cfg.streams != [] && w.closed.None?
    ensures
      var w' := DriveOne(cfg, w, o, now);
      && w'.closed == (if o.Close? then Some(o.code) else None)
      && w'.sent == w.sent +
          if o.Send? then Frame(o.msgType, o.body)
          else if o.ClockPong? then
            Frame(0x31, [Entry(Int(0), Int(o.t0)), Entry(Int(1), Int(now)), Entry(Int(2), Int(now))])
          else []
  {
    hide Frame, FindStream, Spawned;
  }

  /** Two ways the loop ends on its own: code 0 when nothing is left to read, an ERROR and code 4 on a bad frame. */
  lemma {:induction false} EndsByNumber(cfg: HostCfg, s: State, w: Wire, stream: seq<byte>, clock: nat -> int, from: nat)
    requires cfg.streams != []
    ensures stream == [] ==> Serve(cfg, s, w, stream, clock, from) == Served(s, w.(closed := Some(0)), false)
    ensures
      var t := TakeFrame(stream);
      t.frame.FrameBytes? && Unframe(t.frame.bytes) == ProtocolViolation ==>
        Serve(cfg, s, w, stream, clock, from)
          == Served(s, w.(sent := w.sent + Frame(0x40, BadFrameBody()), closed := Some(4)), false)
  {
    hide Frame, Unframe, OnFrame, DriveAll, BadFrameBody;
  }

  // ---------------------------------------------------------------- lookups by position

  /** The first integer under the key, whatever else stands under the same key before it. */
  lemma {:induction false} IntLookup(body: seq<Entry>, key: int, i: nat)
    requires i <= |body| && forall j :: 0 <= j < i ==> body[j].key != Int(key) || !body[j].val.Int?
    ensures i == |body| ==> IntKey(body, key) == None
    ensures i < |body| && body[i].key == Int(key) && body[i].val.Int? ==> IntKey(body, key) == Some(body[i].val.i)
  {
    if i > 0 {
      assert body[0].key != Int(key) || !body[0].val.Int?;
      assert forall j :: 0 <= j < i - 1 ==> body[1..][j] == body[j + 1];
      IntLookup(body[1..], key, i - 1);
    }
  }

  lemma {:induction false} FloatLookup(body: seq<Entry>, key: int, i: nat)
    requires i <= |body| && forall j :: 0 <= j < i ==> body[j].key != Int(key) || !body[j].val.Float?
    ensures i == |body| ==> FloatKey(body, key) == None
    ensures i < |body| && body[i].key == Int(key) && body[i].val.Float? ==> FloatKey(body, key) == Some(body[i].val.ieee)
  {
    if i > 0 {
      assert body[0].key != Int(key) || !body[0].val.Float?;
      assert forall j :: 0 <= j < i - 1 ==> body[1..][j] == body[j + 1];
      FloatLookup(body[1..], key, i - 1);
    }
  }

  predicate IntAt(v: Value, idx: nat) {
    v.Array? && idx < |v.items| && v.items[idx].Int?
  }

  /** The same for the integer at a place of an array: arrays too short, or with something else there, are passed over. */
  lemma {:induction false} PairLookup(body: seq<Entry>, key: int, idx: nat, i: nat)
    requires i <= |body| && forall j :: 0 <= j < i ==> body[j].key != Int(key) || !IntAt(body[j].val, idx)
    ensures i == |body| ==> PairElem(body, key, idx) == None
    ensures i < |body| && body[i].key == Int(key) && IntAt(body[i].val, idx) ==>
      PairElem(body, key, idx) == Some(body[i].val.items[idx].i)
  {
    if i > 0 {
      assert body[0].key != Int(key) || !IntAt(body[0].val, idx);
      assert forall j :: 0 <= j < i - 1 ==> body[1..][j] == body[j + 1];
      PairLookup(body[1..], key, idx, i - 1);
    }
  }

  /** The narrowing casts: each keeps the values of its own range, and anything else wraps into it. */
  lemma {:induction false} CastsWrap(i: int, u: u64, w: u16, k: int)
    requires -0x8000_0000_0000_0000 <= i < 0x8000_0000_0000_0000
    ensures AsI64(i + k * 0x1_0000_0000_0000_0000) == i
    ensures AsU64(u + k * 0x1_0000_0000_0000_0000) == u && AsU16(w + k * 0x1_0000) == w
  {
    var half := 0x8000_0000_0000_0000;
    Remainder(i + k * TWO_64 + half, TWO_64, k, i + half);
    Remainder(u + k * TWO_64, TWO_64, k, u);
    Remainder(w + k * TWO_16, TWO_16, k, w);
  }

  /** A STATS field that is missing, or not of its type, reads as 0; a missing time or jitter as none. */
  lemma {:induction false} MissingStats(body: seq<Entry>)
    ensures
      var r := ReadStats(body);
      && (IntKey(body, 0).None? ==> r.framesReceived == 0) && (IntKey(body, 1).None? ==> r.framesDropped == 0)
      && (IntKey(body, 2).None? ==> r.datagrams == 0) && (FloatKey(body, 3).None? <==> r.jitter.None?)
      && (IntKey(body, 4).None? ==> r.decodeUs == 0) && (IntKey(body, 5).None? ==> r.rttUs == 0)
      && (IntKey(body, 6).None? <==> r.e2eUs.None?) && (IntKey(body, 7).None? ==> r.streamId == 0)
  {
    hide IntKey, FloatKey;
    CastsWrap(0, 0, 0, 0);
  }

  // ---------------------------------------------------------------- the session by number

  /** An ERROR with the code and text, then a close with the same code. */
  predicate Refuses(s: State, e: Effect, code: nat, text: string) {
    && e.state == s.(phase := Closed) && |e.outputs| == 2 && e.outputs[1] == Close(code)
    && e.outputs[0] == Send(0x40, [Entry(Int(0), Int(code)), Entry(Int(1), Text(Ascii(text)))])
  }

  predicate Violates(s: State, e: Effect) {
    Refuses(s, e, 4, "unexpected message for state")
  }

  /** In every phase but the last: BYE closes with code 0, and a ping is answered. */
  lemma {:induction false} AnyPhaseByNumber(s: State, body: seq<Entry>)
    requires s.phase != Closed
    ensures OnFrame(s, Message(0x41, body)) == Effect(s.(phase := Closed), [Close(0)])
    ensures OnFrame(s, Message(0x30, body)) == Effect(s, [ClockPong(AsI64(GetOr(IntKey(body, 0), 0)))])
    ensures OnFrame(s, Ignored) == Effect(s, [])
  {
    hide IntKey, AsI64;
  }

  predicate Offers1(body: seq<Entry>) {
    exists i :: 0 <= i < |body| && body[i].key == Int(2) && body[i].val.Array? && Int(1) in body[i].val.items
  }

  /** HELLO: version 1 is checked before the codec; key 3 sets the limits, bit 1 of key 5 asks for the extra streams. */
  lemma {:induction false} HelloByNumber(s: State, body: seq<Entry>)
    requires s.phase == WaitHello
    ensures
      var e := OnFrame(s, Message(0x01, body));
      if IntKey(body, 0) != Some(1) then Refuses(s, e, 1, "unsupported protocol_version")
      else if !Offers1(body) then Refuses(s, e, 3, "no common codec (host: HEVC)")
      else
        var w, h := PairElem(body, 3, 0), PairElem(body, 3, 1);
        && e.state == s.(
             clientMaxWidth := if w.Some? && h.Some? then w.value % TWO_64 else s.clientMaxWidth,
             clientMaxHeight := if w.Some? && h.Some? then h.value % TWO_64 else s.clientMaxHeight,
             multiActive := s.extraStreams != [] && GetOr(IntKey(body, 5), 0) % 4 >= 2,
             generation := 1, phase := WaitConfigAck)
        && e.outputs == [Send(0x02, WelcomeBody(e.state)), Send(0x03, ConfigBody(e.state))]
  {
    hide IntKey, PairElem, WelcomeBody, ConfigBody;
    FeatureBit(GetOr(IntKey(body, 5), 0));
    assert OffersCodec(body, 1) <==> Offers1(body);
  }

  /** The cast to 64 bits keeps bit 1. */
  lemma {:induction false} FeatureBit(x: int)
    ensures AsU64(x) / 2 % 2 == 1 <==> x % 4 >= 2
  {
    var q, r := x / TWO_64, x % TWO_64;
    assert x == 4 * (q * (TWO_64 / 4)) + r;
    Remainder(x, 4, q * (TWO_64 / 4) + r / 4, r % 4);
  }

  lemma {:induction false} OtherFirstMessage(s: State, t: nat, body: seq<Entry>)
    requires s.phase == WaitHello && t != 0x01 && t != 0x41 && t != 0x30
    ensures Violates(s, OnFrame(s, Message(t, body)))
  {
  }

  /** The first CONFIG_ACK must carry the generation; it is answered by START, and the media starts. */
  lemma {:induction false} AckByNumber(s: State, t: nat, body: seq<Entry>)
    requires s.phase == WaitConfigAck && t != 0x41 && t != 0x30
    ensures
      var e := OnFrame(s, Message(t, body));
      if t == 0x04 && IntKey(body, 0) == Some(s.generation)
      then e == Effect(s.(phase := Streaming), [Send(0x05, []), StartMedia(s.multiActive)])
      else Violates(s, e)
  {
    hide IntKey;
  }

  /** While streaming. VIEWPORT, 0x22, is the business of `SessionLimits.ViewportIsAnswered`. */
  lemma {:induction false} StreamingByNumber(s: State, t: nat, body: seq<Entry>)
    requires s.phase == Streaming && t != 0x41 && t != 0x30 && t != 0x22
    ensures
      var e := OnFrame(s, Message(t, body));
      if t == 0x10 then e == Effect(s, [])
      else if t == 0x20 then e == Effect(s, [RequestIdr(GetOr(IntKey(body, 1), 0) % TWO_16)])
      else if t == 0x21 then e == Effect(s, [Stats(ReadStats(body))])
      else if t == 0x04 && s.pending.Some? && IntKey(body, 0) == Some(s.pending.value)
      then e == Effect(s.(pending := None), [Reconfigure(s.params)])
      else Violates(s, e)
  {
    hide IntKey, ReadStats;
  }
}
