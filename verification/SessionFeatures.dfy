/** Multi-display negotiation: what WELCOME, CONFIG and the media start tell the client, and that they agree. */
module SessionFeatures {
  import opened Basics
  import opened Cbor
  import opened Control
  import opened Session
  import opened SessionTrace

  /** The first array under `key`. */
  function ArrayKey(body: seq<Entry>, key: int): Option<seq<Value>> {
    if body == [] then None
    else if body[0].key == Int(key) && body[0].val.Array? then Some(body[0].val.items)
    else ArrayKey(body[1..], key)
  }

  predicate PairIs(body: seq<Entry>, key: int, a: int, b: int) {
    PairElem(body, key, 0) == Some(a) && PairElem(body, key, 1) == Some(b)
  }

  /** One extra stream as a client reads it. */
  predicate DescribesStream(v: Value, c: StreamConfig) {
    && v.Map?
    && IntKey(v.entries, 0) == Some(c.streamId)
    && PairIs(v.entries, 1, c.params.width, c.params.height)
    && IntKey(v.entries, 2) == Some(c.params.refresh)
    && IntKey(v.entries, 3) == Some(c.params.bitrateKbps)
    && PairIs(v.entries, 4, c.x, c.y)
  }

  predicate DescribesStreams(vs: seq<Value>, cs: seq<StreamConfig>) {
    |vs| == |cs| && forall i :: 0 <= i < |vs| ==> DescribesStream(vs[i], cs[i])
  }

  lemma {:induction false} IntKeyAt(body: seq<Entry>, i: nat)
    requires i < |body| && body[i].key.Int? && forall j :: 0 <= j < i ==> body[j].key != body[i].key
    ensures body[i].val.Int? ==> IntKey(body, body[i].key.i) == Some(body[i].val.i)
    ensures body[i].val.Float? ==> FloatKey(body, body[i].key.i) == Some(body[i].val.ieee)
    ensures body[i].val.Array? ==> forall n: nat :: n < |body[i].val.items| && body[i].val.items[n].Int? ==>
      PairElem(body, body[i].key.i, n) == Some(body[i].val.items[n].i)
  {
    if i > 0 {
      assert body[0].key != body[i].key;
      forall j | 0 <= j < i - 1
        ensures body[1..][j].key != body[i].key
      {
        assert body[j + 1].key != body[i].key;
      }
      IntKeyAt(body[1..], i - 1);
    }
  }

  lemma {:induction false} StreamReadsBack(c: StreamConfig)
    ensures DescribesStream(StreamEntry(c), c)
  {
    hide IntKey, PairElem;
    var b := StreamEntry(c).entries;
    IntKeyAt(b, 0);
    IntKeyAt(b, 1);
    IntKeyAt(b, 2);
    IntKeyAt(b, 3);
    IntKeyAt(b, 4);
    assert b[1].val.items[0].Int? && b[1].val.items[1].Int? && b[4].val.items[0].Int? && b[4].val.items[1].Int?;
  }

  /** What an output tells the client about multi-display, for a session in which it is `multi`. */
  predicate Announces(o: Output, s: State) {
    match o
    case Send(t, body) =>
      && (t == WELCOME ==>
          IntKey(body, 0) == Some(PROTOCOL_VERSION)
          && IntKey(body, 3) == if s.multiActive then Some(FEATURE_MULTI_DISPLAY) else None)
      && (t == CONFIG ==>
          if s.multiActive then ArrayKey(body, 6).Some? && DescribesStreams(ArrayKey(body, 6).value, s.extraStreams)
          else ArrayKey(body, 6).None?)
    case StartMedia(multi) => multi == s.multiActive
    case _ => true
  }

  predicate Silent(o: Output) {
    !o.StartMedia? && (o.Send? ==> o.msgType != WELCOME && o.msgType != CONFIG)
  }

  lemma {:induction false} WelcomeAnnounces(s: State)
    ensures Announces(Send(WELCOME, WelcomeBody(s)), s)
  {
    var b := WelcomeBody(s);
    assert b[1..][1..] == b[2..] && b[2..][1..] == b[3..];
    assert IntKey(b, 3) == IntKey(b[1..], 3) == IntKey(b[2..], 3) == IntKey(b[3..], 3);
    if s.multiActive {
      assert b[3..] == [Entry(Int(3), Int(FEATURE_MULTI_DISPLAY))];
    } else {
      assert b[3..] == [];
    }
  }

  lemma {:induction false} ConfigAnnounces(s: State)
    ensures Announces(Send(CONFIG, ConfigBody(s)), s)
  {
    hide StreamEntry, DescribesStream;
    var b := ConfigBody(s);
    assert b[1..][1..] == b[2..] && b[2..][1..] == b[3..] && b[3..][1..] == b[4..];
    assert b[4..][1..] == b[5..] && b[5..][1..] == b[6..];
    assert ArrayKey(b, 6) == ArrayKey(b[1..], 6) == ArrayKey(b[2..], 6) == ArrayKey(b[3..], 6);
    assert ArrayKey(b[3..], 6) == ArrayKey(b[4..], 6) == ArrayKey(b[5..], 6) == ArrayKey(b[6..], 6);
    if s.multiActive {
      var vs := ArrayKey(b, 6).value;
      forall i | 0 <= i < |s.extraStreams|
        ensures DescribesStream(vs[i], s.extraStreams[i])
      {
        StreamReadsBack(s.extraStreams[i]);
      }
    } else {
      assert b[6..] == [];
    }
  }

  lemma {:induction false} SilentAnnounces(o: Output, s: State)
    requires Silent(o)
    ensures Announces(o, s)
  {
  }

  lemma {:induction false} SameAnnounces(o: Output, s: State, t: State)
    requires Announces(o, s) && t.multiActive == s.multiActive && t.extraStreams == s.extraStreams
    ensures Announces(o, t)
  {
    hide ArrayKey, IntKey, DescribesStreams;
  }

  /** What one step may announce, and that the decision never changes after HELLO. */
  predicate AnnouncesStep(s: State, e: Effect) {
    && e.state.extraStreams == s.extraStreams
    && (s.phase != WaitHello ==> e.state.phase != WaitHello && e.state.multiActive == s.multiActive)
    && forall o :: o in e.outputs ==>
        if s.phase == WaitHello && e.state.phase != WaitConfigAck then Silent(o) else Announces(o, e.state)
  }

  lemma {:induction false} HelloAnnounces(s: State, msgType: nat, body: seq<Entry>)
    requires s.phase == WaitHello
    ensures AnnouncesStep(s, OnHello(s, msgType, body))
  {
    hide Detail, ErrorBody, ConfigBody, WelcomeBody, IntKey, PairElem, OffersCodec, AsU64, ArrayKey, DescribesStreams;
    var e := OnHello(s, msgType, body);
    WelcomeAnnounces(e.state);
    ConfigAnnounces(e.state);
  }

  lemma {:induction false} StepAnnounces(s: State, d: Decoded)
    ensures AnnouncesStep(s, OnFrame(s, d))
  {
    hide Detail, ErrorBody, ConfigBody, IntKey, PairElem, ClampDim, ReadStats, AsU64, AsI64, ArrayKey, OnHello, DescribesStreams;
    if s.phase == WaitHello && d.Message? {
      HelloAnnounces(s, d.msgType, d.body);
    }
    ConfigAnnounces(OnFrame(s, d).state);
  }

  predicate AllAnnounce(batches: seq<seq<Output>>, s: State) {
    forall i, o :: 0 <= i < |batches| && o in batches[i] ==>
      if s.phase == WaitHello then Silent(o) else Announces(o, s)
  }

  /**
   In every session the pieces of the multi-display negotiation agree: WELCOME carries the feature bit exactly when
   every CONFIG lists the extra streams, each as configured, and exactly when the media is started for all streams.
   */
  lemma {:induction false} FeaturesAgree(s: State, inputs: seq<Decoded>)
    requires s.phase == WaitHello
    ensures AllAnnounce(Batches(s, inputs), After(s, inputs)) && After(s, inputs).extraStreams == s.extraStreams
    decreases |inputs|
  {
    hide OnFrame, Announces, Silent;
    if inputs != [] {
      var init, d := inputs[..|inputs| - 1], inputs[|inputs| - 1];
      FeaturesAgree(s, init);
      var s1 := After(s, init);
      var b, b1 := Batches(s, inputs), Batches(s, init);
      var e := OnFrame(s1, d);
      StepAnnounces(s1, d);
      forall i, o | 0 <= i < |b| && o in b[i]
        ensures if e.state.phase == WaitHello then Silent(o) else Announces(o, e.state)
      {
        AnnounceStays(s1, e, o, i < |b1|) by {
          assert i < |b1| ==> b[i] == b1[i];
        }
      }
    }
  }

  lemma {:induction false} AnnounceStays(s: State, e: Effect, o: Output, earlier: bool)
    requires e.state.extraStreams == s.extraStreams
    requires s.phase != WaitHello ==> e.state.phase != WaitHello && e.state.multiActive == s.multiActive
    requires earlier ==> if s.phase == WaitHello then Silent(o) else Announces(o, s)
    requires !earlier ==> if s.phase == WaitHello && e.state.phase != WaitConfigAck then Silent(o) else Announces(o, e.state)
    ensures if e.state.phase == WaitHello then Silent(o) else Announces(o, e.state)
  {
    hide Announces, Silent;
    if earlier && s.phase != WaitHello {
      SameAnnounces(o, s, e.state);
    } else if Silent(o) {
      SilentAnnounces(o, e.state);
    }
  }

  // ---------------------------------------------------------------- STATS

  predicate InI64(x: int) {
    -TWO_64 / 2 <= x < TWO_64 / 2
  }

  predicate StatsInRange(r: StatsReport) {
    && InI64(r.framesReceived) && InI64(r.framesDropped) && InI64(r.datagrams) && InI64(r.decodeUs) && InI64(r.rttUs)
    && (r.e2eUs.Some? ==> InI64(r.e2eUs.value)) && r.jitter.Some?
  }

  /** A STATS body as a client writes it; the end-to-end latency is left out until it is known. */
  function StatsBody(r: StatsReport): seq<Entry>
    requires r.jitter.Some?
  {
    [Entry(Int(0), Int(r.framesReceived)), Entry(Int(1), Int(r.framesDropped)), Entry(Int(2), Int(r.datagrams)),
     Entry(Int(3), Float(r.jitter.value)), Entry(Int(4), Int(r.decodeUs)), Entry(Int(5), Int(r.rttUs))]
    + (if r.e2eUs.Some? then [Entry(Int(6), Int(r.e2eUs.value))] else [])
    + [Entry(Int(7), Int(r.streamId))]
  }

  lemma {:induction false} NoIntKey(body: seq<Entry>, k: int)
    requires forall j :: 0 <= j < |body| ==> body[j].key != Int(k)
    ensures IntKey(body, k) == None
  {
    if body != [] {
      assert body[0].key != Int(k);
      forall j | 0 <= j < |body[1..]|
        ensures body[1..][j].key != Int(k)
      {
        assert body[j + 1].key != Int(k);
      }
      NoIntKey(body[1..], k);
    }
  }

  lemma {:induction false} CastKeeps(x: int)
    requires InI64(x)
    ensures AsI64(x) == x
  {
    Remainder(x + TWO_64 / 2, TWO_64, 0, x + TWO_64 / 2);
  }

  /** The host's STATS parser inverts the client's body, field by field, for every report of 64-bit values. */
  lemma {:induction false} StatsReadBack(r: StatsReport)
    requires StatsInRange(r)
    ensures ReadStats(StatsBody(r)) == r
  {
    hide IntKey, FloatKey, AsI64;
    var b := StatsBody(r);
    IntKeyAt(b, 0);
    IntKeyAt(b, 1);
    IntKeyAt(b, 2);
    IntKeyAt(b, 3);
    IntKeyAt(b, 4);
    IntKeyAt(b, 5);
    IntKeyAt(b, |b| - 1);
    if r.e2eUs.Some? {
      IntKeyAt(b, 6);
      CastKeeps(r.e2eUs.value);
    } else {
      NoIntKey(b, 6);
    }
    CastKeeps(r.framesReceived);
    CastKeeps(r.framesDropped);
    CastKeeps(r.datagrams);
    CastKeeps(r.decodeUs);
    CastKeeps(r.rttUs);
    Remainder(r.streamId, TWO_16, 0, r.streamId);
  }
}
