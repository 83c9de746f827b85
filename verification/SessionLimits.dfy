/** The client's own size limits over whole sessions: exactly which limits the host never exceeds. */
module SessionLimits {
  import opened Basics
  import opened Cbor
  import opened Control
  import opened Session
  import opened SessionTrace

  /** Every CONFIG in the batch reads back as a size within the limits. */
  predicate Within(b: seq<Output>, width: nat, height: nat) {
    forall o :: o in b && o.Send? && o.msgType == CONFIG ==>
      && PairElem(o.body, 2, 0).Some? && PairElem(o.body, 2, 0).value <= width
      && PairElem(o.body, 2, 1).Some? && PairElem(o.body, 2, 1).value <= height
  }

  predicate AllWithin(s: State, inputs: seq<Decoded>, width: nat, height: nat) {
    forall i :: 0 <= i < |inputs| ==> Within(Batches(s, inputs)[i], width, height)
  }

  predicate IsFloor(p: MediaParams) {
    p.width == MIN_DIM && p.height == MIN_DIM
  }

  /** Both limits reach the floor, or the only size they can be clamped to is the one the session started with. */
  predicate Respectable(width: nat, height: nat, first: MediaParams) {
    (width >= MIN_DIM && height >= MIN_DIM) || (width < MIN_DIM + 2 && height < MIN_DIM + 2 && IsFloor(first))
  }

  lemma {:induction false} ClampRespects(x: u64, hostMax: nat, clientMax: u64)
    requires MIN_DIM + 2 <= hostMax
    ensures clientMax >= MIN_DIM ==> ClampDim(x, hostMax, clientMax) <= clientMax
    ensures clientMax < MIN_DIM + 2 ==> ClampDim(x, hostMax, clientMax) == MIN_DIM
  {
  }

  lemma {:induction false} ViewportRespects(s: State, body: seq<Entry>)
    requires Respectable(s.clientMaxWidth, s.clientMaxHeight, s.params)
    ensures var e := OnViewport(s, body);
      && Respectable(e.state.clientMaxWidth, e.state.clientMaxHeight, e.state.params)
      && Within(e.outputs, s.clientMaxWidth, s.clientMaxHeight)
  {
    hide ClampDim, ConfigBody;
    var rw, rh := PairElem(body, 0, 0), PairElem(body, 0, 1);
    if rw.Some? && rh.Some? {
      ClampRespects(AsU64(rw.value), HOST_MAX_WIDTH, s.clientMaxWidth);
      ClampRespects(AsU64(rh.value), HOST_MAX_HEIGHT, s.clientMaxHeight);
      ConfigReadsBack(OnViewport(s, body).state);
    }
  }

  lemma {:induction false} StepRespects(s: State, d: Decoded)
    requires s.phase != WaitHello && Respectable(s.clientMaxWidth, s.clientMaxHeight, s.params)
    ensures var e := OnFrame(s, d);
      && e.state.phase != WaitHello
      && e.state.clientMaxWidth == s.clientMaxWidth && e.state.clientMaxHeight == s.clientMaxHeight
      && Respectable(e.state.clientMaxWidth, e.state.clientMaxHeight, e.state.params)
      && Within(e.outputs, s.clientMaxWidth, s.clientMaxHeight)
  {
    hide Respectable, ConfigBody, ErrorBody, Detail, IntKey, PairElem, ClampDim, ReadStats, AsU64, AsU16, AsI64;
    if d.Message? {
      ViewportRespects(s, d.body);
    }
  }

  lemma {:induction false} RunRespects(s: State, inputs: seq<Decoded>)
    requires s.phase != WaitHello && Respectable(s.clientMaxWidth, s.clientMaxHeight, s.params)
    ensures AllWithin(s, inputs, s.clientMaxWidth, s.clientMaxHeight)
    ensures var t := After(s, inputs);
      && t.phase != WaitHello && t.clientMaxWidth == s.clientMaxWidth && t.clientMaxHeight == s.clientMaxHeight
      && Respectable(t.clientMaxWidth, t.clientMaxHeight, t.params)
    decreases |inputs|
  {
    hide OnFrame, Respectable, Within;
    if inputs != [] {
      var init := inputs[..|inputs| - 1];
      RunRespects(s, init);
      StepRespects(After(s, init), inputs[|inputs| - 1]);
      assert forall i :: 0 <= i < |init| ==> Batches(s, inputs)[i] == Batches(s, init)[i];
    }
  }

  // ---------------------------------------------------------------- a session that exceeds the other limits

  function View(w: nat, h: nat): Decoded {
    Message(VIEWPORT, [Entry(Int(0), Array([Int(w), Int(h)]))])
  }

  lemma {:induction false} ViewportFrame(s: State, w: u64, h: u64)
    requires s.phase == Streaming && s.pending.None?
    ensures var w', h' := ClampDim(w, HOST_MAX_WIDTH, s.clientMaxWidth), ClampDim(h, HOST_MAX_HEIGHT, s.clientMaxHeight);
      w' != s.params.width || h' != s.params.height ==>
        exists t: State :: OnFrame(s, View(w, h)) == Effect(t, [Send(CONFIG, ConfigBody(t))])
          && t.params.width == w' && t.params.height == h'
  {
    hide ConfigBody, ClampDim;
    Remainder(w, TWO_64, 0, w);
    Remainder(h, TWO_64, 0, h);
    assert OnFrame(s, View(w, h)) == OnViewport(s, View(w, h).body);
  }

  lemma {:induction false} FloorsAt(c: u64, hostMax: nat)
    requires MIN_DIM + 2 <= hostMax
    ensures ClampDim(0, hostMax, c) == MIN_DIM
    ensures ClampDim(MIN_DIM + 2, hostMax, c) == if c >= MIN_DIM + 2 then MIN_DIM + 2 else MIN_DIM
  {
  }

  lemma {:induction false} TwoFrames(s: State, a: Decoded, b: Decoded)
    ensures var e := OnFrame(OnFrame(s, a).state, b);
      After(s, [a, b]) == e.state && Batches(s, [a, b])[1] == e.outputs
  {
    hide OnFrame;
    assert [a, b][..1] == [a] && [a][..0] == [];
    assert After(s, [a]) == OnFrame(s, a).state;
  }

  lemma {:induction false} Exceeds(s: State) returns (later: seq<Decoded>)
    requires s.phase == WaitConfigAck && s.generation == 1 && s.pending.None?
    requires !Respectable(s.clientMaxWidth, s.clientMaxHeight, s.params)
    ensures !AllWithin(s, later, s.clientMaxWidth, s.clientMaxHeight)
  {
    hide OnFrame, ConfigBody, ClampDim, PairElem;
    var ack := Message(CONFIG_ACK, [Entry(Int(0), Int(1))]);
    FirstAck(s);
    var s2 := s.(phase := Streaming);
    var x := if IsFloor(s.params) then MIN_DIM + 2 else 0;
    FloorsAt(s.clientMaxWidth, HOST_MAX_WIDTH);
    FloorsAt(s.clientMaxHeight, HOST_MAX_HEIGHT);
    ViewportFrame(s2, x, x);
    var t: State :| OnFrame(s2, View(x, x)) == Effect(t, [Send(CONFIG, ConfigBody(t))])
      && t.params.width == ClampDim(x, HOST_MAX_WIDTH, s.clientMaxWidth)
      && t.params.height == ClampDim(x, HOST_MAX_HEIGHT, s.clientMaxHeight);
    later := [ack, View(x, x)];
    TwoFrames(s, ack, View(x, x));
    ConfigReadsBack(t);
    var o := Send(CONFIG, ConfigBody(t));
    assert o in Batches(s, later)[1];
    assert !Within(Batches(s, later)[1], s.clientMaxWidth, s.clientMaxHeight);
  }

  /**
   After any accepted HELLO: no VIEWPORT, whatever comes, is ever answered by a CONFIG above the client's own limits,
   if and only if both limits are at least the floor of 640. The one other case is a session that starts at 640 x 640
   and whose limits leave no other size, so that no VIEWPORT changes anything.
   */
  lemma {:induction false} LimitsHoldIff(s0: State, hello: Decoded)
    requires s0.phase == WaitHello && s0.pending.None? && hello.Message? && hello.msgType == HELLO
    requires OnFrame(s0, hello).state.phase == WaitConfigAck
    ensures
      var s := OnFrame(s0, hello).state;
      var w, h := Offered(hello.body, 0, s0.clientMaxWidth), Offered(hello.body, 1, s0.clientMaxHeight);
      (forall later :: AllWithin(s, later, w, h)) <==> Respectable(w, h, s0.params)
  {
    hide OnFrame, AllWithin, Respectable;
    var s := OnFrame(s0, hello).state;
    HelloAccepted(s0, hello);
    if Respectable(s.clientMaxWidth, s.clientMaxHeight, s.params) {
      forall later
        ensures AllWithin(s, later, s.clientMaxWidth, s.clientMaxHeight)
      {
        RunRespects(s, later);
      }
    } else {
      var later := Exceeds(s);
    }
  }

  lemma {:induction false} HelloAccepted(s0: State, hello: Decoded)
    requires s0.phase == WaitHello && hello.Message? && hello.msgType == HELLO
    requires OnFrame(s0, hello).state.phase == WaitConfigAck
    ensures var s := OnFrame(s0, hello).state;
      && s.generation == 1 && s.pending == s0.pending && s.params == s0.params
      && s.clientMaxWidth == Offered(hello.body, 0, s0.clientMaxWidth)
      && s.clientMaxHeight == Offered(hello.body, 1, s0.clientMaxHeight)
  {
    hide IntKey, PairElem, OffersCodec, WelcomeBody, ConfigBody, AsU64;
  }

  // ---------------------------------------------------------------- which size answers a request

  /** The largest size on offer: the smaller of the host's and the client's limit, but never below 640. */
  function Ceiling(host: nat, client: nat): nat {
    if client < 640 || host < 640 then 640 else if client < host then client else host
  }

  /** `d` answers a request for `x`: 640 for anything smaller, else the largest even size up to `x` and the ceiling. */
  predicate Answers(d: nat, x: nat, ceiling: nat) {
    && 640 <= d <= ceiling && d % 2 == 0
    && (if x < 640 then d == 640 else d <= x)
    && forall y: nat :: 640 <= y <= ceiling && y <= x && y % 2 == 0 ==> y <= d
  }

  lemma {:induction false} AnswerIsUnique(d: nat, e: nat, x: nat, ceiling: nat)
    requires Answers(d, x, ceiling) && Answers(e, x, ceiling)
    ensures d == e
  {
    assert 640 <= d <= ceiling && d % 2 == 0;
    assert 640 <= e <= ceiling && e % 2 == 0;
  }

  /** The clamped dimension follows the request as far as both limits allow. */
  lemma {:induction false} ClampFollows(x: u64, host: nat, client: u64)
    ensures Answers(ClampDim(x, host, client), x, Ceiling(host, client))
  {
  }

  /**
   A VIEWPORT while streaming with nothing pending: if the answer in both dimensions is the present size nothing
   happens; else the session takes it on, and one CONFIG of the next generation carries it.
   */
  lemma {:induction false} ViewportIsAnswered(s: State, body: seq<Entry>, rw: u64, rh: u64, w: nat, h: nat)
    requires s.phase == Streaming && s.pending.None?
    requires PairElem(body, 0, 0) == Some(rw) && PairElem(body, 0, 1) == Some(rh)
    requires Answers(w, rw, Ceiling(3840, s.clientMaxWidth)) && Answers(h, rh, Ceiling(2160, s.clientMaxHeight))
    ensures var e := OnFrame(s, Message(0x22, body));
      if w == s.params.width && h == s.params.height then e == Effect(s, [])
      else
        && w < TWO_64 && h < TWO_64
        && e.state == s.(
             params := s.params.(width := w, height := h), generation := s.generation + 1, pending := Some(s.generation + 1))
        && |e.outputs| == 1 && e.outputs[0].Send? && e.outputs[0].msgType == 0x03
        && IntKey(e.outputs[0].body, 0) == Some(s.generation + 1)
        && PairElem(e.outputs[0].body, 2, 0) == Some(w) && PairElem(e.outputs[0].body, 2, 1) == Some(h)
  {
    hide ConfigBody, ClampDim, PairElem, IntKey, Answers, Ceiling;
    Remainder(rw, TWO_64, 0, rw);
    Remainder(rh, TWO_64, 0, rh);
    ClampFollows(rw, 3840, s.clientMaxWidth);
    ClampFollows(rh, 2160, s.clientMaxHeight);
    AnswerIsUnique(w, ClampDim(rw, 3840, s.clientMaxWidth), rw, Ceiling(3840, s.clientMaxWidth));
    AnswerIsUnique(h, ClampDim(rh, 2160, s.clientMaxHeight), rh, Ceiling(2160, s.clientMaxHeight));
    var e := OnFrame(s, Message(0x22, body));
    assert e == OnViewport(s, body);
    ConfigReadsBack(e.state);
  }

  /** A malformed request, or one while another is in flight, is ignored. */
  lemma {:induction false} ViewportIsIgnored(s: State, body: seq<Entry>)
    requires s.phase == Streaming
    requires s.pending.Some? || PairElem(body, 0, 0).None? || PairElem(body, 0, 1).None?
    ensures OnFrame(s, Message(0x22, body)) == Effect(s, [])
  {
    hide ConfigBody, ClampDim, PairElem, IntKey;
  }

  // ---------------------------------------------------------------- where the limits start

  lemma {:induction false} NeverBackToHello(s: State, d: Decoded)
    requires OnFrame(s, d).state.phase == WaitHello
    ensures OnFrame(s, d).state == s
  {
    hide IntKey, PairElem, OffersCodec, ClampDim;
  }

  /** Until the HELLO is accepted nothing changes. */
  lemma {:induction false} StillFresh(s: State, before: seq<Decoded>)
    requires After(s, before).phase == WaitHello
    ensures After(s, before) == s
    decreases |before|
  {
    hide OnFrame;
    if before != [] {
      var init := before[..|before| - 1];
      NeverBackToHello(After(s, init), before[|before| - 1]);
      StillFresh(s, init);
    }
  }

  /** In every session the limits are both elements of the HELLO's key 3 or, if either is missing, the configured size. */
  lemma {:induction false} WhereLimitsStart(
    hostName: seq<byte>, sessionId: seq<byte>, params: MediaParams, extras: seq<StreamConfig>,
    before: seq<Decoded>, body: seq<Entry>, later: seq<Decoded>)
    requires
      var s := After(Fresh(hostName, sessionId, params, extras), before);
      s.phase == WaitHello && OnFrame(s, Message(0x01, body)).state.phase == WaitConfigAck
    ensures
      var t := After(Fresh(hostName, sessionId, params, extras), before + ([Message(0x01, body)] + later));
      var w, h := PairElem(body, 3, 0), PairElem(body, 3, 1);
      if w.Some? && h.Some? then t.clientMaxWidth == w.value % TWO_64 && t.clientMaxHeight == h.value % TWO_64
      else t.clientMaxWidth == params.width && t.clientMaxHeight == params.height
  {
    hide OnFrame, PairElem;
    var s := Fresh(hostName, sessionId, params, extras);
    StillFresh(s, before);
    AfterSplit(s, before, [Message(0x01, body)] + later);
    LimitsComeFromHello(s, Message(0x01, body), later);
  }
}
