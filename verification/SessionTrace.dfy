/** What every input sequence makes the host session do: configuration generations, activations and the close. */
module SessionTrace {
  import opened Basics
  import opened Cbor
  import opened Control
  import opened Session

  // ---------------------------------------------------------------- runs

  function After(s: State, inputs: seq<Decoded>): State {
    if inputs == [] then s else OnFrame(After(s, inputs[..|inputs| - 1]), inputs[|inputs| - 1]).state
  }

  /** The outputs of each frame, batch by batch, as the driver receives them. */
  function Batches(s: State, inputs: seq<Decoded>): (b: seq<seq<Output>>)
    ensures |b| == |inputs|
  {
    if inputs == [] then []
    else
      var init := inputs[..|inputs| - 1];
      Batches(s, init) + [OnFrame(After(s, init), inputs[|inputs| - 1]).outputs]
  }

  // ---------------------------------------------------------------- configurations and activations

  /** A CONFIG on the wire, read back from its body; an activation of a configuration. */
  datatype Mark =
    | Sent(generation: Option<int>, width: Option<int>, height: Option<int>)
    | Started
    | Switched(params: MediaParams)

  function MarkOf(o: Output): seq<Mark> {
    match o
    case Send(t, body) => if t == CONFIG then [Sent(IntKey(body, 0), PairElem(body, 2, 0), PairElem(body, 2, 1))] else []
    case StartMedia(_) => [Started]
    case Reconfigure(p) => [Switched(p)]
    case _ => []
  }

  function MarksOf(outputs: seq<Output>): seq<Mark> {
    if outputs == [] then [] else MarkOf(outputs[0]) + MarksOf(outputs[1..])
  }

  function Marks(batches: seq<seq<Output>>): seq<Mark> {
    if batches == [] then [] else Marks(batches[..|batches| - 1]) + MarksOf(batches[|batches| - 1])
  }

  /** A size a VIEWPORT request may lead to. */
  predicate InBounds(x: int, hostMax: nat, clientMax: nat) {
    x % 2 == 0 && MIN_DIM <= x <= AtLeast(AtMost(hostMax, clientMax), MIN_DIM)
  }

  /**
   Mark 2g is the CONFIG of generation g + 1, with the session's first size for g = 0 and an even size in bounds
   later; mark 2g + 1 activates exactly the size of mark 2g, by starting the media for g = 0.
   */
  predicate MarkFits(m: seq<Mark>, k: nat, first: MediaParams, maxWidth: nat, maxHeight: nat)
    requires k < |m|
  {
    if k % 2 == 0 then
      && m[k].Sent? && m[k].generation == Some(k / 2 + 1) && m[k].width.Some? && m[k].height.Some?
      && if k == 0 then m[k].width == Some(first.width) && m[k].height == Some(first.height)
         else
           && InBounds(m[k].width.value, HOST_MAX_WIDTH, maxWidth)
           && InBounds(m[k].height.value, HOST_MAX_HEIGHT, maxHeight)
    else if k == 1 then m[k] == Started
    else
      && m[k].Switched? && m[k - 1].Sent?
      && m[k - 1].width == Some(m[k].params.width) && m[k - 1].height == Some(m[k].params.height)
      && m[k].params == first.(width := m[k].params.width, height := m[k].params.height)
  }

  predicate Alternating(m: seq<Mark>, first: MediaParams, maxWidth: nat, maxHeight: nat) {
    forall k :: 0 <= k < |m| ==> MarkFits(m, k, first, maxWidth, maxHeight)
  }

  predicate SameButSize(p: MediaParams, first: MediaParams) {
    p == first.(width := p.width, height := p.height)
  }

  predicate LastConfigIs(m: seq<Mark>, k: int, p: MediaParams) {
    0 <= k < |m| && m[k].Sent? && m[k].width == Some(p.width) && m[k].height == Some(p.height)
  }

  /** The marks so far, by phase. */
  predicate TraceInv(s: State, m: seq<Mark>, first: MediaParams) {
    && SameButSize(s.params, first)
    && (s.phase == WaitHello ==> m == [] && s.generation == 0 && s.pending.None? && s.params == first)
    && (s.phase == WaitConfigAck ==>
        |m| == 1 && s.generation == 1 && s.pending.None? && s.params == first && LastConfigIs(m, 0, s.params))
    && (s.phase == Streaming ==>
        && s.generation >= 1
        && (s.pending.Some? ==> s.pending == Some(s.generation) && |m| == 2 * s.generation - 1 && s.generation >= 2)
        && (s.pending.None? ==> |m| == 2 * s.generation)
        && LastConfigIs(m, 2 * s.generation - 2, s.params))
    && Alternating(m, first, s.clientMaxWidth, s.clientMaxHeight)
  }

  lemma {:induction false} ConfigReadsBack(s: State)
    ensures IntKey(ConfigBody(s), 0) == Some(s.generation)
    ensures PairElem(ConfigBody(s), 2, 0) == Some(s.params.width)
    ensures PairElem(ConfigBody(s), 2, 1) == Some(s.params.height)
  {
    var b := ConfigBody(s);
    assert b[1..][1..] == b[2..];
    assert PairElem(b, 2, 0) == PairElem(b[1..], 2, 0) == PairElem(b[2..], 2, 0);
    assert PairElem(b, 2, 1) == PairElem(b[1..], 2, 1) == PairElem(b[2..], 2, 1);
  }

  lemma {:induction false} MarksOfTwo(a: Output, b: Output)
    ensures MarksOf([a, b]) == MarkOf(a) + MarkOf(b)
  {
    assert [a, b][1..] == [b];
    MarksOfOne(b);
  }

  lemma {:induction false} MarksOfOne(a: Output)
    ensures MarksOf([a]) == MarkOf(a)
  {
    assert MarksOf([a]) == MarkOf(a) + MarksOf([a][1..]);
  }

  /** A clamped dimension is in bounds. */
  lemma {:induction false} ClampInBounds(x: u64, hostMax: nat, clientMax: u64)
    requires hostMax % 2 == 0
    ensures InBounds(ClampDim(x, hostMax, clientMax), hostMax, clientMax)
  {
  }

  lemma {:induction false} AlternatingExtends(m: seq<Mark>, x: seq<Mark>, first: MediaParams, w: nat, h: nat)
    requires Alternating(m, first, w, h)
    requires forall k :: |m| <= k < |m + x| ==> MarkFits(m + x, k, first, w, h)
    ensures Alternating(m + x, first, w, h)
  {
    forall k | 0 <= k < |m|
      ensures MarkFits(m + x, k, first, w, h)
    {
      assert MarkFits(m, k, first, w, h);
    }
  }

  lemma {:induction false} HelloStep(s: State, m: seq<Mark>, first: MediaParams, msgType: nat, body: seq<Entry>)
    requires TraceInv(s, m, first) && s.phase == WaitHello
    ensures var e := OnHello(s, msgType, body); TraceInv(e.state, m + MarksOf(e.outputs), first)
  {
    hide WelcomeBody, OffersCodec, AsU64, Detail, ErrorBody;
    var e := OnHello(s, msgType, body);
    MarksOfTwo(e.outputs[0], e.outputs[1]);
    if e.state.phase == WaitConfigAck {
      ConfigReadsBack(e.state);
    }
  }

  lemma {:induction false} AckStep(s: State, m: seq<Mark>, first: MediaParams, msgType: nat, body: seq<Entry>)
    requires TraceInv(s, m, first) && s.phase == WaitConfigAck
    ensures var e := OnConfigAck(s, msgType, body); TraceInv(e.state, m + MarksOf(e.outputs), first)
  {
    var e := OnConfigAck(s, msgType, body);
    MarksOfTwo(e.outputs[0], e.outputs[1]);
    var x := MarksOf(e.outputs);
    AlternatingExtends(m, x, first, s.clientMaxWidth, s.clientMaxHeight);
  }

  lemma {:induction false} ViewportStep(s: State, m: seq<Mark>, first: MediaParams, body: seq<Entry>)
    requires TraceInv(s, m, first) && s.phase == Streaming
    ensures var e := OnViewport(s, body); TraceInv(e.state, m + MarksOf(e.outputs), first)
  {
    var e := OnViewport(s, body);
    if e.outputs == [] {
      assert m + MarksOf([]) == m;
    } else {
      MarksOfOne(e.outputs[0]);
      ConfigReadsBack(e.state);
      var rw, rh := PairElem(body, 0, 0).value, PairElem(body, 0, 1).value;
      ClampInBounds(AsU64(rw), HOST_MAX_WIDTH, s.clientMaxWidth);
      ClampInBounds(AsU64(rh), HOST_MAX_HEIGHT, s.clientMaxHeight);
      AlternatingExtends(m, MarksOf(e.outputs), first, s.clientMaxWidth, s.clientMaxHeight);
    }
  }

  lemma {:induction false} ReconfigStep(s: State, m: seq<Mark>, first: MediaParams, body: seq<Entry>)
    requires TraceInv(s, m, first) && s.phase == Streaming
    ensures var e := OnReconfigAck(s, body); TraceInv(e.state, m + MarksOf(e.outputs), first)
  {
    var e := OnReconfigAck(s, body);
    if |e.outputs| == 1 {
      MarksOfOne(e.outputs[0]);
    } else {
      MarksOfTwo(e.outputs[0], e.outputs[1]);
    }
    AlternatingExtends(m, MarksOf(e.outputs), first, s.clientMaxWidth, s.clientMaxHeight);
  }

  lemma {:induction false} FrameStep(s: State, m: seq<Mark>, first: MediaParams, d: Decoded)
    requires TraceInv(s, m, first)
    ensures var e := OnFrame(s, d); TraceInv(e.state, m + MarksOf(e.outputs), first)
  {
    hide OnHello, OnConfigAck, OnViewport, OnReconfigAck, TraceInv;
    var e := OnFrame(s, d);
    assert m + [] == m;
    if d.Ignored? || s.phase == Closed {
    } else if d.msgType == BYE || d.msgType == CLOCK_PING {
      MarksOfOne(e.outputs[0]);
      CloseKeeps(s, m, first);
    } else if s.phase == WaitHello {
      HelloStep(s, m, first, d.msgType, d.body);
    } else if s.phase == WaitConfigAck {
      AckStep(s, m, first, d.msgType, d.body);
    } else if d.msgType == VIEWPORT {
      ViewportStep(s, m, first, d.body);
    } else if d.msgType == CONFIG_ACK {
      ReconfigStep(s, m, first, d.body);
    } else {
      CloseKeeps(s, m, first);
      StreamingNoMark(s, d);
    }
  }

  lemma {:induction false} CloseKeeps(s: State, m: seq<Mark>, first: MediaParams)
    requires TraceInv(s, m, first)
    ensures TraceInv(s.(phase := Closed), m, first)
  {
  }

  lemma {:induction false} StreamingNoMark(s: State, d: Decoded)
    requires s.phase == Streaming && d.Message? && d.msgType != BYE && d.msgType != CLOCK_PING
    requires d.msgType != VIEWPORT && d.msgType != CONFIG_ACK
    ensures var e := OnFrame(s, d);
      MarksOf(e.outputs) == [] && (e.state == s || e.state == s.(phase := Closed))
  {
    var e := OnFrame(s, d);
    if |e.outputs| == 1 {
      MarksOfOne(e.outputs[0]);
    } else if |e.outputs| == 2 {
      MarksOfTwo(e.outputs[0], e.outputs[1]);
    }
  }

  lemma {:induction false} TraceKeeps(s: State, inputs: seq<Decoded>, first: MediaParams)
    requires TraceInv(s, [], first)
    ensures TraceInv(After(s, inputs), Marks(Batches(s, inputs)), first)
    decreases |inputs|
  {
    hide OnFrame, TraceInv;
    if inputs != [] {
      var init, d := inputs[..|inputs| - 1], inputs[|inputs| - 1];
      TraceKeeps(s, init, first);
      var b := Batches(s, inputs);
      assert b[..|b| - 1] == Batches(s, init);
      FrameStep(After(s, init), Marks(Batches(s, init)), first, d);
    }
  }

  /**
   Over every input sequence CONFIG sends and activations strictly alternate: the generations are 1, 2, 3, ...,
   the first activation starts the media and each later one carries exactly the size of the CONFIG before it,
   and every size after the first is even and within the client's and the host's limits.
   */
  lemma {:induction false} ConfigurationsAlternate(
    host: seq<byte>, id: seq<byte>, params: MediaParams, extras: seq<StreamConfig>, inputs: seq<Decoded>)
    ensures
      var s0 := Fresh(host, id, params, extras);
      var s := After(s0, inputs);
      Alternating(Marks(Batches(s0, inputs)), params, s.clientMaxWidth, s.clientMaxHeight)
  {
    var s0 := Fresh(host, id, params, extras);
    TraceKeeps(s0, inputs, params);
  }

  /** While streaming, every CONFIG but a pending one has been activated, and the last CONFIG is the host's state. */
  lemma {:induction false} StreamingMarks(
    host: seq<byte>, id: seq<byte>, params: MediaParams, extras: seq<StreamConfig>, inputs: seq<Decoded>)
    ensures
      var s0 := Fresh(host, id, params, extras);
      var s := After(s0, inputs);
      var m := Marks(Batches(s0, inputs));
      s.phase == Streaming ==>
        && |m| == 2 * s.generation - (if s.pending.Some? then 1 else 0)
        && s.generation >= 1
        && LastConfigIs(m, 2 * s.generation - 2, s.params)
  {
    TraceKeeps(Fresh(host, id, params, extras), inputs, params);
  }

  // ---------------------------------------------------------------- the client's limits

  function Offered(body: seq<Entry>, idx: nat, fallback: u64): u64 {
    if PairElem(body, 3, 0).Some? && PairElem(body, 3, 1).Some?
    then AsU64(GetOr(PairElem(body, 3, idx), 0)) else fallback
  }

  lemma {:induction false} LimitsStay(s: State, inputs: seq<Decoded>)
    requires s.phase != WaitHello
    ensures var t := After(s, inputs);
      t.phase != WaitHello && t.clientMaxWidth == s.clientMaxWidth && t.clientMaxHeight == s.clientMaxHeight
      && t.multiActive == s.multiActive
    decreases |inputs|
  {
    hide ConfigBody, IntKey, PairElem, ClampDim, ReadStats, AsU64, AsI64;
    if inputs != [] {
      LimitsStay(s, inputs[..|inputs| - 1]);
    }
  }

  lemma {:induction false} AfterSplit(s: State, a: seq<Decoded>, b: seq<Decoded>)
    ensures After(s, a + b) == After(After(s, a), b)
    decreases |b|
  {
    hide OnFrame;
    if b == [] {
      assert a + b == a;
    } else {
      var init := b[..|b| - 1];
      assert (a + b)[..|a + b| - 1] == a + init;
      AfterSplit(s, a, init);
    }
  }

  /** The limits are the accepted HELLO's key 3, or the session's first size, for the rest of the session. */
  lemma {:induction false} LimitsComeFromHello(s: State, hello: Decoded, later: seq<Decoded>)
    requires s.phase == WaitHello && hello.Message? && hello.msgType == HELLO
    requires OnFrame(s, hello).state.phase == WaitConfigAck
    ensures var t := After(s, [hello] + later);
      && t.clientMaxWidth == Offered(hello.body, 0, s.clientMaxWidth)
      && t.clientMaxHeight == Offered(hello.body, 1, s.clientMaxHeight)
  {
    AfterSplit(s, [hello], later);
    assert [hello][..0] == [];
    assert After(s, [hello]) == OnFrame(After(s, []), hello).state;
    LimitsStay(OnFrame(s, hello).state, later);
  }

  /** A viewport stays within the client's own limit exactly when that limit is at least the 640 floor. */
  lemma {:induction false} FloorBeatsClient(x: u64, hostMax: nat, clientMax: u64)
    requires MIN_DIM <= hostMax
    ensures ClampDim(x, hostMax, clientMax) <= clientMax <==> clientMax >= MIN_DIM
  {
  }

  /**
   So in every session with a client that offers less than 640 in both directions: its first VIEWPORT, whatever it
   names, gets a CONFIG of 640 x 640, above the client's own limits.
   */
  lemma {:induction false} SmallClientGetsFloor(
    s0: State, cw: u64, ch: u64, rw: u64, rh: u64) returns (inputs: seq<Decoded>, s: State, body: seq<Entry>)
    requires s0.phase == WaitHello && s0.pending.None? && cw < MIN_DIM && ch < MIN_DIM
    requires s0.params.width != MIN_DIM || s0.params.height != MIN_DIM
    ensures |inputs| == 3 && inputs[0].Message? && inputs[0].msgType == HELLO && PairElem(inputs[0].body, 3, 0) == Some(cw)
    ensures s == After(s0, inputs) && s.clientMaxWidth == cw && s.clientMaxHeight == ch
    ensures Batches(s0, inputs)[2] == [Send(CONFIG, body)]
    ensures PairElem(body, 2, 0) == Some(MIN_DIM) && PairElem(body, 2, 1) == Some(MIN_DIM)
  {
    var hello := [Entry(Int(0), Int(1)), Entry(Int(2), Array([Int(1)])), Entry(Int(3), Array([Int(cw), Int(ch)]))];
    var ack, view := [Entry(Int(0), Int(1))], [Entry(Int(0), Array([Int(rw), Int(rh)]))];
    inputs := [Message(HELLO, hello), Message(CONFIG_ACK, ack), Message(VIEWPORT, view)];
    hide OnFrame, ConfigBody, PairElem;
    var s1 := SmallHello(s0, cw, ch);
    var s2 := s1.(phase := Streaming);
    FirstAck(s1);
    s := SmallViewport(s2, rw, rh);
    body := ConfigBody(s);
    ConfigReadsBack(s);
    ThreeFrames(s0, inputs[0], inputs[1], inputs[2]);
  }

  lemma {:induction false} ThreeFrames(s: State, a: Decoded, b: Decoded, c: Decoded)
    ensures var e := OnFrame(OnFrame(OnFrame(s, a).state, b).state, c);
      After(s, [a, b, c]) == e.state && Batches(s, [a, b, c])[2] == e.outputs
  {
    hide OnFrame;
    assert [a, b, c][..2] == [a, b] && [a, b][..1] == [a] && [a][..0] == [];
    assert After(s, [a]) == OnFrame(s, a).state;
    assert After(s, [a, b]) == OnFrame(OnFrame(s, a).state, b).state;
  }

  lemma {:induction false} FirstAck(s1: State)
    requires s1.phase == WaitConfigAck && s1.generation == 1
    ensures OnFrame(s1, Message(CONFIG_ACK, [Entry(Int(0), Int(1))])).state == s1.(phase := Streaming)
  {
  }

  lemma {:induction false} SmallHello(s0: State, cw: u64, ch: u64) returns (s1: State)
    requires s0.phase == WaitHello
    ensures
      var hello := [Entry(Int(0), Int(1)), Entry(Int(2), Array([Int(1)])), Entry(Int(3), Array([Int(cw), Int(ch)]))];
      && s1 == OnFrame(s0, Message(HELLO, hello)).state && PairElem(hello, 3, 0) == Some(cw)
      && s1.phase == WaitConfigAck && s1.generation == 1 && s1.pending == s0.pending && s1.params == s0.params
      && s1.clientMaxWidth == cw && s1.clientMaxHeight == ch
  {
    hide WelcomeBody, ConfigBody;
    var hello := [Entry(Int(0), Int(1)), Entry(Int(2), Array([Int(1)])), Entry(Int(3), Array([Int(cw), Int(ch)]))];
    assert hello[1].val.items[0] == Int(CODEC_HEVC) && OffersCodec(hello, CODEC_HEVC);
    assert hello[1..][1..] == [hello[2]];
    assert PairElem(hello, 3, 0) == PairElem(hello[1..], 3, 0) == PairElem(hello[1..][1..], 3, 0);
    assert PairElem(hello, 3, 1) == PairElem(hello[1..], 3, 1) == PairElem(hello[1..][1..], 3, 1);
    s1 := OnFrame(s0, Message(HELLO, hello)).state;
  }

  lemma {:induction false} SmallViewport(s2: State, rw: u64, rh: u64) returns (s3: State)
    requires s2.phase == Streaming && s2.pending.None? && s2.clientMaxWidth < MIN_DIM && s2.clientMaxHeight < MIN_DIM
    requires s2.params.width != MIN_DIM || s2.params.height != MIN_DIM
    ensures OnFrame(s2, Message(VIEWPORT, [Entry(Int(0), Array([Int(rw), Int(rh)]))])) == Effect(s3, [Send(CONFIG, ConfigBody(s3))])
    ensures s3.params.width == MIN_DIM && s3.params.height == MIN_DIM
    ensures s3.clientMaxWidth == s2.clientMaxWidth && s3.clientMaxHeight == s2.clientMaxHeight
  {
    hide ConfigBody;
    var view := [Entry(Int(0), Array([Int(rw), Int(rh)]))];
    s3 := OnFrame(s2, Message(VIEWPORT, view)).state;
  }

  // ---------------------------------------------------------------- the close

  predicate ClosesAtEnd(b: seq<Output>) {
    b != [] && b[|b| - 1].Close?
  }

  /** What one batch may contain: a close only at its end, with code 0 only for BYE and else after a matching ERROR. */
  predicate BatchFits(b: seq<Output>, d: Decoded) {
    && (forall j :: 0 <= j < |b| && b[j].Close? ==> j == |b| - 1)
    && (forall j :: 0 <= j < |b| && b[j].Send? && b[j].msgType == ERROR ==> j == 0 && |b| == 2 && b[1].Close?)
    && (ClosesAtEnd(b) ==>
        if d.Message? && d.msgType == BYE then b == [Close(NONE)]
        else
          && |b| == 2 && b[1].code != NONE
          && b[0] == Send(ERROR, ErrorBody(b[1].code, Detail(b[1].code))))
  }

  /** One handler closes the session or leaves it open, and its batch says which. */
  predicate HandlerCloses(e: Effect) {
    && (forall j :: 0 <= j < |e.outputs| && e.outputs[j].Close? ==> j == |e.outputs| - 1)
    && (forall j :: 0 <= j < |e.outputs| && e.outputs[j].Send? && e.outputs[j].msgType == ERROR
          ==> j == 0 && |e.outputs| == 2 && e.outputs[1].Close?)
    && (ClosesAtEnd(e.outputs) ==>
          && |e.outputs| == 2 && e.outputs[1].code != NONE
          && e.outputs[0] == Send(ERROR, ErrorBody(e.outputs[1].code, Detail(e.outputs[1].code))))
    && (e.state.phase == Closed <==> ClosesAtEnd(e.outputs))
  }

  lemma {:induction false} HelloCloses(s: State, msgType: nat, body: seq<Entry>)
    requires s.phase == WaitHello
    ensures HandlerCloses(OnHello(s, msgType, body))
  {
    hide Detail, ErrorBody, ConfigBody, WelcomeBody, IntKey, PairElem, OffersCodec, ClampDim, ReadStats, AsU64, AsI64;
  }

  lemma {:induction false} AckCloses(s: State, msgType: nat, body: seq<Entry>)
    requires s.phase == WaitConfigAck
    ensures HandlerCloses(OnConfigAck(s, msgType, body))
  {
    hide Detail, ErrorBody, ConfigBody, WelcomeBody, IntKey, PairElem, OffersCodec, ClampDim, ReadStats, AsU64, AsI64;
  }

  lemma {:induction false} StreamingCloses(s: State, msgType: nat, body: seq<Entry>)
    requires s.phase == Streaming
    ensures HandlerCloses(OnStreaming(s, msgType, body))
  {
    hide Detail, ErrorBody, ConfigBody, WelcomeBody, IntKey, PairElem, OffersCodec, ClampDim, ReadStats, AsU64, AsI64;
  }

  lemma {:induction false} StepCloses(s: State, d: Decoded)
    ensures var e := OnFrame(s, d);
      && BatchFits(e.outputs, d)
      && (s.phase == Closed ==> e.state == s && e.outputs == [])
      && (e.state.phase == Closed <==> s.phase == Closed || ClosesAtEnd(e.outputs))
  {
    hide Detail, ErrorBody, IntKey, AsI64, OnHello, OnConfigAck, OnStreaming;
    match d
    case Ignored =>
    case Message(msgType, body) =>
      match s.phase
      case WaitHello => HelloCloses(s, msgType, body);
      case WaitConfigAck => AckCloses(s, msgType, body);
      case Streaming => StreamingCloses(s, msgType, body);
      case Closed =>
  }

  /** A close happens at most once, ends its batch so the driver drops nothing after it, and silences the session. */
  lemma {:induction false} OneClose(s: State, inputs: seq<Decoded>)
    requires s.phase != Closed
    ensures var b := Batches(s, inputs);
      && (forall i :: 0 <= i < |b| ==> BatchFits(b[i], inputs[i]))
      && (forall i, k :: 0 <= i < k < |b| && ClosesAtEnd(b[i]) ==> b[k] == [])
      && (After(s, inputs).phase == Closed <==> exists i :: 0 <= i < |b| && ClosesAtEnd(b[i]))
    decreases |inputs|
  {
    hide OnFrame, BatchFits;
    if inputs != [] {
      var init, d := inputs[..|inputs| - 1], inputs[|inputs| - 1];
      OneClose(s, init);
      StepCloses(After(s, init), d);
      var b, n := Batches(s, inputs), |inputs| - 1;
      assert b == Batches(s, init) + [b[n]];
      assert ClosesAtEnd(b[n]) ==> ClosesAtEnd(b[n]);
      if After(s, init).phase == Closed {
        var i :| 0 <= i < n && ClosesAtEnd(Batches(s, init)[i]);
        assert ClosesAtEnd(b[i]);
      }
    }
  }
}
