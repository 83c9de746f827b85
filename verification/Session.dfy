/**
 The host session state machine: handshake, configuration generations, the mid-session reconfiguration gate and
 multi-display negotiation. `OnFrame` is the specification; `HostSession` updates its fields in place.
 */
module Session {
  import opened Basics
  import opened Cbor
  import opened Control

  const PROTOCOL_VERSION: nat := 1
  const CODEC_HEVC: nat := 1
  const HOST_MAX_WIDTH: nat := 3840
  const HOST_MAX_HEIGHT: nat := 2160
  const MIN_DIM: nat := 640
  const FEATURE_MULTI_DISPLAY: nat := 2

  // Close codes.
  const NONE: nat := 0
  const VERSION_UNSUPPORTED: nat := 1
  const NO_COMMON_CODEC: nat := 3
  const PROTOCOL_VIOLATION: nat := 4

  datatype MediaParams = MediaParams(
    codec: u64, width: u64, height: u64, refresh: u64, audio: u64, bitrateKbps: u64)

  datatype StreamConfig = StreamConfig(streamId: u16, params: MediaParams, x: i32, y: i32)

  /** `jitter` is the float's bytes; None stands for the default 0.0. */
  datatype StatsReport = StatsReport(
    framesReceived: int, framesDropped: int, datagrams: int, jitter: Option<seq<byte>>,
    decodeUs: int, rttUs: int, e2eUs: Option<int>, streamId: u16)

  datatype Output =
    | Send(msgType: nat, body: seq<Entry>)
    | StartMedia(multi: bool)
    | RequestIdr(streamId: u16)
    | Reconfigure(params: MediaParams)
    | ClockPong(t0: int)
    | Stats(report: StatsReport)
    | Close(code: nat)

  datatype Phase = WaitHello | WaitConfigAck | Streaming | Closed

  datatype State = State(
    phase: Phase,
    hostName: seq<byte>,
    sessionId: seq<byte>,
    params: MediaParams,
    generation: nat,
    clientMaxWidth: u64,
    clientMaxHeight: u64,
    pending: Option<nat>,
    extraStreams: seq<StreamConfig>,
    multiActive: bool)

  function Fresh(hostName: seq<byte>, sessionId: seq<byte>, params: MediaParams, extraStreams: seq<StreamConfig>): State {
    State(WaitHello, hostName, sessionId, params, 0, params.width, params.height, None, extraStreams, false)
  }

  // ---------------------------------------------------------------- narrowing casts

  function AsU64(i: int): u64 {
    i % TWO_64
  }

  function AsU16(i: int): u16 {
    i % TWO_16
  }

  function AsI64(i: int): int {
    (i + TWO_64 / 2) % TWO_64 - TWO_64 / 2
  }

  // ---------------------------------------------------------------- body lookups

  /** The first integer value under `key`; entries of another type do not stop the search. */
  function IntKey(body: seq<Entry>, key: int): Option<int> {
    if body == [] then None
    else if body[0].key == Int(key) && body[0].val.Int? then Some(body[0].val.i)
    else IntKey(body[1..], key)
  }

  function PairElem(body: seq<Entry>, key: int, idx: nat): Option<int> {
    if body == [] then None
    else if
      && body[0].key == Int(key) && body[0].val.Array?
      && idx < |body[0].val.items| && body[0].val.items[idx].Int?
    then Some(body[0].val.items[idx].i)
    else PairElem(body[1..], key, idx)
  }

  function FloatKey(body: seq<Entry>, key: int): Option<seq<byte>> {
    if body == [] then None
    else if body[0].key == Int(key) && body[0].val.Float? then Some(body[0].val.ieee)
    else FloatKey(body[1..], key)
  }

  predicate OffersCodec(body: seq<Entry>, codec: int) {
    exists i :: 0 <= i < |body| && body[i].key == Int(2) && body[i].val.Array? && Int(codec) in body[i].val.items
  }

  function GetOr(o: Option<int>, d: int): int {
    if o.Some? then o.value else d
  }

  function ReadStats(body: seq<Entry>): StatsReport {
    StatsReport(
      AsI64(GetOr(IntKey(body, 0), 0)), AsI64(GetOr(IntKey(body, 1), 0)), AsI64(GetOr(IntKey(body, 2), 0)),
      FloatKey(body, 3), AsI64(GetOr(IntKey(body, 4), 0)), AsI64(GetOr(IntKey(body, 5), 0)),
      if IntKey(body, 6).Some? then Some(AsI64(IntKey(body, 6).value)) else None,
      AsU16(GetOr(IntKey(body, 7), 0)))
  }

  // ---------------------------------------------------------------- bodies sent

  function WelcomeBody(s: State): seq<Entry> {
    [Entry(Int(0), Int(PROTOCOL_VERSION)), Entry(Int(1), Text(s.hostName)), Entry(Int(2), Bytes(s.sessionId))]
    + if s.multiActive then [Entry(Int(3), Int(FEATURE_MULTI_DISPLAY))] else []
  }

  function StreamEntry(c: StreamConfig): Value {
    Map([
      Entry(Int(0), Int(c.streamId)),
      Entry(Int(1), Array([Int(c.params.width), Int(c.params.height)])),
      Entry(Int(2), Int(c.params.refresh)),
      Entry(Int(3), Int(c.params.bitrateKbps)),
      Entry(Int(4), Array([Int(c.x), Int(c.y)]))])
  }

  function ConfigBody(s: State): seq<Entry> {
    [Entry(Int(0), Int(s.generation)),
     Entry(Int(1), Int(s.params.codec)),
     Entry(Int(2), Array([Int(s.params.width), Int(s.params.height)])),
     Entry(Int(3), Int(s.params.refresh)),
     Entry(Int(4), Int(s.params.audio)),
     Entry(Int(5), Int(s.params.bitrateKbps))]
    + if s.multiActive
      then [Entry(Int(6), Array(seq(|s.extraStreams|, i requires 0 <= i < |s.extraStreams| => StreamEntry(s.extraStreams[i]))))]
      else []
  }

  function ErrorBody(code: nat, detail: seq<byte>): seq<Entry> {
    [Entry(Int(0), Int(code)), Entry(Int(1), Text(detail))]
  }

  // ---------------------------------------------------------------- the transitions

  datatype Effect = Effect(state: State, outputs: seq<Output>)

  /** ERROR, then a close with the same code. */
  function Fatal(s: State, code: nat): Effect {
    Effect(s.(phase := Closed), [Send(ERROR, ErrorBody(code, Detail(code))), Close(code)])
  }

  function Ascii(text: string): seq<byte> {
    seq(|text|, i requires 0 <= i < |text| => text[i] as int % 256)
  }

  function Detail(code: nat): seq<byte> {
    if code == VERSION_UNSUPPORTED then Ascii("unsupported protocol_version")
    else if code == NO_COMMON_CODEC then Ascii("no common codec (host: HEVC)")
    else Ascii("unexpected message for state")
  }

  function Clamp(x: nat, lo: nat, hi: nat): nat {
    if x < lo then lo else if x > hi then hi else x
  }

  function AtLeast(x: nat, floor: nat): nat {
    if x < floor then floor else x
  }

  function AtMost(x: nat, cap: nat): nat {
    if x > cap then cap else x
  }

  /** Clamp one dimension to the host cap and the client maximum, floor it at 640 and clear its low bit. */
  function ClampDim(x: u64, hostMax: nat, clientMax: u64): nat {
    var c := Clamp(x, MIN_DIM, AtLeast(AtMost(hostMax, clientMax), MIN_DIM));
    c - c % 2
  }

  function OnHello(s: State, msgType: nat, body: seq<Entry>): Effect {
    if msgType != HELLO then Fatal(s, PROTOCOL_VIOLATION)
    else if IntKey(body, 0) != Some(PROTOCOL_VERSION) then Fatal(s, VERSION_UNSUPPORTED)
    else if !OffersCodec(body, CODEC_HEVC) then Fatal(s, NO_COMMON_CODEC)
    else
      var w, h := PairElem(body, 3, 0), PairElem(body, 3, 1);
      var features := AsU64(GetOr(IntKey(body, 5), 0));
      var s' := s.(
        clientMaxWidth := if w.Some? && h.Some? then AsU64(w.value) else s.clientMaxWidth,
        clientMaxHeight := if w.Some? && h.Some? then AsU64(h.value) else s.clientMaxHeight,
        multiActive := features / 2 % 2 == 1 && s.extraStreams != [],
        generation := 1,
        phase := WaitConfigAck);
      Effect(s', [Send(WELCOME, WelcomeBody(s')), Send(CONFIG, ConfigBody(s'))])
  }

  function OnConfigAck(s: State, msgType: nat, body: seq<Entry>): Effect {
    if msgType != CONFIG_ACK || IntKey(body, 0) != Some(s.generation) then Fatal(s, PROTOCOL_VIOLATION)
    else Effect(s.(phase := Streaming), [Send(START, []), StartMedia(s.multiActive)])
  }

  function OnViewport(s: State, body: seq<Entry>): Effect {
    var rw, rh := PairElem(body, 0, 0), PairElem(body, 0, 1);
    if rw.None? || rh.None? then Effect(s, [])
    else
      var w := ClampDim(AsU64(rw.value), HOST_MAX_WIDTH, s.clientMaxWidth);
      var h := ClampDim(AsU64(rh.value), HOST_MAX_HEIGHT, s.clientMaxHeight);
      if s.pending.Some? || (w == s.params.width && h == s.params.height) then Effect(s, [])
      else
        var s' := s.(
          params := s.params.(width := w, height := h),
          generation := s.generation + 1,
          pending := Some(s.generation + 1));
        Effect(s', [Send(CONFIG, ConfigBody(s'))])
  }

  function OnReconfigAck(s: State, body: seq<Entry>): Effect {
    if s.pending.Some? && IntKey(body, 0) == Some(s.pending.value)
    then Effect(s.(pending := None), [Reconfigure(s.params)])
    else Fatal(s, PROTOCOL_VIOLATION)
  }

  function OnStreaming(s: State, msgType: nat, body: seq<Entry>): Effect {
    if msgType == IDR_REQUEST then Effect(s, [RequestIdr(AsU16(GetOr(IntKey(body, 1), 0)))])
    else if msgType == STATS then Effect(s, [Stats(ReadStats(body))])
    else if msgType == VIEWPORT then OnViewport(s, body)
    else if msgType == CONFIG_ACK then OnReconfigAck(s, body)
    else if msgType == INPUT then Effect(s, [])
    else Fatal(s, PROTOCOL_VIOLATION)
  }

  function OnFrame(s: State, d: Decoded): Effect {
    match d
    case Ignored => Effect(s, [])
    case Message(msgType, body) =>
      if s.phase == Closed then Effect(s, [])
      else if msgType == BYE then Effect(s.(phase := Closed), [Close(NONE)])
      else if msgType == CLOCK_PING then Effect(s, [ClockPong(AsI64(GetOr(IntKey(body, 0), 0)))])
      else
        match s.phase
        case WaitHello => OnHello(s, msgType, body)
        case WaitConfigAck => OnConfigAck(s, msgType, body)
        case Streaming => OnStreaming(s, msgType, body)
  }

  // ---------------------------------------------------------------- the machine in place

  class HostSession {
    var phase: Phase
    var params: MediaParams
    var generation: nat
    var clientMaxWidth: u64
    var clientMaxHeight: u64
    var pending: Option<nat>
    var multiActive: bool
    const hostName: seq<byte>
    const sessionId: seq<byte>
    const extraStreams: seq<StreamConfig>

    function View(): State
      reads this
    {
      State(phase, hostName, sessionId, params, generation, clientMaxWidth, clientMaxHeight, pending, extraStreams, multiActive)
    }

    constructor (hostName: seq<byte>, sessionId: seq<byte>, params: MediaParams, extraStreams: seq<StreamConfig>)
      ensures View() == Fresh(hostName, sessionId, params, extraStreams)
    {
      this.hostName, this.sessionId, this.extraStreams := hostName, sessionId, extraStreams;
      this.phase, this.params, this.generation, this.pending := WaitHello, params, 0, None;
      this.clientMaxWidth, this.clientMaxHeight, this.multiActive := params.width, params.height, false;
    }

    method Handle(d: Decoded) returns (outputs: seq<Output>)
      modifies this
      ensures Effect(View(), outputs) == OnFrame(old(View()), d)
    {
      hide OnHello, OnConfigAck, OnStreaming;
      if d.Ignored? || phase == Closed {
        return [];
      }
      if d.msgType == BYE {
        phase := Closed;
        return [Close(NONE)];
      }
      if d.msgType == CLOCK_PING {
        return [ClockPong(AsI64(GetOr(IntKey(d.body, 0), 0)))];
      }
      match phase
      case WaitHello => outputs := HandleHello(d.msgType, d.body);
      case WaitConfigAck => outputs := HandleConfigAck(d.msgType, d.body);
      case Streaming => outputs := HandleStreaming(d.msgType, d.body);
    }

    method Fail(code: nat) returns (outputs: seq<Output>)
      modifies `phase
      ensures Effect(View(), outputs) == Fatal(old(View()), code)
    {
      phase := Closed;
      outputs := [Send(ERROR, ErrorBody(code, Detail(code))), Close(code)];
    }

    method HandleHello(msgType: nat, body: seq<Entry>) returns (outputs: seq<Output>)
      modifies this
      ensures Effect(View(), outputs) == OnHello(old(View()), msgType, body)
    {
      if msgType != HELLO {
        outputs := Fail(PROTOCOL_VIOLATION);
        return;
      }
      if IntKey(body, 0) != Some(PROTOCOL_VERSION) {
        outputs := Fail(VERSION_UNSUPPORTED);
        return;
      }
      if !OffersCodec(body, CODEC_HEVC) {
        outputs := Fail(NO_COMMON_CODEC);
        return;
      }
      var w, h := PairElem(body, 3, 0), PairElem(body, 3, 1);
      if w.Some? && h.Some? {
        clientMaxWidth := AsU64(w.value);
        clientMaxHeight := AsU64(h.value);
      }
      var clientMulti := AsU64(GetOr(IntKey(body, 5), 0)) / 2 % 2 == 1;
      multiActive := clientMulti && extraStreams != [];
      generation := 1;
      phase := WaitConfigAck;
      outputs := [Send(WELCOME, WelcomeBody(View())), Send(CONFIG, ConfigBody(View()))];
    }

    method HandleConfigAck(msgType: nat, body: seq<Entry>) returns (outputs: seq<Output>)
      modifies this
      ensures Effect(View(), outputs) == OnConfigAck(old(View()), msgType, body)
    {
      if msgType != CONFIG_ACK || IntKey(body, 0) != Some(generation) {
        outputs := Fail(PROTOCOL_VIOLATION);
        return;
      }
      phase := Streaming;
      outputs := [Send(START, []), StartMedia(multiActive)];
    }

    method HandleStreaming(msgType: nat, body: seq<Entry>) returns (outputs: seq<Output>)
      modifies this
      ensures Effect(View(), outputs) == OnStreaming(old(View()), msgType, body)
    {
      if msgType == IDR_REQUEST {
        outputs := [RequestIdr(AsU16(GetOr(IntKey(body, 1), 0)))];
      } else if msgType == STATS {
        outputs := [Stats(ReadStats(body))];
      } else if msgType == VIEWPORT {
        outputs := HandleViewport(body);
      } else if msgType == CONFIG_ACK {
        if pending.Some? && IntKey(body, 0) == Some(pending.value) {
          pending := None;
          outputs := [Reconfigure(params)];
        } else {
          outputs := Fail(PROTOCOL_VIOLATION);
        }
      } else if msgType == INPUT {
        outputs := [];
      } else {
        outputs := Fail(PROTOCOL_VIOLATION);
      }
    }

    method HandleViewport(body: seq<Entry>) returns (outputs: seq<Output>)
      modifies this
      ensures Effect(View(), outputs) == OnViewport(old(View()), body)
    {
      var rw, rh := PairElem(body, 0, 0), PairElem(body, 0, 1);
      if rw.None? || rh.None? {
        return [];
      }
      var w := ClampDim(AsU64(rw.value), HOST_MAX_WIDTH, clientMaxWidth);
      var h := ClampDim(AsU64(rh.value), HOST_MAX_HEIGHT, clientMaxHeight);
      if pending.Some? || (w == params.width && h == params.height) {
        return [];
      }
      params := params.(width := w, height := h);
      generation := generation + 1;
      pending := Some(generation);
      outputs := [Send(CONFIG, ConfigBody(View()))];
    }
  }
}
