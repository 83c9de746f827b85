/**
 One media pipeline: each tick drains the reconfiguration and IDR channels, takes a frame, encodes it and sends its
 datagrams. `OnTick` is the specification; `Pipeline.Tick` updates the pipeline's variables in place.
 */
module MediaLoop {
  import opened Basics
  import opened Datagram
  import Session

  type MediaParams = Session.MediaParams

  /** A damage-driven capture has no frame until its first delivery. */
  datatype SourceKind = Synthetic | DamageDriven

  datatype Encoded = Produced(data: seq<byte>, keyframe: bool) | Nothing | Failed

  /** What happens to one datagram: handed to the transport, dropped by the loss injector, refused by the transport. */
  datatype Handling = Passed | Injected | Refused

  /** Everything a tick gets from outside. */
  datatype Input = Input(
    closed: bool,
    idrs: nat,
    reconfigs: seq<MediaParams>,
    reopenOk: bool,
    filled: bool,
    captureTs: u64,
    encoded: Encoded,
    handling: seq<Handling>)

  datatype SentFrame = SentFrame(frameSeq: u32, keyframe: bool, body: seq<byte>)

  /** `started` is the encoder's own flag: it has been given a frame since it was opened. */
  datatype State = State(
    kind: SourceKind,
    streamId: u16,
    params: MediaParams,
    started: bool,
    have: bool,
    frameSeq: u32,
    running: bool,
    idrQueue: nat,
    frames: seq<SentFrame>,
    wire: seq<seq<byte>>)

  function Opened(kind: SourceKind, streamId: u16, params: MediaParams): State {
    State(kind, streamId, params, false, kind == Synthetic, 0, true, 0, [], [])
  }

  function HandlingOf(h: seq<Handling>, i: nat): Handling {
    if i < |h| then h[i] else Passed
  }

  /** The datagrams from `i` on that reach the transport; a refusal ends the frame. */
  function Passing(frags: seq<seq<byte>>, h: seq<Handling>, i: nat): seq<seq<byte>>
    decreases |frags| - i
  {
    if i >= |frags| then []
    else
      match HandlingOf(h, i)
      case Injected => Passing(frags, h, i + 1)
      case Refused => []
      case Passed => [frags[i]] + Passing(frags, h, i + 1)
  }

  /** The frame body: the capture time as eight bytes, then the access unit. */
  function FrameBody(captureTs: u64, data: seq<byte>): seq<byte> {
    BigEndian(8, captureTs) + data
  }

  function Emit(s: State, keyframe: bool, body: seq<byte>, h: seq<Handling>): State {
    s.(frames := s.frames + [SentFrame(s.frameSeq, keyframe, body)],
       wire := s.wire + Passing(Fragments(s.streamId, s.frameSeq, keyframe, body), h, 0),
       frameSeq := (s.frameSeq + 1) % TWO_32)
  }

  /** The channels drained, the pipeline reopened if asked to; and whether the next frame is forced to an IDR. */
  datatype Drained = Drained(state: State, force: bool)

  /** The IDR channel is read only when there was no reconfiguration. */
  function Drain(s: State, k: Input): Drained
    requires k.reconfigs != [] ==> k.reopenOk
  {
    var queued := s.idrQueue + k.idrs;
    if k.reconfigs != [] then
      Drained(
        s.(params := k.reconfigs[|k.reconfigs| - 1], started := false, have := s.kind == Synthetic, idrQueue := queued),
        true)
    else Drained(s.(idrQueue := 0), queued > 0)
  }

  function OnTick(s: State, k: Input): State {
    if !s.running then s
    else if k.closed then s.(running := false)
    else if k.reconfigs != [] && !k.reopenOk then s.(running := false)
    else
      var s1 := Drain(s, k).state;
      if !s1.have && !k.filled then s1
      else
        var s2 := s1.(have := true, started := true);
        match k.encoded
        case Failed => s2.(running := false)
        case Nothing => s2
        case Produced(data, keyframe) => Emit(s2, keyframe, FrameBody(k.captureTs, data), k.handling)
  }

  function After(s: State, inputs: seq<Input>): State {
    if inputs == [] then s else OnTick(After(s, inputs[..|inputs| - 1]), inputs[|inputs| - 1])
  }

  // ---------------------------------------------------------------- the thread's variables

  class Pipeline {
    const kind: SourceKind
    const streamId: u16
    var params: MediaParams
    var started: bool
    var have: bool
    var frameSeq: u32
    var running: bool
    var idrQueue: nat
    ghost var frames: seq<SentFrame>
    var wire: seq<seq<byte>>

    ghost function View(): State
      reads this
    {
      State(kind, streamId, params, started, have, frameSeq, running, idrQueue, frames, wire)
    }

    constructor (kind: SourceKind, streamId: u16, params: MediaParams)
      ensures View() == Opened(kind, streamId, params)
    {
      this.kind, this.streamId, this.params := kind, streamId, params;
      started, have, frameSeq, running, idrQueue := false, kind == Synthetic, 0, true, 0;
      frames, wire := [], [];
    }

    method Tick(k: Input)
      modifies this
      ensures View() == OnTick(old(View()), k)
    {
      if !running {
        return;
      }
      if k.closed || (k.reconfigs != [] && !k.reopenOk) {
        running := false;
        return;
      }
      var force := DrainChannels(k);
      have := have || k.filled;
      if !have {
        return;
      }
      started := true;
      match k.encoded
      case Failed => running := false;
      case Nothing =>
      case Produced(data, keyframe) => SendFrame(keyframe, BigEndian(8, k.captureTs) + data, k.handling);
    }

    method DrainChannels(k: Input) returns (force: bool)
      requires k.reconfigs != [] ==> k.reopenOk
      modifies this
      ensures Drained(View(), force) == Drain(old(View()), k)
    {
      idrQueue := idrQueue + k.idrs;
      var reconfigured := k.reconfigs != [];
      if reconfigured {
        params := k.reconfigs[|k.reconfigs| - 1];
        started := false;
        have := kind == Synthetic;
      }
      force := reconfigured;
      if !force {
        force := idrQueue > 0;
        idrQueue := 0;
      }
    }

    method SendFrame(keyframe: bool, body: seq<byte>, handling: seq<Handling>)
      modifies this
      ensures View() == Emit(old(View()), keyframe, body, handling)
    {
      hide Fragments;
      var frags := Fragment(streamId, frameSeq, keyframe, body);
      var i := 0;
      while i < |frags|
        invariant 0 <= i <= |frags|
        invariant wire + Passing(frags, handling, i) == old(wire) + Passing(frags, handling, 0)
        invariant unchanged(`params, `started, `have, `frameSeq, `running, `idrQueue, `frames)
        decreases |frags| - i
      {
        var handled := HandlingOf(handling, i);
        if handled == Refused {
          break;
        }
        if handled == Passed {
          wire := wire + [frags[i]];
        }
        i := i + 1;
      }
      frames := frames + [SentFrame(frameSeq, keyframe, body)];
      frameSeq := (frameSeq + 1) % TWO_32;
    }
  }
}
