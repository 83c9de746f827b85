/**
 The per-connection driver: it reads frames off the control stream, feeds the session and applies the session's
 outputs to the wire and to the media pipelines.
 */
module Connection {
  import opened Basics
  import opened Cbor
  import opened Control
  import opened Session

  /** The streams a host serves; the first is the primary. */
  datatype HostCfg = HostCfg(name: seq<byte>, streams: seq<StreamConfig>)

  /** The protocol view of the extra streams. */
  function ExtraStreamConfigs(cfg: HostCfg): seq<StreamConfig>
    requires cfg.streams != []
  {
    cfg.streams[1..]
  }

  function Opening(cfg: HostCfg, sessionId: seq<byte>): State
    requires cfg.streams != []
  {
    Fresh(cfg.name, sessionId, cfg.streams[0].params, ExtraStreamConfigs(cfg))
  }

  /** A media pipeline and everything ever sent down its two channels. */
  datatype Pipeline = Pipeline(streamId: u16, params: MediaParams, idrRequests: nat, reconfigs: seq<MediaParams>)

  /** What the connection has done: bytes written, pipelines started, the application close code. */
  datatype Wire = Wire(sent: seq<byte>, media: seq<Pipeline>, closed: Option<nat>)

  function FindStream(media: seq<Pipeline>, id: u16): Option<nat> {
    if media == [] then None
    else
      var before := FindStream(media[..|media| - 1], id);
      if before.Some? then before
      else if media[|media| - 1].streamId == id then Some(|media| - 1) else None
  }

  lemma {:induction false} FindsFirst(media: seq<Pipeline>, id: u16)
    ensures match FindStream(media, id)
      case Some(i) => i < |media| && media[i].streamId == id && forall k :: 0 <= k < i ==> media[k].streamId != id
      case None => forall k :: 0 <= k < |media| ==> media[k].streamId != id
  {
    if media != [] {
      FindsFirst(media[..|media| - 1], id);
    }
  }

  function Spawned(specs: seq<StreamConfig>): (m: seq<Pipeline>)
    ensures |m| == |specs|
  {
    seq(|specs|, i requires 0 <= i < |specs| => Pipeline(specs[i].streamId, specs[i].params, 0, []))
  }

  function PongBody(t0: int, now: int): seq<Entry> {
    [Entry(Int(0), Int(t0)), Entry(Int(1), Int(now)), Entry(Int(2), Int(now))]
  }

  /** One output applied. Nothing follows a close. */
  function DriveOne(cfg: HostCfg, w: Wire, o: Output, now: int): Wire
    requires cfg.streams != []
  {
    if w.closed.Some? then w
    else
      match o
      case Send(t, body) => w.(sent := w.sent + Frame(t, body))
      case StartMedia(multi) => w.(media := w.media + Spawned(if multi then cfg.streams else cfg.streams[..1]))
      case RequestIdr(id) =>
        FindsFirst(w.media, id);
        match FindStream(w.media, id) {
          case None => w
          case Some(i) => w.(media := w.media[i := w.media[i].(idrRequests := w.media[i].idrRequests + 1)])
        }
      case Reconfigure(p) =>
        FindsFirst(w.media, 0);
        match FindStream(w.media, 0) {
          case None => w
          case Some(i) => w.(media := w.media[i := w.media[i].(reconfigs := w.media[i].reconfigs + [p])])
        }
      case ClockPong(t0) => w.(sent := w.sent + Frame(CLOCK_PONG, PongBody(t0, now)))
      case Stats(_) => w
      case Close(code) => w.(closed := Some(code))
  }

  function DriveAll(cfg: HostCfg, w: Wire, outputs: seq<Output>, now: int): Wire
    requires cfg.streams != []
  {
    if outputs == [] then w
    else DriveOne(cfg, DriveAll(cfg, w, outputs[..|outputs| - 1], now), outputs[|outputs| - 1], now)
  }

  /** Driving the batches one after another; `clock(n)` is the time stamp of frame number `n`. */
  function DriveBatches(cfg: HostCfg, w: Wire, batches: seq<seq<Output>>, clock: nat -> int, from: nat): Wire
    requires cfg.streams != []
  {
    if batches == [] then w
    else
      var n := |batches| - 1;
      DriveAll(cfg, DriveBatches(cfg, w, batches[..n], clock, from), batches[n], clock(from + n))
  }

  datatype Served = Served(state: State, wire: Wire, failed: bool)

  function BadFrameBody(): seq<Entry> {
    [Entry(Int(0), Int(PROTOCOL_VIOLATION)), Entry(Int(1), Text(Ascii("PROTOCOL_VIOLATION")))]
  }

  /** The read, decode, handle, drive loop over all the bytes the peer sends. */
  function Serve(cfg: HostCfg, s: State, w: Wire, stream: seq<byte>, clock: nat -> int, from: nat): Served
    requires cfg.streams != []
    decreases |stream|
  {
    var t := TakeFrame(stream);
    match t.frame
    case Eof => Served(s, w.(closed := Some(NONE)), false)
    case Broken => Served(s, w, true)
    case FrameBytes(bytes) =>
      match Unframe(bytes)
      case ProtocolViolation =>
        Served(s, w.(sent := w.sent + Frame(ERROR, BadFrameBody()), closed := Some(PROTOCOL_VIOLATION)), false)
      case Ok(d) =>
        var e := OnFrame(s, d);
        var w' := DriveAll(cfg, w, e.outputs, clock(from));
        if w'.closed.Some? || e.state.phase == Closed then Served(e.state, w', false)
        else Serve(cfg, e.state, w', t.rest, clock, from + 1)
  }

  // ---------------------------------------------------------------- the driver in place

  class Driver {
    var sent: seq<byte>
    var media: seq<Pipeline>
    var closed: Option<nat>
    const cfg: HostCfg

    function View(): Wire
      reads this
    {
      Wire(sent, media, closed)
    }

    constructor (cfg: HostCfg)
      ensures this.cfg == cfg && View() == Wire([], [], None)
    {
      this.cfg := cfg;
      sent, media, closed := [], [], None;
    }

    method SendFrame(msgType: nat, body: seq<Entry>)
      modifies `sent
      ensures sent == old(sent) + Frame(msgType, body)
    {
      var frame := EncodeFrame(msgType, body);
      sent := sent + frame;
    }

    /** `iter().find` over the pipelines. */
    method Find(id: u16) returns (found: Option<nat>)
      ensures found == FindStream(media, id)
      ensures found.Some? ==> found.value < |media|
    {
      FindsFirst(media, id);
      for i := 0 to |media|
        invariant FindStream(media[..i], id) == None
      {
        assert media[..i + 1][..i] == media[..i];
        if media[i].streamId == id {
          FindStays(media, id, i);
          return Some(i);
        }
      }
      assert media[..|media|] == media;
      return None;
    }

    method Spawn(specs: seq<StreamConfig>)
      modifies `media
      ensures media == old(media) + Spawned(specs)
    {
      for i := 0 to |specs|
        invariant media == old(media) + Spawned(specs)[..i]
      {
        media := media + [Pipeline(specs[i].streamId, specs[i].params, 0, [])];
      }
    }

    method Apply(o: Output, now: int)
      requires cfg.streams != [] && closed.None?
      modifies this
      ensures View() == DriveOne(cfg, old(View()), o, now)
    {
      hide Frame, Spawned, FindStream;
      match o
      case Send(t, body) => SendFrame(t, body);
      case StartMedia(multi) => Spawn(if multi then cfg.streams else cfg.streams[..1]);
      case RequestIdr(id) =>
        var found := Find(id);
        if found.Some? {
          var k := found.value;
          media := media[k := media[k].(idrRequests := media[k].idrRequests + 1)];
        }
      case Reconfigure(p) =>
        var found := Find(0);
        if found.Some? {
          var k := found.value;
          media := media[k := media[k].(reconfigs := media[k].reconfigs + [p])];
        }
      case ClockPong(t0) => SendFrame(CLOCK_PONG, PongBody(t0, now));
      case Stats(_) =>
      case Close(code) => closed := Some(code);
    }

    /** The outputs in order; a close ends the connection and whatever follows it. */
    method Drive(outputs: seq<Output>, now: int) returns (done: bool)
      requires cfg.streams != [] && closed.None?
      modifies this
      ensures View() == DriveAll(cfg, old(View()), outputs, now)
      ensures done == closed.Some?
    {
      hide DriveOne;
      for i := 0 to |outputs|
        invariant closed.None? && View() == DriveAll(cfg, old(View()), outputs[..i], now)
      {
        assert outputs[..i + 1][..i] == outputs[..i];
        Apply(outputs[i], now);
        if closed.Some? {
          AllAfterClose(cfg, old(View()), outputs, now, i + 1);
          return true;
        }
      }
      assert outputs[..|outputs|] == outputs;
      return false;
    }

    method SessionLoop(session: HostSession, recv: RecvStream, clock: nat -> int) returns (failed: bool)
      requires cfg.streams != [] && closed.None?
      modifies this, session, recv
      ensures Served(session.View(), View(), failed)
        == Serve(cfg, old(session.View()), old(View()), old(recv.pending), clock, 0)
    {
      hide OnFrame, DriveAll, TakeFrame, Unframe, Frame;
      var n: nat := 0;
      ghost var all := Serve(cfg, session.View(), View(), recv.pending, clock, 0);
      while true
        invariant closed.None? && Serve(cfg, session.View(), View(), recv.pending, clock, n) == all
        decreases |recv.pending|
      {
        ghost var before := recv.pending;
        var read := recv.ReadFrame();
        match read
        case Eof =>
          closed := Some(NONE);
          return false;
        case Broken =>
          return true;
        case FrameBytes(bytes) =>
          assert before == bytes + recv.pending;
          var decoded := DecodeFrame(bytes);
          if decoded == ProtocolViolation {
            SendFrame(ERROR, BadFrameBody());
            closed := Some(PROTOCOL_VIOLATION);
            return false;
          }
          var outputs := session.Handle(decoded.value);
          var done := Drive(outputs, clock(n));
          if done || session.phase == Closed {
            return false;
          }
          n := n + 1;
      }
    }
  }

  lemma {:induction false} FindStays(media: seq<Pipeline>, id: u16, i: nat)
    requires i < |media| && media[i].streamId == id && FindStream(media[..i], id) == None
    ensures FindStream(media, id) == Some(i)
  {
    FindsFirst(media, id);
    FindsFirst(media[..i], id);
  }

  lemma {:induction false} AllAfterClose(cfg: HostCfg, w: Wire, outputs: seq<Output>, now: int, n: nat)
    requires cfg.streams != [] && n <= |outputs| && DriveAll(cfg, w, outputs[..n], now).closed.Some?
    ensures DriveAll(cfg, w, outputs, now) == DriveAll(cfg, w, outputs[..n], now)
    decreases |outputs|
  {
    if n == |outputs| {
      assert outputs[..n] == outputs;
    } else {
      var init := outputs[..|outputs| - 1];
      assert init[..n] == outputs[..n];
      AllAfterClose(cfg, w, init, now, n);
    }
  }
}
