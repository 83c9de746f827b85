/** What reaches the wire and the media pipelines over a whole session: every reply, every IDR request, every size. */
module ConnectionEffects {
  import opened Basics
  import opened Control
  import opened ControlStream
  import opened Session
  import opened SessionTrace
  import opened Connection
  import opened ConnectionRuns

  // ---------------------------------------------------------------- bytes written

  function Reply(o: Output, now: int): seq<Msg> {
    match o
    case Send(t, body) => [Msg(t, body)]
    case ClockPong(t0) => [Msg(CLOCK_PONG, PongBody(t0, now))]
    case _ => []
  }

  function Replies(b: seq<Output>, now: int): seq<Msg> {
    if b == [] then [] else Replies(b[..|b| - 1], now) + Reply(b[|b| - 1], now)
  }

  function AllReplies(batches: seq<seq<Output>>, clock: nat -> int, from: nat): seq<Msg> {
    if batches == [] then []
    else
      var n := |batches| - 1;
      AllReplies(batches[..n], clock, from) + Replies(batches[n], clock(from + n))
  }

  lemma {:induction false} StreamAppends(a: seq<Msg>, b: seq<Msg>)
    ensures Stream(a + b) == Stream(a) + Stream(b)
  {
    hide Frame;
    if a == [] {
      assert a + b == b;
    } else {
      assert (a + b)[1..] == a[1..] + b;
      StreamAppends(a[1..], b);
    }
  }

  lemma {:induction false} ReplyStream(o: Output, now: int)
    ensures Stream(Reply(o, now)) ==
      match o
      case Send(t, body) => Frame(t, body)
      case ClockPong(t0) => Frame(CLOCK_PONG, PongBody(t0, now))
      case _ => []
  {
    hide Frame;
    var r := Reply(o, now);
    if r != [] {
      assert r[1..] == [] && Stream(r) == Frame(r[0].msgType, r[0].body) + Stream(r[1..]);
    }
  }

  lemma {:induction false} OutputWrites(cfg: HostCfg, w: Wire, o: Output, now: int)
    requires cfg.streams != [] && w.closed.None?
    ensures DriveOne(cfg, w, o, now).sent == w.sent + Stream(Reply(o, now))
  {
    hide Frame, Spawned, FindStream, Stream, Reply;
    ReplyStream(o, now);
  }

  lemma {:induction false} BatchWrites(cfg: HostCfg, w: Wire, b: seq<Output>, now: int)
    requires cfg.streams != [] && w.closed.None? && ClosesLast(b)
    ensures DriveAll(cfg, w, b, now).sent == w.sent + Stream(Replies(b, now))
    decreases |b|
  {
    hide DriveOne, Stream, Reply;
    if b == [] {
      NoReplies(now);
    } else {
      var init, o := b[..|b| - 1], b[|b| - 1];
      BatchWrites(cfg, w, init, now);
      DriveCloses(cfg, w, init, now);
      StreamAppends(Replies(init, now), Reply(o, now));
      OutputWrites(cfg, DriveAll(cfg, w, init, now), o, now);
    }
  }

  /** Closes only at the end of a batch, and nothing in later batches. */
  predicate WellClosed(batches: seq<seq<Output>>) {
    && (forall i :: 0 <= i < |batches| ==> ClosesLast(batches[i]))
    && (forall i, k :: 0 <= i < k < |batches| && ClosesAtEnd(batches[i]) ==> batches[k] == [])
  }

  predicate Open(batches: seq<seq<Output>>) {
    forall i :: 0 <= i < |batches| ==> !ClosesAtEnd(batches[i])
  }

  lemma {:induction false} OpenUntilClose(cfg: HostCfg, w: Wire, batches: seq<seq<Output>>, clock: nat -> int, from: nat)
    requires cfg.streams != [] && w.closed.None? && WellClosed(batches)
    ensures DriveBatches(cfg, w, batches, clock, from).closed.None? <==> Open(batches)
    decreases |batches|
  {
    hide DriveAll, ClosesAtEnd, ClosesLast;
    if batches != [] {
      var n := |batches| - 1;
      OpenUntilClose(cfg, w, batches[..n], clock, from);
      var w' := DriveBatches(cfg, w, batches[..n], clock, from);
      if w'.closed.Some? {
        DriveClosed(cfg, w', batches[n], clock(from + n));
      } else {
        DriveCloses(cfg, w', batches[n], clock(from + n));
      }
    }
  }

  lemma {:induction false} BatchesWrite(cfg: HostCfg, w: Wire, batches: seq<seq<Output>>, clock: nat -> int, from: nat)
    requires cfg.streams != [] && w.closed.None? && WellClosed(batches)
    ensures DriveBatches(cfg, w, batches, clock, from).sent == w.sent + Stream(AllReplies(batches, clock, from))
    decreases |batches|
  {
    hide DriveAll, ClosesAtEnd, ClosesLast, Replies, Stream;
    if batches == [] {
      NoReplies(0);
    } else {
      var n := |batches| - 1;
      var init := batches[..n];
      BatchesWrite(cfg, w, init, clock, from);
      OpenUntilClose(cfg, w, init, clock, from);
      LastWrites(cfg, DriveBatches(cfg, w, init, clock, from), batches[n], clock(from + n));
      StreamAppends(AllReplies(init, clock, from), Replies(batches[n], clock(from + n)));
    }
  }

  lemma {:induction false} LastWrites(cfg: HostCfg, w: Wire, b: seq<Output>, now: int)
    requires cfg.streams != [] && ClosesLast(b) && (w.closed.Some? ==> b == [])
    ensures DriveAll(cfg, w, b, now).sent == w.sent + Stream(Replies(b, now))
  {
    hide Stream, ClosesLast;
    if w.closed.Some? {
      NoReplies(now);
    } else {
      BatchWrites(cfg, w, b, now);
    }
  }

  lemma {:induction false} NoReplies(now: int)
    ensures Replies([], now) == [] && Stream([]) == []
  {
  }

  lemma {:induction false} SessionClosesWell(s: State, inputs: seq<Decoded>)
    requires s.phase != Closed
    ensures WellClosed(Batches(s, inputs))
  {
    hide OnFrame, BatchFits;
    OneClose(s, inputs);
    var b := Batches(s, inputs);
    forall i | 0 <= i < |b|
      ensures ClosesLast(b[i])
    {
      OneBatchFits(b[i], inputs[i]);
    }
  }

  /**
   Nothing the session sends is lost by the driver: the bytes written are exactly the framed messages of all its
   batches, in order, so a client's read loop recovers them one by one.
   */
  lemma {:induction false} ClientReadsReplies(cfg: HostCfg, s: State, inputs: seq<Decoded>, clock: nat -> int)
    requires cfg.streams != [] && s.phase != Closed
    ensures
      var replies := AllReplies(Batches(s, inputs), clock, 0);
      var sent := DriveBatches(cfg, Wire([], [], None), Batches(s, inputs), clock, 0).sent;
      && sent == Stream(replies)
      && ((forall m :: m in replies ==> Sendable(m)) ==>
          ReadAll(sent).end == Eof && |ReadAll(sent).results| == |replies|
          && forall i :: 0 <= i < |replies| ==> ReadAll(sent).results[i] == Ok(Received(replies[i])))
  {
    hide OnFrame, Sendable, Batches, AllReplies, Stream, DriveBatches, ReadAll, Received;
    SessionClosesWell(s, inputs);
    BatchesWrite(cfg, Wire([], [], None), Batches(s, inputs), clock, 0);
    var replies := AllReplies(Batches(s, inputs), clock, 0);
    if forall m :: m in replies ==> Sendable(m) {
      StreamSurvives(replies);
    }
  }

  // ---------------------------------------------------------------- media pipelines

  function Flat(batches: seq<seq<Output>>): seq<Output> {
    if batches == [] then [] else Flat(batches[..|batches| - 1]) + batches[|batches| - 1]
  }

  function StartOf(outs: seq<Output>): Option<bool> {
    if outs == [] then None
    else if outs[|outs| - 1].StartMedia? then Some(outs[|outs| - 1].multi)
    else StartOf(outs[..|outs| - 1])
  }

  function IdrsFor(outs: seq<Output>, id: u16): nat {
    if outs == [] then 0
    else
      var o := outs[|outs| - 1];
      IdrsFor(outs[..|outs| - 1], id) + if o.RequestIdr? && o.streamId == id then 1 else 0
  }

  function Switches(outs: seq<Output>): seq<MediaParams> {
    if outs == [] then []
    else
      var o := outs[|outs| - 1];
      Switches(outs[..|outs| - 1]) + if o.Reconfigure? then [o.params] else []
  }

  /** The media starts once, before any IDR request or reconfiguration. */
  predicate Timely(outs: seq<Output>) {
    forall j :: 0 <= j < |outs| ==>
      && (outs[j].StartMedia? ==> StartOf(outs[..j]).None?)
      && (outs[j].RequestIdr? || outs[j].Reconfigure? ==> StartOf(outs[..j]).Some?)
  }

  function Chosen(cfg: HostCfg, multi: bool): seq<StreamConfig>
    requires cfg.streams != []
  {
    if multi then cfg.streams else cfg.streams[..1]
  }

  predicate DistinctStreams(cfg: HostCfg) {
    forall i, j :: 0 <= i < j < |cfg.streams| ==> cfg.streams[i].streamId != cfg.streams[j].streamId
  }

  /** One pipeline per chosen stream, each having been sent exactly the requests addressed to it. */
  predicate MediaFits(cfg: HostCfg, outs: seq<Output>, media: seq<Pipeline>)
    requires cfg.streams != []
  {
    match StartOf(outs)
    case None => media == [] && Switches(outs) == []
    case Some(multi) =>
      var specs := Chosen(cfg, multi);
      && |media| == |specs|
      && forall i :: 0 <= i < |media| ==>
          media[i] == Pipeline(specs[i].streamId, specs[i].params, IdrsFor(outs, specs[i].streamId),
            if specs[i].streamId == 0 then Switches(outs) else [])
  }

  lemma {:induction false} BeforeStart(outs: seq<Output>, id: u16)
    requires Timely(outs) && StartOf(outs).None?
    ensures IdrsFor(outs, id) == 0 && Switches(outs) == []
    decreases |outs|
  {
    if outs != [] {
      var init := outs[..|outs| - 1];
      TimelyPrefix(outs, |outs| - 1);
      BeforeStart(init, id);
    }
  }

  lemma {:induction false} TimelyPrefix(outs: seq<Output>, n: nat)
    requires Timely(outs) && n <= |outs|
    ensures Timely(outs[..n])
  {
    forall j | 0 <= j < n
      ensures outs[..n][..j] == outs[..j]
    {
    }
  }

  lemma {:induction false} StartFitsMedia(cfg: HostCfg, outs: seq<Output>, w: Wire, multi: bool, now: int)
    requires cfg.streams != [] && w.closed.None? && StartOf(outs).None?
    requires Timely(outs) && MediaFits(cfg, outs, w.media)
    ensures MediaFits(cfg, outs + [StartMedia(multi)], DriveOne(cfg, w, StartMedia(multi), now).media)
  {
    var all := outs + [StartMedia(multi)];
    assert all[..|outs|] == outs;
    forall id: u16
      ensures IdrsFor(all, id) == 0 && Switches(all) == []
    {
      BeforeStart(outs, id);
    }
  }

  lemma {:induction false} IdrFits(cfg: HostCfg, outs: seq<Output>, w: Wire, id: u16, now: int)
    requires cfg.streams != [] && DistinctStreams(cfg) && w.closed.None?
    requires StartOf(outs).Some? && MediaFits(cfg, outs, w.media)
    ensures MediaFits(cfg, outs + [RequestIdr(id)], DriveOne(cfg, w, RequestIdr(id), now).media)
  {
    hide FindStream, IdrsFor, Switches;
    var o := RequestIdr(id);
    var all := outs + [o];
    assert all[..|outs|] == outs;
    FindsFirst(w.media, id);
    forall k: u16
      ensures IdrsFor(all, k) == IdrsFor(outs, k) + (if k == id then 1 else 0) && Switches(all) == Switches(outs)
    {
      CountOne(outs, o, k);
    }
  }

  lemma {:induction false} SwitchFits(cfg: HostCfg, outs: seq<Output>, w: Wire, p: MediaParams, now: int)
    requires cfg.streams != [] && DistinctStreams(cfg) && w.closed.None?
    requires StartOf(outs).Some? && MediaFits(cfg, outs, w.media)
    ensures MediaFits(cfg, outs + [Reconfigure(p)], DriveOne(cfg, w, Reconfigure(p), now).media)
  {
    hide FindStream, IdrsFor, Switches;
    var o := Reconfigure(p);
    var all := outs + [o];
    assert all[..|outs|] == outs;
    FindsFirst(w.media, 0);
    forall k: u16
      ensures IdrsFor(all, k) == IdrsFor(outs, k) && Switches(all) == Switches(outs) + [p]
    {
      CountOne(outs, o, k);
    }
  }

  lemma {:induction false} CountOne(outs: seq<Output>, o: Output, k: u16)
    ensures IdrsFor(outs + [o], k) == IdrsFor(outs, k) + if o.RequestIdr? && o.streamId == k then 1 else 0
    ensures Switches(outs + [o]) == Switches(outs) + if o.Reconfigure? then [o.params] else []
  {
    assert (outs + [o])[..|outs|] == outs;
  }

  lemma {:induction false} OtherFits(cfg: HostCfg, outs: seq<Output>, w: Wire, o: Output, now: int)
    requires cfg.streams != [] && w.closed.None? && MediaFits(cfg, outs, w.media)
    requires !o.StartMedia? && !o.RequestIdr? && !o.Reconfigure?
    ensures MediaFits(cfg, outs + [o], DriveOne(cfg, w, o, now).media)
  {
    hide Frame, FindStream, IdrsFor, Switches;
    assert (outs + [o])[..|outs|] == outs;
    CountOne(outs, o, 0);
    forall k: u16
      ensures IdrsFor(outs + [o], k) == IdrsFor(outs, k) && Switches(outs + [o]) == Switches(outs)
    {
      CountOne(outs, o, k);
    }
  }

  lemma {:induction false} OutputFits(cfg: HostCfg, outs: seq<Output>, w: Wire, o: Output, now: int)
    requires cfg.streams != [] && DistinctStreams(cfg) && w.closed.None?
    requires Timely(outs + [o]) && MediaFits(cfg, outs, w.media)
    ensures MediaFits(cfg, outs + [o], DriveOne(cfg, w, o, now).media)
  {
    hide MediaFits, FindStream, StartOf, Frame;
    var all := outs + [o];
    assert all[..|outs|] == outs && all[|outs|] == o;
    TimelyPrefix(all, |outs|);
    match o
    case StartMedia(multi) => StartFitsMedia(cfg, outs, w, multi, now);
    case RequestIdr(id) => IdrFits(cfg, outs, w, id, now);
    case Reconfigure(p) => SwitchFits(cfg, outs, w, p, now);
    case Send(_, _) => OtherFits(cfg, outs, w, o, now);
    case ClockPong(_) => OtherFits(cfg, outs, w, o, now);
    case Stats(_) => OtherFits(cfg, outs, w, o, now);
    case Close(_) => OtherFits(cfg, outs, w, o, now);
  }

  lemma {:induction false} BatchSteers(cfg: HostCfg, outs: seq<Output>, w: Wire, b: seq<Output>, now: int)
    requires cfg.streams != [] && DistinctStreams(cfg) && w.closed.None? && ClosesLast(b)
    requires Timely(outs + b) && MediaFits(cfg, outs, w.media)
    ensures MediaFits(cfg, outs + b, DriveAll(cfg, w, b, now).media)
    decreases |b|
  {
    hide DriveOne, MediaFits, StartOf;
    if b == [] {
      assert outs + b == outs;
    } else {
      var init, o := b[..|b| - 1], b[|b| - 1];
      assert (outs + b)[..|outs + init|] == outs + init && outs + b == (outs + init) + [o];
      TimelyPrefix(outs + b, |outs + init|);
      BatchSteers(cfg, outs, w, init, now);
      DriveCloses(cfg, w, init, now);
      OutputFits(cfg, outs + init, DriveAll(cfg, w, init, now), o, now);
    }
  }

  lemma {:induction false} BatchesSteer(cfg: HostCfg, batches: seq<seq<Output>>, clock: nat -> int)
    requires cfg.streams != [] && DistinctStreams(cfg) && WellClosed(batches) && Timely(Flat(batches))
    ensures MediaFits(cfg, Flat(batches), DriveBatches(cfg, Wire([], [], None), batches, clock, 0).media)
    decreases |batches|
  {
    hide DriveAll, MediaFits, Timely, ClosesAtEnd, ClosesLast;
    var w0 := Wire([], [], None);
    if batches == [] {
      NothingStarted(cfg);
    } else {
      var n := |batches| - 1;
      var init := batches[..n];
      assert Flat(batches)[..|Flat(init)|] == Flat(init);
      TimelyPrefix(Flat(batches), |Flat(init)|);
      BatchesSteer(cfg, init, clock);
      OpenUntilClose(cfg, w0, init, clock, 0);
      var w := DriveBatches(cfg, w0, init, clock, 0);
      if w.closed.Some? {
        DriveClosed(cfg, w, batches[n], clock(n));
        assert Flat(batches) == Flat(init);
      } else {
        BatchSteers(cfg, Flat(init), w, batches[n], clock(n));
      }
    }
  }

  lemma {:induction false} NothingStarted(cfg: HostCfg)
    requires cfg.streams != []
    ensures MediaFits(cfg, [], [])
  {
  }

  // ---------------------------------------------------------------- the session starts the media in time

  /** The outputs so far, by phase. */
  predicate StartFits(s: State, outs: seq<Output>) {
    && Timely(outs)
    && (s.phase == WaitHello || s.phase == WaitConfigAck ==> StartOf(outs).None?)
    && (s.phase == Streaming ==> StartOf(outs) == Some(s.multiActive))
    && (StartOf(outs).Some? ==> StartOf(outs) == Some(s.multiActive))
  }

  /** An output that may be emitted in phase `p` with the media started or not. */
  predicate InTime(o: Output, start: Option<bool>) {
    && (o.StartMedia? ==> start.None?)
    && (o.RequestIdr? || o.Reconfigure? ==> start.Some?)
  }

  lemma {:induction false} TimelyOne(outs: seq<Output>, o: Output)
    requires Timely(outs) && InTime(o, StartOf(outs))
    ensures Timely(outs + [o])
    ensures StartOf(outs + [o]) == if o.StartMedia? then Some(o.multi) else StartOf(outs)
  {
    var all := outs + [o];
    assert all[..|outs|] == outs;
    forall j | 0 <= j < |outs|
      ensures all[..j] == outs[..j] && all[j] == outs[j]
    {
    }
  }

  lemma {:induction false} StepOutputs(s: State, d: Decoded, start: Option<bool>)
    requires s.phase == WaitHello || s.phase == WaitConfigAck ==> start.None?
    requires s.phase == Streaming ==> start == Some(s.multiActive)
    requires start.Some? ==> start == Some(s.multiActive)
    ensures
      var e := OnFrame(s, d);
      && |e.outputs| <= 2
      && (|e.outputs| >= 1 ==> InTime(e.outputs[0], start) && !e.outputs[0].StartMedia?)
      && (|e.outputs| == 2 ==> InTime(e.outputs[1], start))
      && (|e.outputs| == 2 && e.outputs[1].StartMedia? ==>
            e.state.phase == Streaming && e.outputs[1].multi == e.state.multiActive)
      && (start.Some? ==> e.state.multiActive == s.multiActive)
      && (s.phase != Streaming && e.state.phase == Streaming ==> |e.outputs| == 2 && e.outputs[1].StartMedia?)
      && (e.state.phase == WaitHello || e.state.phase == WaitConfigAck ==> start.None?)
  {
    hide Detail, ErrorBody, ConfigBody, WelcomeBody, IntKey, PairElem, OffersCodec, ClampDim, ReadStats, AsU64, AsI64;
  }

  lemma {:induction false} StartStep(s: State, outs: seq<Output>, d: Decoded)
    requires StartFits(s, outs)
    ensures var e := OnFrame(s, d); StartFits(e.state, outs + e.outputs)
  {
    hide OnFrame, Timely, StartOf;
    var e := OnFrame(s, d);
    StepOutputs(s, d, StartOf(outs));
    if |e.outputs| == 0 {
      assert outs + e.outputs == outs;
    } else {
      var o := e.outputs[0];
      TimelyOne(outs, o);
      if |e.outputs| == 1 {
        assert e.outputs == [o];
      } else {
        TimelyOne(outs + [o], e.outputs[1]);
        assert outs + e.outputs == (outs + [o]) + [e.outputs[1]];
      }
    }
  }

  lemma {:induction false} StartsInTime(s: State, inputs: seq<Decoded>)
    requires s.phase == WaitHello
    ensures StartFits(After(s, inputs), Flat(Batches(s, inputs)))
    decreases |inputs|
  {
    hide OnFrame, StartFits;
    if inputs == [] {
      NothingOut(s);
    } else {
      var init, d := inputs[..|inputs| - 1], inputs[|inputs| - 1];
      StartsInTime(s, init);
      StartStep(After(s, init), Flat(Batches(s, init)), d);
      var b := Batches(s, inputs);
      assert b[..|b| - 1] == Batches(s, init);
    }
  }

  lemma {:induction false} NothingOut(s: State)
    requires s.phase == WaitHello
    ensures StartFits(s, [])
  {
  }

  /**
   Over every session: no pipeline before the first ACK; then one per negotiated stream, each with exactly the IDR
   requests addressed to it, and the primary alone with every activated size in order.
   */
  lemma {:induction false} MediaFollowsSession(
    cfg: HostCfg, sessionId: seq<byte>, inputs: seq<Decoded>, clock: nat -> int)
    requires cfg.streams != [] && DistinctStreams(cfg)
    ensures
      var s0 := Opening(cfg, sessionId);
      var outs := Flat(Batches(s0, inputs));
      var media := DriveBatches(cfg, Wire([], [], None), Batches(s0, inputs), clock, 0).media;
      && MediaFits(cfg, outs, media)
      && (StartOf(outs).Some? ==> StartOf(outs) == Some(After(s0, inputs).multiActive))
  {
    hide OnFrame, Batches, DriveBatches, MediaFits, WellClosed, Timely;
    var s0 := Opening(cfg, sessionId);
    SessionClosesWell(s0, inputs);
    StartsInTime(s0, inputs);
    BatchesSteer(cfg, Batches(s0, inputs), clock);
  }
}
