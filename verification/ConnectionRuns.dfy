/** What a whole connection does: it serves a byte stream message by message, loses no output and steers the media. */
module ConnectionRuns {
  import opened Basics
  import opened Control
  import opened ControlStream
  import opened Session
  import opened SessionTrace
  import opened Connection

  function Heard(msgs: seq<Msg>): (ds: seq<Decoded>)
    ensures |ds| == |msgs|
  {
    if msgs == [] then [] else [Received(msgs[0])] + Heard(msgs[1..])
  }

  // ---------------------------------------------------------------- splitting runs

  lemma {:induction false} BatchesSplit(s: State, a: seq<Decoded>, b: seq<Decoded>)
    ensures Batches(s, a + b) == Batches(s, a) + Batches(After(s, a), b)
    decreases |b|
  {
    hide OnFrame;
    if b == [] {
      assert a + b == a;
    } else {
      var init := b[..|b| - 1];
      assert (a + b)[..|a + b| - 1] == a + init;
      BatchesSplit(s, a, init);
      AfterSplit(s, a, init);
    }
  }

  lemma {:induction false} DriveSplit(
    cfg: HostCfg, w: Wire, a: seq<seq<Output>>, b: seq<seq<Output>>, clock: nat -> int, from: nat)
    requires cfg.streams != []
    ensures DriveBatches(cfg, w, a + b, clock, from)
      == DriveBatches(cfg, DriveBatches(cfg, w, a, clock, from), b, clock, from + |a|)
    decreases |b|
  {
    hide DriveAll;
    if b == [] {
      assert a + b == a;
    } else {
      var init := b[..|b| - 1];
      assert (a + b)[..|a + b| - 1] == a + init;
      DriveSplit(cfg, w, a, init, clock, from);
    }
  }

  lemma {:induction false} DriveClosed(cfg: HostCfg, w: Wire, outputs: seq<Output>, now: int)
    requires cfg.streams != [] && w.closed.Some?
    ensures DriveAll(cfg, w, outputs, now) == w
    decreases |outputs|
  {
    if outputs != [] {
      DriveClosed(cfg, w, outputs[..|outputs| - 1], now);
    }
  }

  lemma {:induction false} BatchesClosed(cfg: HostCfg, w: Wire, batches: seq<seq<Output>>, clock: nat -> int, from: nat)
    requires cfg.streams != [] && w.closed.Some?
    ensures DriveBatches(cfg, w, batches, clock, from) == w
    decreases |batches|
  {
    hide DriveAll;
    if batches != [] {
      var n := |batches| - 1;
      BatchesClosed(cfg, w, batches[..n], clock, from);
      DriveClosed(cfg, w, batches[n], clock(from + n));
    }
  }

  lemma {:induction false} ClosedStays(s: State, inputs: seq<Decoded>)
    requires s.phase == Closed
    ensures After(s, inputs) == s
    decreases |inputs|
  {
    hide OnFrame;
    if inputs != [] {
      ClosedStays(s, inputs[..|inputs| - 1]);
      StepCloses(s, inputs[|inputs| - 1]);
    }
  }

  /** No close before the last output. */
  predicate ClosesLast(b: seq<Output>) {
    forall j :: 0 <= j < |b| && b[j].Close? ==> j == |b| - 1
  }

  lemma {:induction false} DriveCloses(cfg: HostCfg, w: Wire, b: seq<Output>, now: int)
    requires cfg.streams != [] && w.closed.None? && ClosesLast(b)
    ensures DriveAll(cfg, w, b, now).closed == if ClosesAtEnd(b) then Some(b[|b| - 1].code) else None
    decreases |b|
  {
    hide Frame, Spawned, FindStream;
    if b != [] {
      DriveCloses(cfg, w, b[..|b| - 1], now);
    }
  }

  // ---------------------------------------------------------------- serving a stream of messages

  lemma {:induction false} ServeOne(
    cfg: HostCfg, s: State, w: Wire, m: Msg, rest: seq<byte>, clock: nat -> int, from: nat)
    requires cfg.streams != [] && Sendable(m) && w.closed.None? && s.phase != Closed
    ensures
      var e := OnFrame(s, Received(m));
      var w' := DriveAll(cfg, w, e.outputs, clock(from));
      && (w'.closed.Some? <==> e.state.phase == Closed)
      && Serve(cfg, s, w, Frame(m.msgType, m.body) + rest, clock, from)
        == if e.state.phase == Closed then Served(e.state, w', false)
           else Serve(cfg, e.state, w', rest, clock, from + 1)
  {
    hide OnFrame, DriveAll, Received, Frame, Unframe, TakeFrame, BatchFits;
    TakesOwnFrame(m, rest);
    FrameRoundTrip(m);
    StepCloses(s, Received(m));
    var e := OnFrame(s, Received(m));
    OneBatchFits(e.outputs, Received(m));
    DriveCloses(cfg, w, e.outputs, clock(from));
  }

  lemma {:induction false} OneBatchFits(b: seq<Output>, d: Decoded)
    requires BatchFits(b, d)
    ensures ClosesLast(b)
  {
  }

  /**
   Over any list of messages the loop does exactly what the session says, batch after batch; it then either has
   closed and reads no further, or continues with the bytes that follow.
   */
  lemma {:induction false} ServesMessages(
    cfg: HostCfg, s: State, w: Wire, msgs: seq<Msg>, rest: seq<byte>, clock: nat -> int, from: nat)
    requires cfg.streams != [] && w.closed.None? && s.phase != Closed
    requires forall m :: m in msgs ==> Sendable(m)
    ensures
      var ds := Heard(msgs);
      var s' := After(s, ds);
      var w' := DriveBatches(cfg, w, Batches(s, ds), clock, from);
      && (w'.closed.Some? <==> s'.phase == Closed)
      && Serve(cfg, s, w, Stream(msgs) + rest, clock, from)
        == if s'.phase == Closed then Served(s', w', false) else Serve(cfg, s', w', rest, clock, from + |msgs|)
    decreases |msgs|
  {
    hide OnFrame, DriveAll, Received, Frame, Serve, Sendable, After, Batches, DriveBatches;
    if msgs == [] {
      NothingServed(cfg, s, w, clock, from);
      assert Stream(msgs) + rest == rest;
    } else {
      var m, tail := msgs[0], msgs[1..];
      var d, ds := Received(m), Heard(tail);
      var e := OnFrame(s, d);
      var w1 := DriveAll(cfg, w, e.outputs, clock(from));
      assert Stream(msgs) + rest == Frame(m.msgType, m.body) + (Stream(tail) + rest);
      ServeOne(cfg, s, w, m, Stream(tail) + rest, clock, from);
      OneStep(cfg, s, w, d, ds, clock, from);
      if e.state.phase == Closed {
        ClosedStays(e.state, ds);
        BatchesClosed(cfg, w1, Batches(e.state, ds), clock, from + 1);
      } else {
        ServesMessages(cfg, e.state, w1, tail, rest, clock, from + 1);
      }
    }
  }

  lemma {:induction false} NothingServed(cfg: HostCfg, s: State, w: Wire, clock: nat -> int, from: nat)
    requires cfg.streams != []
    ensures After(s, []) == s && DriveBatches(cfg, w, Batches(s, []), clock, from) == w
  {
  }

  lemma {:induction false} OneStep(
    cfg: HostCfg, s: State, w: Wire, d: Decoded, ds: seq<Decoded>, clock: nat -> int, from: nat)
    requires cfg.streams != []
    ensures
      var e := OnFrame(s, d);
      var w1 := DriveAll(cfg, w, e.outputs, clock(from));
      && After(s, [d] + ds) == After(e.state, ds)
      && DriveBatches(cfg, w, Batches(s, [d] + ds), clock, from)
        == DriveBatches(cfg, w1, Batches(e.state, ds), clock, from + 1)
  {
    hide OnFrame, DriveAll;
    var e := OnFrame(s, d);
    assert [d][..0] == [];
    assert After(s, [d]) == OnFrame(After(s, []), d).state == e.state;
    assert Batches(s, [d]) == [] + [e.outputs];
    AfterSplit(s, [d], ds);
    BatchesSplit(s, [d], ds);
    DriveSplit(cfg, w, [e.outputs], Batches(e.state, ds), clock, from);
    assert [e.outputs][..0] == [];
    assert After(s, [d] + ds) == After(e.state, ds);
    assert Batches(s, [d] + ds) == [e.outputs] + Batches(e.state, ds);
    assert DriveBatches(cfg, w, [], clock, from) == w;
    assert DriveBatches(cfg, w, [e.outputs], clock, from) == DriveAll(cfg, w, e.outputs, clock(from + 0));
    assert DriveBatches(cfg, w, Batches(s, [d] + ds), clock, from)
        == DriveBatches(cfg, DriveAll(cfg, w, e.outputs, clock(from)), Batches(e.state, ds), clock, from + 1);
  }

  /** A peer that ends its stream between frames is a clean close; a frame the decoder refuses is a violation. */
  lemma {:induction false} HowServingEnds(
    cfg: HostCfg, s: State, w: Wire, msgs: seq<Msg>, rest: seq<byte>, clock: nat -> int)
    requires cfg.streams != [] && w.closed.None? && s.phase != Closed
    requires forall m :: m in msgs ==> Sendable(m)
    requires After(s, Heard(msgs)).phase != Closed
    ensures
      var r := Serve(cfg, s, w, Stream(msgs) + rest, clock, 0);
      var w' := DriveBatches(cfg, w, Batches(s, Heard(msgs)), clock, 0);
      && (rest == [] ==> !r.failed && r.wire == w'.(closed := Some(NONE)))
      && (TakeFrame(rest).frame.Broken? ==> r.failed && r.wire == w')
      && (TakeFrame(rest).frame.FrameBytes? && Unframe(TakeFrame(rest).frame.bytes).ProtocolViolation? ==>
          !r.failed
          && r.wire == w'.(sent := w'.sent + Frame(ERROR, BadFrameBody()), closed := Some(PROTOCOL_VIOLATION)))
  {
    hide OnFrame, DriveAll, Heard, Frame, Unframe;
    ServesMessages(cfg, s, w, msgs, rest, clock, 0);
  }
}
