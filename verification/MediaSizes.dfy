/** Which size a pipeline runs at: the newest it has been sent, and so the session's last activated one. */
module MediaSizes {
  import opened Basics
  import opened Cbor
  import opened Control
  import opened Session
  import opened SessionTrace
  import opened Connection
  import opened ConnectionEffects
  import ML = MediaLoop

  /** The sizes a list of ticks has found in the channel, oldest first. */
  function Sizes(ticks: seq<ML.Input>): seq<MediaParams> {
    if ticks == [] then [] else Sizes(ticks[..|ticks| - 1]) + ticks[|ticks| - 1].reconfigs
  }

  function Newest(first: MediaParams, later: seq<MediaParams>): MediaParams {
    if later == [] then first else later[|later| - 1]
  }

  lemma {:induction false} NewestOfMore(first: MediaParams, a: seq<MediaParams>, b: seq<MediaParams>)
    ensures Newest(first, a + b) == Newest(Newest(first, a), b)
  {
  }

  lemma {:induction false} TickTakesNewest(s: ML.State, k: ML.Input)
    requires ML.OnTick(s, k).running
    ensures s.running && ML.OnTick(s, k).params == Newest(s.params, k.reconfigs)
  {
    hide ML.Passing, ML.FrameBody;
  }

  /** Over every run: a pipeline that is still running runs at the newest size it has found. */
  lemma {:induction false} NewestSizeWins(kind: ML.SourceKind, streamId: u16, params: MediaParams, ticks: seq<ML.Input>)
    ensures var s := ML.After(ML.Opened(kind, streamId, params), ticks);
      s.running ==> s.params == Newest(params, Sizes(ticks))
    decreases |ticks|
  {
    hide ML.OnTick;
    if ticks != [] {
      var init, k := ticks[..|ticks| - 1], ticks[|ticks| - 1];
      NewestSizeWins(kind, streamId, params, init);
      var s := ML.After(ML.Opened(kind, streamId, params), init);
      if ML.OnTick(s, k).running {
        TickTakesNewest(s, k);
        NewestOfMore(params, Sizes(init), k.reconfigs);
      }
    }
  }

  /** It stops only for a closed connection, a failed reopening or a failed encoder, and for each of them at once. */
  lemma {:induction false} StopsIff(s: ML.State, k: ML.Input)
    requires s.running
    ensures !ML.OnTick(s, k).running <==>
      || k.closed || (k.reconfigs != [] && !k.reopenOk)
      || (k.encoded.Failed? && (k.filled || (if k.reconfigs == [] then s.have else s.kind == ML.Synthetic)))
  {
    hide ML.Passing, ML.FrameBody;
  }

  // ---------------------------------------------------------------- the session's side

  lemma {:induction false} SwitchesOfTwo(outs: seq<Output>, a: Output, b: Output)
    ensures Switches(outs + [a]) == Switches(outs) + if a.Reconfigure? then [a.params] else []
    ensures Switches(outs + [a, b])
      == Switches(outs) + (if a.Reconfigure? then [a.params] else []) + if b.Reconfigure? then [b.params] else []
  {
    CountOne(outs, a, 0);
    CountOne(outs + [a], b, 0);
    assert outs + [a, b] == (outs + [a]) + [b];
  }

  /** A step activates a size only by closing the pending reconfiguration, and then it is the session's size. */
  lemma {:induction false} StepSwitches(s: State, d: Decoded)
    ensures var e := OnFrame(s, d);
      && |e.outputs| <= 2
      && (forall o :: o in e.outputs && o.Reconfigure? ==> e.outputs == [o] && o.params == e.state.params)
      && ((forall o :: o in e.outputs ==> !o.Reconfigure?) && e.state.pending.None? ==>
            s.pending.None? && e.state.params == s.params)
  {
    hide ConfigBody, WelcomeBody, ErrorBody, Detail, IntKey, PairElem, OffersCodec, ClampDim, ReadStats;
    hide AsU64, AsU16, AsI64, OnHello, OnStreaming;
    match d
    case Ignored =>
    case Message(msgType, body) =>
      HelloSwitches(s, msgType, body);
      StreamingSwitches(s, msgType, body);
  }

  lemma {:induction false} HelloSwitches(s: State, msgType: nat, body: seq<Entry>)
    ensures var e := OnHello(s, msgType, body);
      && |e.outputs| <= 2 && (forall o :: o in e.outputs ==> !o.Reconfigure?)
      && e.state.pending == s.pending && e.state.params == s.params
  {
    hide ConfigBody, WelcomeBody, ErrorBody, Detail, IntKey, PairElem, OffersCodec, AsU64;
  }

  lemma {:induction false} StreamingSwitches(s: State, msgType: nat, body: seq<Entry>)
    ensures var e := OnStreaming(s, msgType, body);
      && |e.outputs| <= 2
      && (forall o :: o in e.outputs && o.Reconfigure? ==> e.outputs == [o] && o.params == e.state.params)
      && ((forall o :: o in e.outputs ==> !o.Reconfigure?) && e.state.pending.None? ==>
            s.pending.None? && e.state.params == s.params)
  {
    hide ConfigBody, ErrorBody, Detail, IntKey, PairElem, ClampDim, ReadStats, AsU64, AsU16;
    var b := OnStreaming(s, msgType, body).outputs;
    assert b != [] ==> b[0] in b;
  }

  /** While nothing is pending, the last size activated is the session's own. */
  lemma {:induction false} StepActivates(s: State, outs: seq<Output>, first: MediaParams, d: Decoded)
    requires s.pending.None? ==> Newest(first, Switches(outs)) == s.params
    ensures var e := OnFrame(s, d);
      e.state.pending.None? ==> Newest(first, Switches(outs + e.outputs)) == e.state.params
  {
    hide OnFrame, Switches;
    StepSwitches(s, d);
    var b := OnFrame(s, d).outputs;
    if b == [] {
      assert outs + b == outs;
    } else if |b| == 1 {
      SwitchesOfTwo(outs, b[0], b[0]);
      assert b == [b[0]];
    } else {
      SwitchesOfTwo(outs, b[0], b[1]);
      assert b == [b[0], b[1]] && b[0] in b && b[1] in b;
    }
  }

  lemma {:induction false} ActivatedIsCurrent(s: State, inputs: seq<Decoded>)
    requires s.pending.None?
    ensures var t := After(s, inputs);
      t.pending.None? ==> Newest(s.params, Switches(Flat(Batches(s, inputs)))) == t.params
    decreases |inputs|
  {
    hide OnFrame, Switches, Newest;
    if inputs == [] {
      NothingSwitched(s.params);
    } else {
      var init, d := inputs[..|inputs| - 1], inputs[|inputs| - 1];
      ActivatedIsCurrent(s, init);
      StepActivates(After(s, init), Flat(Batches(s, init)), s.params, d);
      assert Batches(s, inputs)[..|init|] == Batches(s, init);
    }
  }

  lemma {:induction false} NothingSwitched(p: MediaParams)
    ensures Newest(p, Switches([])) == p
  {
  }

  /**
   Session and pipeline together: once nothing is pending, a primary pipeline that has drained its channel and is
   still running runs at the size of the session, which is that of the client's last CONFIG.
   */
  lemma {:induction false} PrimaryRunsAtSessionSize(
    cfg: HostCfg, sessionId: seq<byte>, inputs: seq<Decoded>, clock: nat -> int, kind: ML.SourceKind, ticks: seq<ML.Input>)
    requires cfg.streams != [] && DistinctStreams(cfg) && cfg.streams[0].streamId == 0
    requires var media := DriveBatches(cfg, Wire([], [], None), Batches(Opening(cfg, sessionId), inputs), clock, 0).media;
      media != [] && Sizes(ticks) == media[0].reconfigs
    requires After(Opening(cfg, sessionId), inputs).pending.None?
    ensures
      var s := ML.After(ML.Opened(kind, 0, cfg.streams[0].params), ticks);
      s.running ==> s.params == After(Opening(cfg, sessionId), inputs).params
  {
    hide OnFrame, Switches, DriveBatches, Batches, After, ML.After, Newest, Sizes, Flat, DistinctStreams;
    MediaFollowsSession(cfg, sessionId, inputs, clock);
    ActivatedIsCurrent(Opening(cfg, sessionId), inputs);
    NewestSizeWins(kind, 0, cfg.streams[0].params, ticks);
  }
}
