/**
 The whole recovery loop over one session: a gap at the client, its keyframe request across the control stream, the
 session and the driver into the pipeline's channel, the keyframe this forces, and the client decoding again.
 */
module FreezeLoop {
  import opened Basics
  import opened Cbor
  import opened Control
  import opened ControlStream
  import opened Session
  import opened SessionTrace
  import opened SessionFeatures
  import opened SessionTransport
  import opened Connection
  import opened ConnectionRuns
  import opened ConnectionEffects
  import opened ReplySizes
  import Reassembly
  import ML = MediaLoop
  import MD = MediaDelay
  import LR = LossRecovery
  import Datagram

  // ---------------------------------------------------------------- from the client's request to the channel

  /** The message a client sends for a request event: the last good frame and the stream to refresh. */
  function IdrMsg(lastGood: u32, streamId: u16): Msg {
    Msg(IDR_REQUEST, [Entry(Int(0), Int(lastGood)), Entry(Int(1), Int(streamId))])
  }

  lemma {:induction false} IdrMsgSendable(lastGood: u32, streamId: u16)
    ensures Sendable(IdrMsg(lastGood, streamId))
  {
    hide BodyFits, Sendable;
    NothingFits();
    var e0 := [Entry(Int(0), Int(lastGood))];
    AddInt([], 0, 0, lastGood);
    assert [] + e0 == e0;
    AddInt(e0, 18, 1, streamId);
    assert IdrMsg(lastGood, streamId).body == e0 + [Entry(Int(1), Int(streamId))];
    FittingIsSendable(IdrMsg(lastGood, streamId), 36);
  }

  lemma {:induction false} IdrMsgHandled(s: State, lastGood: u32, streamId: u16)
    requires s.phase == Streaming
    ensures OnFrame(s, Received(IdrMsg(lastGood, streamId))) == Effect(s, [RequestIdr(streamId)])
  {
    hide Received, IntKey, AsU16;
    var m := IdrMsg(lastGood, streamId);
    TransportIsTransparent(s, m);
    IntKeyAt(m.body, 1);
    StreamIdCast(streamId);
  }

  lemma {:induction false} StreamIdCast(id: u16)
    ensures AsU16(id) == id
  {
    Remainder(id, TWO_16, 0, id);
  }

  lemma {:induction false} HeardOneMore(s: State, msgs: seq<Msg>, m: Msg)
    ensures Heard(msgs + [m]) == Heard(msgs) + [Received(m)]
    ensures After(s, Heard(msgs + [m])) == OnFrame(After(s, Heard(msgs)), Received(m)).state
    ensures Batches(s, Heard(msgs + [m]))
      == Batches(s, Heard(msgs)) + [OnFrame(After(s, Heard(msgs)), Received(m)).outputs]
  {
    hide OnFrame, Received;
    HeardSnoc(msgs, m);
    assert Heard(msgs + [m])[..|msgs|] == Heard(msgs);
  }

  /** The driver's state after a list of messages. */
  function WireAfter(cfg: HostCfg, sessionId: seq<byte>, msgs: seq<Msg>, clock: nat -> int): Wire
    requires cfg.streams != []
  {
    DriveBatches(cfg, Wire([], [], None), Batches(Opening(cfg, sessionId), Heard(msgs)), clock, 0)
  }

  lemma {:induction false} OneMoreRequest(
    cfg: HostCfg, sessionId: seq<byte>, msgs: seq<Msg>, clock: nat -> int, lastGood: u32, i: nat)
    requires cfg.streams != [] && DistinctStreams(cfg)
    requires After(Opening(cfg, sessionId), Heard(msgs)).phase == Streaming
    requires i < |WireAfter(cfg, sessionId, msgs, clock).media|
    ensures
      var p := WireAfter(cfg, sessionId, msgs, clock).media[i];
      var media := WireAfter(cfg, sessionId, msgs + [IdrMsg(lastGood, p.streamId)], clock).media;
      i < |media| && media[i] == p.(idrRequests := p.idrRequests + 1)
  {
    hide OnFrame, Received, DriveBatches, Batches, After, DistinctStreams, IdrMsg;
    var s0 := Opening(cfg, sessionId);
    var p := WireAfter(cfg, sessionId, msgs, clock).media[i];
    var req := IdrMsg(lastGood, p.streamId);
    HeardOneMore(s0, msgs, req);
    IdrMsgHandled(After(s0, Heard(msgs)), lastGood, p.streamId);
    MediaFollowsSession(cfg, sessionId, Heard(msgs), clock);
    MediaFollowsSession(cfg, sessionId, Heard(msgs + [req]), clock);
    RequestCounts(cfg, Batches(s0, Heard(msgs)), p.streamId);
  }

  lemma {:induction false} RequestCounts(cfg: HostCfg, batches: seq<seq<Output>>, id: u16)
    ensures var outs, o := Flat(batches), RequestIdr(id);
      && Flat(batches + [[o]]) == outs + [o]
      && StartOf(outs + [o]) == StartOf(outs)
      && IdrsFor(outs + [o], id) == IdrsFor(outs, id) + 1 && Switches(outs + [o]) == Switches(outs)
  {
    var outs, o := Flat(batches), RequestIdr(id);
    assert (batches + [[o]])[..|batches|] == batches;
    assert (outs + [o])[..|outs|] == outs;
    CountOne(outs, o, id);
  }

  // ---------------------------------------------------------------- from the channel to the pipeline

  /** The IDR requests that a list of ticks has found in the channel. */
  function Found(ticks: seq<ML.Input>): nat {
    if ticks == [] then 0 else Found(ticks[..|ticks| - 1]) + ticks[|ticks| - 1].idrs
  }

  /** The tick that finds the request after the first `had` ones. */
  lemma {:induction false} TickThatFinds(ticks: seq<ML.Input>, had: nat) returns (k: nat)
    requires Found(ticks) > had
    ensures k < |ticks| && ticks[k].idrs > 0 && Found(ticks[..k]) <= had < Found(ticks[..k + 1])
    decreases |ticks|
  {
    var n := |ticks| - 1;
    assert ticks[..n + 1] == ticks;
    if Found(ticks[..n]) > had {
      k := TickThatFinds(ticks[..n], had);
      assert ticks[..n][..k] == ticks[..k] && ticks[..n][..k + 1] == ticks[..k + 1];
    } else {
      k := n;
    }
  }

  /** The packets of a recovery: before it only frames below `n`; then up to `n`, with all of frame `n`. */
  ghost predicate Recovers(
    received: seq<LR.Packet>, recovery: seq<LR.Packet>, streamId: u16, extra: seq<u16>, frames: seq<ML.SentFrame>, n: nat)
  {
    && LR.WellSent(frames) && Datagram.StreamKnown(streamId, extra) && n < |frames|
    && LR.AllGenuine(received, streamId, extra, frames, n)
    && LR.AllGenuine(recovery, streamId, extra, frames, n + 1)
    && LR.FrameArrived(recovery, streamId, frames[n])
  }

  /**
   One run of the whole system. The client, stuck at a gap, has logged a keyframe request; sent, it crosses the control
   stream as bytes and reaches the pipeline of its stream as one more channel entry. When the pipeline's ticks have
   found what was sent, one of them has found this request. With an encoder that delays its pictures by at most
   `delay`, a keyframe is among the next `delay` + 1 frames sent from there on, at once without delay; and once the
   datagrams of the first such keyframe are in, the client decodes from it.
   */
  lemma {:induction false} GapIsHealed(
    cfg: HostCfg, sessionId: seq<byte>, msgs: seq<Msg>, later: seq<byte>, clock: nat -> int, i: nat,
    received: seq<LR.Packet>, request: Reassembly.Event,
    kind: ML.SourceKind, ticks: seq<ML.Input>, delay: nat, recovery: seq<LR.Packet>, extra: seq<u16>) returns (k: nat)
    requires cfg.streams != [] && DistinctStreams(cfg) && forall m :: m in msgs ==> Sendable(m)
    requires After(Opening(cfg, sessionId), Heard(msgs)).phase == Streaming && request.IdrRequest?
    requires i < |WireAfter(cfg, sessionId, msgs, clock).media|
    requires
      var p := WireAfter(cfg, sessionId, msgs, clock).media[i];
      var req := IdrMsg(request.lastGood, p.streamId);
      var w := WireAfter(cfg, sessionId, msgs + [req], clock);
      && request in Reassembly.Run(LR.Arrivals(received, p.streamId, extra)).events
      && i < |w.media| && Found(ticks) == w.media[i].idrRequests
      && MD.DelayedRun(ML.Opened(kind, p.streamId, p.params), [], ticks, delay)
    ensures
      var s0 := Opening(cfg, sessionId);
      var p := WireAfter(cfg, sessionId, msgs, clock).media[i];
      var req := IdrMsg(request.lastGood, p.streamId);
      var s := ML.Opened(kind, p.streamId, p.params);
      && Serve(cfg, s0, Wire([], [], None), Stream(msgs + [req]) + later, clock, 0)
        == Serve(cfg, After(s0, Heard(msgs)), WireAfter(cfg, sessionId, msgs + [req], clock), later, clock, |msgs| + 1)
      && k < |ticks| && Found(ticks[..k]) <= p.idrRequests < Found(ticks[..k + 1])
      && var n, frames := |ML.After(s, ticks[..k]).frames|, ML.After(s, ticks).frames;
         && n <= |frames|
         && var c := MD.NextKey(frames, n);
            && (|frames| > n + delay ==> c <= n + delay)
            && (c < |frames| && Recovers(received, recovery, p.streamId, extra, frames, c) ==>
                var m := Reassembly.Run(LR.Arrivals(received + recovery, p.streamId, extra));
                (exists u :: Reassembly.Deliver(u, c, true) in m.events) && m.lastDecoded == Some(c))
  {
    hide OnFrame, Received, Batches, After, IdrMsg, Sendable, Serve, Stream, Heard, WireAfter;
    hide ML.After, MD.DelayedRun, LR.Arrivals, Reassembly.Run, LR.AllGenuine, LR.FrameArrived, LR.WellSent;
    var p := WireAfter(cfg, sessionId, msgs, clock).media[i];
    RequestServed(cfg, sessionId, msgs, later, clock, request.lastGood, p.streamId);
    OneMoreRequest(cfg, sessionId, msgs, clock, request.lastGood, i);
    k := TickThatFinds(ticks, p.idrRequests);
    KeyframeFollows(kind, p.streamId, p.params, ticks, k, delay);
    var s := ML.Opened(kind, p.streamId, p.params);
    var n, frames := |ML.After(s, ticks[..k]).frames|, ML.After(s, ticks).frames;
    var c := MD.NextKey(frames, n);
    if c < |frames| && Recovers(received, recovery, p.streamId, extra, frames, c) {
      LR.KeyframeEndsFreeze(frames, c, p.streamId, extra, received, recovery);
    }
  }

  lemma {:induction false} RequestServed(
    cfg: HostCfg, sessionId: seq<byte>, msgs: seq<Msg>, later: seq<byte>, clock: nat -> int, lastGood: u32, id: u16)
    requires cfg.streams != [] && forall m :: m in msgs ==> Sendable(m)
    requires After(Opening(cfg, sessionId), Heard(msgs)).phase == Streaming
    ensures
      var s0 := Opening(cfg, sessionId);
      var all := msgs + [IdrMsg(lastGood, id)];
      Serve(cfg, s0, Wire([], [], None), Stream(all) + later, clock, 0)
        == Serve(cfg, After(s0, Heard(msgs)), WireAfter(cfg, sessionId, all, clock), later, clock, |msgs| + 1)
  {
    hide OnFrame, Received, Batches, After, IdrMsg, Sendable, Serve, Stream, Heard, DriveBatches;
    var s0, req := Opening(cfg, sessionId), IdrMsg(lastGood, id);
    IdrMsgSendable(lastGood, id);
    IdrMsgHandled(After(s0, Heard(msgs)), lastGood, id);
    HeardOneMore(s0, msgs, req);
    ServesMessages(cfg, s0, Wire([], [], None), msgs + [req], later, clock, 0);
  }

  lemma {:induction false} KeyframeFollows(
    kind: ML.SourceKind, id: u16, params: ML.MediaParams, ticks: seq<ML.Input>, k: nat, delay: nat)
    requires k < |ticks| && ticks[k].idrs > 0 && MD.DelayedRun(ML.Opened(kind, id, params), [], ticks, delay)
    ensures
      var s := ML.Opened(kind, id, params);
      var n, frames := |ML.After(s, ticks[..k]).frames|, ML.After(s, ticks).frames;
      n <= |frames| && (|frames| > n + delay ==> MD.NextKey(frames, n) <= n + delay)
  {
    hide ML.After, MD.DelayedRun, MD.KeyWithin;
    var s := ML.Opened(kind, id, params);
    assert ticks == ticks[..k] + ([ticks[k]] + ticks[k + 1..]);
    MD.HonouredWithinDelay(kind, id, params, ticks[..k], ticks[k], ticks[k + 1..], delay);
    var n, frames := |ML.After(s, ticks[..k]).frames|, ML.After(s, ticks).frames;
    if |frames| > n + delay {
      MD.NextKeyWithin(frames, n, delay + 1);
    }
  }
}
