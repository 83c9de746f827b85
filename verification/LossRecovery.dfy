/**
 The whole loss-recovery pipeline: a media run's frames are cut into datagrams, the network loses, repeats, reorders
 and mixes them with foreign packets, and the client decodes, filters and reassembles what arrives.
 */
module LossRecovery {
  import opened Basics
  import opened Reassembly
  import opened ReassemblyRuns
  import opened ReassemblySafety
  import opened ReassemblyEvidence
  import opened ReassemblyRecovery
  import D = Datagram
  import opened MediaLoop
  import M = MediaLoopRuns

  /** A datagram as it arrives, with the client's clock. */
  datatype Packet = Packet(t: int, bytes: seq<byte>)

  // ---------------------------------------------------------------- the client's receive loop

  /** Drop what the decoder rejects and other streams' datagrams; push the rest. */
  function ArrivalOf(p: Packet, streamId: u16, extra: seq<u16>): seq<Arrival> {
    match D.Decode(p.bytes, extra)
    case Dropped(_) => []
    case Accepted(h, _) =>
      if h.streamId != streamId then []
      else [Arrival(p.t, Fragment(h.frameSeq, h.fragIndex, h.fragCount, h.keyframe))]
  }

  function Arrivals(packets: seq<Packet>, streamId: u16, extra: seq<u16>): seq<Arrival> {
    if packets == [] then []
    else Arrivals(packets[..|packets| - 1], streamId, extra) + ArrivalOf(packets[|packets| - 1], streamId, extra)
  }

  lemma {:induction false} NoArrivals(streamId: u16, extra: seq<u16>)
    ensures Arrivals([], streamId, extra) == []
  {
  }

  lemma {:induction false} NextArrival(packets: seq<Packet>, i: nat, streamId: u16, extra: seq<u16>)
    requires i < |packets|
    ensures Arrivals(packets[..i + 1], streamId, extra)
      == Arrivals(packets[..i], streamId, extra) + ArrivalOf(packets[i], streamId, extra)
  {
    hide ArrivalOf;
    assert packets[..i + 1][..i] == packets[..i];
  }

  method Receive(r: Reassembler, packets: seq<Packet>, streamId: u16, extra: seq<u16>)
    requires r.Valid()
    modifies r
    ensures r.Valid() && r.pushed == old(r.pushed) + Arrivals(packets, streamId, extra)
  {
    hide Run, Step, D.Decode, Arrivals;
    NoArrivals(streamId, extra);
    assert packets[..0] == [];
    for i := 0 to |packets|
      invariant r.Valid() && r.pushed == old(r.pushed) + Arrivals(packets[..i], streamId, extra)
    {
      NextArrival(packets, i, streamId, extra);
      var p := packets[i];
      var decoded := D.Decode(p.bytes, extra);
      if decoded.Accepted? && decoded.header.streamId == streamId {
        var h := decoded.header;
        r.Push(p.t, Fragment(h.frameSeq, h.fragIndex, h.fragCount, h.keyframe));
      }
    }
    assert packets[..|packets|] == packets;
  }

  lemma {:induction false} ArrivalsSplit(a: seq<Packet>, b: seq<Packet>, streamId: u16, extra: seq<u16>)
    ensures Arrivals(a + b, streamId, extra) == Arrivals(a, streamId, extra) + Arrivals(b, streamId, extra)
    decreases |b|
  {
    hide ArrivalOf;
    if b == [] {
      assert a + b == a;
    } else {
      var init := b[..|b| - 1];
      assert (a + b)[..|a + b| - 1] == a + init;
      ArrivalsSplit(a, init, streamId, extra);
    }
  }

  // ---------------------------------------------------------------- what the host sent

  /** At most 2^32 frames, none longer than 65535 datagrams can carry. */
  ghost predicate Sane(frames: seq<SentFrame>) {
    |frames| <= TWO_32 && forall i :: 0 <= i < |frames| ==> |frames[i].body| <= D.MAX_FRAGMENTS * D.MAX_PAYLOAD
  }

  /** A sane list of frames, numbered from 0. */
  ghost predicate WellSent(frames: seq<SentFrame>) {
    Sane(frames) && forall i :: 0 <= i < |frames| ==> frames[i].frameSeq == i
  }

  function CountOf(f: SentFrame): nat {
    D.FragmentCount(|f.body|)
  }

  function PlanOf(frames: seq<SentFrame>): (plan: seq<Plan>)
    ensures |plan| == |frames|
  {
    seq(|frames|, i requires 0 <= i < |frames| => Plan(CountOf(frames[i]), frames[i].keyframe))
  }

  /** A packet the client ignores, or one of the datagrams of a frame below `hi`. */
  ghost predicate Genuine(p: Packet, streamId: u16, extra: seq<u16>, frames: seq<SentFrame>, hi: nat) {
    || ArrivalOf(p, streamId, extra) == []
    || exists i, j: nat :: 0 <= i < hi && i < |frames| && M.FragmentOf(p.bytes, streamId, frames[i], j)
  }

  ghost predicate AllGenuine(ps: seq<Packet>, streamId: u16, extra: seq<u16>, frames: seq<SentFrame>, hi: nat) {
    forall k :: 0 <= k < |ps| ==> Genuine(ps[k], streamId, extra, frames, hi)
  }

  /** The datagram itself, byte for byte, is among the packets. */
  ghost predicate Arrived(ps: seq<Packet>, datagram: seq<byte>) {
    exists k :: 0 <= k < |ps| && ps[k].bytes == datagram
  }

  ghost predicate FrameArrived(ps: seq<Packet>, streamId: u16, f: SentFrame) {
    var d := D.Fragments(streamId, f.frameSeq, f.keyframe, f.body);
    forall j :: 0 <= j < |d| ==> Arrived(ps, d[j])
  }

  /** A sent datagram arrives as the fragment it is. */
  lemma {:induction false} FragmentArrives(p: Packet, streamId: u16, extra: seq<u16>, frames: seq<SentFrame>, i: nat, j: nat)
    requires WellSent(frames) && i < |frames| && D.StreamKnown(streamId, extra)
    requires M.FragmentOf(p.bytes, streamId, frames[i], j)
    ensures CountOf(frames[i]) < TWO_16
    ensures ArrivalOf(p, streamId, extra) == [Arrival(p.t, Fragment(i, j, CountOf(frames[i]), frames[i].keyframe))]
  {
    hide D.Decode, D.FragmentAt;
    var f := frames[i];
    D.DecodesIffCountFits(streamId, f.frameSeq, f.keyframe, f.body, extra);
    assert D.DecodesAsSent(streamId, f.frameSeq, f.keyframe, f.body, j, extra);
  }

  /** The fragment an arrival stands for. */
  lemma {:induction false} ArrivalIsGenuine(
    p: Packet, streamId: u16, extra: seq<u16>, frames: seq<SentFrame>, hi: nat)
    returns (j: nat)
    requires WellSent(frames) && D.StreamKnown(streamId, extra) && hi <= |frames|
    requires Genuine(p, streamId, extra, frames, hi) && ArrivalOf(p, streamId, extra) != []
    ensures var f := ArrivalOf(p, streamId, extra)[0].frag;
      && f.frameSeq < hi && f.fragIndex == j && f.fragCount == CountOf(frames[f.frameSeq])
      && f.keyframe == frames[f.frameSeq].keyframe && j < CountOf(frames[f.frameSeq])
      && M.FragmentOf(p.bytes, streamId, frames[f.frameSeq], j)
  {
    hide D.Decode, D.FragmentAt, ArrivalOf;
    var i;
    i, j :| 0 <= i < hi && i < |frames| && M.FragmentOf(p.bytes, streamId, frames[i], j);
    FragmentArrives(p, streamId, extra, frames, i, j);
  }

  ghost predicate ConformsBelow(plan: seq<Plan>, trace: seq<Arrival>, hi: nat) {
    forall k :: 0 <= k < |trace| ==> Conforms(plan, trace[k].frag) && trace[k].frag.frameSeq < hi
  }

  lemma {:induction false} PacketConforms(
    p: Packet, streamId: u16, extra: seq<u16>, frames: seq<SentFrame>, hi: nat)
    requires WellSent(frames) && D.StreamKnown(streamId, extra) && hi <= |frames|
    requires Genuine(p, streamId, extra, frames, hi)
    ensures ConformsBelow(PlanOf(frames), ArrivalOf(p, streamId, extra), hi)
  {
    hide ArrivalOf, Genuine, M.FragmentOf, WellSent;
    OneArrival(p, streamId, extra);
    if ArrivalOf(p, streamId, extra) != [] {
      var _ := ArrivalIsGenuine(p, streamId, extra, frames, hi);
    }
  }

  lemma {:induction false} ArrivalsConform(
    ps: seq<Packet>, streamId: u16, extra: seq<u16>, frames: seq<SentFrame>, hi: nat)
    requires WellSent(frames) && D.StreamKnown(streamId, extra) && hi <= |frames|
    requires AllGenuine(ps, streamId, extra, frames, hi)
    ensures ConformsBelow(PlanOf(frames), Arrivals(ps, streamId, extra), hi)
    decreases |ps|
  {
    hide ArrivalOf, Genuine, Conforms, PlanOf;
    if ps != [] {
      ArrivalsConform(ps[..|ps| - 1], streamId, extra, frames, hi);
      PacketConforms(ps[|ps| - 1], streamId, extra, frames, hi);
    }
  }

  lemma {:induction false} OneArrival(p: Packet, streamId: u16, extra: seq<u16>)
    ensures |ArrivalOf(p, streamId, extra)| <= 1
  {
  }

  /** A fragment the reassembler has seen did arrive, byte for byte. */
  lemma {:induction false} SeenArrived(
    ps: seq<Packet>, streamId: u16, extra: seq<u16>, frames: seq<SentFrame>, s: nat, j: nat)
    requires WellSent(frames) && D.StreamKnown(streamId, extra) && s < |frames| && j < CountOf(frames[s])
    requires AllGenuine(ps, streamId, extra, frames, |frames|)
    requires Seen(Arrivals(ps, streamId, extra), s, j)
    ensures Arrived(ps, D.Fragments(streamId, frames[s].frameSeq, frames[s].keyframe, frames[s].body)[j])
    decreases |ps|
  {
    hide ArrivalOf, Genuine, D.FragmentAt;
    var trace := Arrivals(ps, streamId, extra);
    var k :| 0 <= k < |trace| && trace[k].frag.frameSeq == s && trace[k].frag.fragIndex == j;
    var init, p := ps[..|ps| - 1], ps[|ps| - 1];
    var before := Arrivals(init, streamId, extra);
    if k < |before| {
      assert before[k] == trace[k];
      SeenArrived(init, streamId, extra, frames, s, j);
      var n :| 0 <= n < |init| && init[n].bytes
        == D.Fragments(streamId, frames[s].frameSeq, frames[s].keyframe, frames[s].body)[j];
      assert ps[n] == init[n];
    } else {
      OneArrival(p, streamId, extra);
      assert ArrivalOf(p, streamId, extra)[0] == trace[k];
      var _ := ArrivalIsGenuine(p, streamId, extra, frames, |frames|);
      assert ps[|ps| - 1].bytes == D.Fragments(streamId, frames[s].frameSeq, frames[s].keyframe, frames[s].body)[j];
    }
  }

  // ---------------------------------------------------------------- safety, end to end

  /** What a delivery guarantees: a sent frame, its own flag, all of its datagrams, and through them its body. */
  ghost predicate FaithfulDelivery(e: Event, ps: seq<Packet>, streamId: u16, frames: seq<SentFrame>) {
    && e.Deliver? && e.frameSeq < |frames|
    && var f := frames[e.frameSeq];
       var d := D.Fragments(streamId, f.frameSeq, f.keyframe, f.body);
       && e.keyframe == f.keyframe
       && FrameArrived(ps, streamId, f)
       && D.Concat(D.Payloads(d, |d|)) == f.body
  }

  lemma {:induction false} DeliveryIsFaithful(
    e: Event, ps: seq<Packet>, streamId: u16, extra: seq<u16>, frames: seq<SentFrame>)
    requires WellSent(frames) && D.StreamKnown(streamId, extra) && AllGenuine(ps, streamId, extra, frames, |frames|)
    requires e.Deliver? && Whole(PlanOf(frames), Arrivals(ps, streamId, extra), e.frameSeq, e.keyframe)
    ensures FaithfulDelivery(e, ps, streamId, frames)
  {
    hide Seen, Arrived, D.Fragments, Genuine, Arrivals;
    var f := frames[e.frameSeq];
    var d := D.Fragments(streamId, f.frameSeq, f.keyframe, f.body);
    D.PayloadsAreBody(streamId, f.frameSeq, f.keyframe, f.body);
    forall j | 0 <= j < |d|
      ensures Arrived(ps, d[j])
    {
      SeenArrived(ps, streamId, extra, frames, e.frameSeq, j);
    }
  }

  lemma {:induction false} DeliveriesAreEvents(es: seq<Event>)
    ensures forall e :: e in Deliveries(es) ==> e in es && e.Deliver?
  {
    if es != [] {
      DeliveriesAreEvents(es[..|es| - 1]);
    }
  }

  /**
   Under any loss, repetition and reordering: deliveries strictly increase, a delta frame comes right after its
   reference, and each delivered frame is one the host sent, with its flag, all of whose datagrams have arrived.
   */
  lemma {:induction false} EndToEnd(ps: seq<Packet>, streamId: u16, extra: seq<u16>, frames: seq<SentFrame>)
    requires WellSent(frames) && D.StreamKnown(streamId, extra) && AllGenuine(ps, streamId, extra, frames, |frames|)
    ensures var d := Deliveries(Run(Arrivals(ps, streamId, extra)).events);
      && (forall i :: 0 <= i < |d| ==> FaithfulDelivery(d[i], ps, streamId, frames))
      && (forall i, j :: 0 <= i < j < |d| ==> d[i].frameSeq < d[j].frameSeq)
      && (forall i :: 0 <= i < |d| && !d[i].keyframe ==> 0 < i && d[i - 1].frameSeq + 1 == d[i].frameSeq)
  {
    hide Run, Whole, Deliveries, FaithfulDelivery, Arrivals, AllGenuine, WellSent;
    var trace := Arrivals(ps, streamId, extra);
    var es := Run(trace).events;
    ArrivalsConform(ps, streamId, extra, frames, |frames|);
    DeliveredIsWhole(PlanOf(frames), trace);
    NeverUndecodable(trace);
    DeliveriesAreEvents(es);
    var d := Deliveries(es);
    forall i | 0 <= i < |d|
      ensures FaithfulDelivery(d[i], ps, streamId, frames)
    {
      assert d[i] in d;
      DeliveryIsFaithful(d[i], ps, streamId, extra, frames);
    }
  }

  // ---------------------------------------------------------------- recovery, end to end

  /** Every datagram of frame `n` arrives among the packets. */
  lemma {:induction false} ArrivedSeen(
    ps: seq<Packet>, streamId: u16, extra: seq<u16>, frames: seq<SentFrame>, n: nat, j: nat)
    requires WellSent(frames) && D.StreamKnown(streamId, extra) && n < |frames| && j < CountOf(frames[n])
    requires Arrived(ps, D.Fragments(streamId, frames[n].frameSeq, frames[n].keyframe, frames[n].body)[j])
    ensures Seen(Arrivals(ps, streamId, extra), n, j)
    decreases |ps|
  {
    hide ArrivalOf, D.FragmentAt;
    var f := frames[n];
    var k :| 0 <= k < |ps| && ps[k].bytes == D.Fragments(streamId, f.frameSeq, f.keyframe, f.body)[j];
    var init, p := ps[..|ps| - 1], ps[|ps| - 1];
    var before := Arrivals(init, streamId, extra);
    var trace := Arrivals(ps, streamId, extra);
    if k < |init| {
      assert init[k] == ps[k];
      ArrivedSeen(init, streamId, extra, frames, n, j);
      var q :| 0 <= q < |before| && before[q].frag.frameSeq == n && before[q].frag.fragIndex == j;
      assert trace[q] == before[q];
    } else {
      FragmentArrives(p, streamId, extra, frames, n, j);
      assert trace[|before|] == ArrivalOf(p, streamId, extra)[0];
    }
  }

  lemma {:induction false} GroupOfPackets(
    ps: seq<Packet>, streamId: u16, extra: seq<u16>, frames: seq<SentFrame>, n: nat)
    requires WellSent(frames) && D.StreamKnown(streamId, extra) && n < |frames|
    requires AllGenuine(ps, streamId, extra, frames, n + 1) && FrameArrived(ps, streamId, frames[n])
    ensures Group(Arrivals(ps, streamId, extra), n, PlanOf(frames)[n])
    ensures Covers(Arrivals(ps, streamId, extra), n, PlanOf(frames)[n])
  {
    hide Arrivals, Genuine, Arrived, Seen, D.FragmentAt;
    ArrivalsConform(ps, streamId, extra, frames, n + 1);
    var trace := Arrivals(ps, streamId, extra);
    forall j | 0 <= j < CountOf(frames[n])
      ensures Seen(trace, n, j)
    {
      ArrivedSeen(ps, streamId, extra, frames, n, j);
    }
  }

  /** Whatever the client has been through, a keyframe whose datagrams all arrive among older ones is decoded. */
  lemma {:induction false} KeyframeEndsFreeze(
    frames: seq<SentFrame>, n: nat, streamId: u16, extra: seq<u16>, received: seq<Packet>, recovery: seq<Packet>)
    requires WellSent(frames) && D.StreamKnown(streamId, extra) && n < |frames| && frames[n].keyframe
    requires AllGenuine(received, streamId, extra, frames, n)
    requires AllGenuine(recovery, streamId, extra, frames, n + 1) && FrameArrived(recovery, streamId, frames[n])
    ensures
      var m := Run(Arrivals(received + recovery, streamId, extra));
      && (exists t :: Deliver(t, n, true) in m.events)
      && m.lastDecoded == Some(n) && m.incomplete == map[]
  {
    hide Arrivals, AllGenuine, FrameArrived, Run, Group, Covers;
    ArrivalsConform(received, streamId, extra, frames, n);
    GroupOfPackets(recovery, streamId, extra, frames, n);
    KeyframeRecovers(Arrivals(received, streamId, extra), Arrivals(recovery, streamId, extra), n, CountOf(frames[n]));
    ArrivalsSplit(received, recovery, streamId, extra);
  }

  /**
   The circle closes: whatever the client has been through, once the host has taken in an IDR request the next frame
   it sends is a keyframe, and if that frame's datagrams all arrive, in any order and among any older ones, the
   client decodes again from it.
   */
  lemma {:induction false} RequestEndsFreeze(
    kind: SourceKind, streamId: u16, params: MediaParams,
    before: seq<Input>, ask: Input, rest: seq<Input>,
    received: seq<Packet>, recovery: seq<Packet>, extra: seq<u16>)
    requires ask.idrs > 0
    requires var s := After(Opened(kind, streamId, params), before);
      M.HonestRun(s, [ask] + rest) && M.OneInOneOutRun(s, [ask] + rest)
    requires
      var n := |After(Opened(kind, streamId, params), before).frames|;
      var frames := After(Opened(kind, streamId, params), before + [ask] + rest).frames;
      && WellSent(frames) && D.StreamKnown(streamId, extra) && n < |frames|
      && AllGenuine(received, streamId, extra, frames, n)
      && AllGenuine(recovery, streamId, extra, frames, n + 1)
      && FrameArrived(recovery, streamId, frames[n])
    ensures
      var n := |After(Opened(kind, streamId, params), before).frames|;
      var m := Run(Arrivals(received + recovery, streamId, extra));
      && (exists t :: Deliver(t, n, true) in m.events)
      && m.lastDecoded == Some(n) && m.incomplete == map[]
  {
    hide OnTick, M.HonestRun, M.OneInOneOutRun, After, Arrivals, AllGenuine, FrameArrived, Run;
    var n := |After(Opened(kind, streamId, params), before).frames|;
    var frames := After(Opened(kind, streamId, params), before + [ask] + rest).frames;
    M.RequestIsHonoured(kind, streamId, params, before, ask, rest);
    KeyframeEndsFreeze(frames, n, streamId, extra, received, recovery);
  }

  /** Packets off the wire, and others that the client ignores. */
  ghost predicate OffWire(ps: seq<Packet>, wire: seq<seq<byte>>, streamId: u16, extra: seq<u16>) {
    forall k :: 0 <= k < |ps| ==> ps[k].bytes in wire || ArrivalOf(ps[k], streamId, extra) == []
  }

  /** What a sane media run sent is well sent. */
  lemma {:induction false} MediaRunIsWellSent(kind: SourceKind, streamId: u16, params: MediaParams, inputs: seq<Input>)
    requires Sane(After(Opened(kind, streamId, params), inputs).frames)
    ensures WellSent(After(Opened(kind, streamId, params), inputs).frames)
  {
    M.FramesAreConsecutive(kind, streamId, params, inputs);
    var f := After(Opened(kind, streamId, params), inputs).frames;
    forall i | 0 <= i < |f|
      ensures i % TWO_32 == i
    {
      Remainder(i, TWO_32, 0, i);
    }
  }

  /** Packets that were put on the wire by the media run are genuine. */
  lemma {:induction false} WireIsGenuine(
    kind: SourceKind, streamId: u16, params: MediaParams, inputs: seq<Input>, ps: seq<Packet>, extra: seq<u16>)
    requires OffWire(ps, After(Opened(kind, streamId, params), inputs).wire, streamId, extra)
    ensures var s := After(Opened(kind, streamId, params), inputs);
      AllGenuine(ps, streamId, extra, s.frames, |s.frames|)
  {
    hide ArrivalOf, M.FragmentOf;
    var s := After(Opened(kind, streamId, params), inputs);
    M.WireIsFragments(Opened(kind, streamId, params), inputs);
    M.FramesAreConsecutive(kind, streamId, params, inputs);
    forall k | 0 <= k < |ps|
      ensures Genuine(ps[k], streamId, extra, s.frames, |s.frames|)
    {
      if ps[k].bytes in s.wire {
        assert M.OnWire(s, ps[k].bytes);
      }
    }
  }

  /**
   From the encoder to the decoder: take any media run, let the network deliver any of its datagrams any number of
   times in any order, mixed with packets the client ignores; what the client decodes is faithful to what was sent.
   */
  lemma {:induction false} HostToClient(
    kind: SourceKind, streamId: u16, params: MediaParams, inputs: seq<Input>, ps: seq<Packet>, extra: seq<u16>)
    requires D.StreamKnown(streamId, extra)
    requires var s := After(Opened(kind, streamId, params), inputs);
      Sane(s.frames) && OffWire(ps, s.wire, streamId, extra)
    ensures
      var frames := After(Opened(kind, streamId, params), inputs).frames;
      var d := Deliveries(Run(Arrivals(ps, streamId, extra)).events);
      && (forall i :: 0 <= i < |d| ==> FaithfulDelivery(d[i], ps, streamId, frames))
      && (forall i, j :: 0 <= i < j < |d| ==> d[i].frameSeq < d[j].frameSeq)
      && (forall i :: 0 <= i < |d| && !d[i].keyframe ==> 0 < i && d[i - 1].frameSeq + 1 == d[i].frameSeq)
  {
    hide After, Run, Deliveries, FaithfulDelivery, Arrivals, AllGenuine, WellSent, Sane, OffWire;
    MediaRunIsWellSent(kind, streamId, params, inputs);
    WireIsGenuine(kind, streamId, params, inputs, ps, extra);
    EndToEnd(ps, streamId, extra, After(Opened(kind, streamId, params), inputs).frames);
  }

  /** The same for an extra display, of which nothing is known but that its stream was negotiated. */
  lemma {:induction false} HostToExtraDisplay(
    kind: SourceKind, streamId: u16, params: MediaParams, inputs: seq<Input>, ps: seq<Packet>, extra: seq<u16>)
    requires streamId in extra
    requires var s := After(Opened(kind, streamId, params), inputs);
      Sane(s.frames) && OffWire(ps, s.wire, streamId, extra)
    ensures
      var frames := After(Opened(kind, streamId, params), inputs).frames;
      var d := Deliveries(Run(Arrivals(ps, streamId, extra)).events);
      && (forall i :: 0 <= i < |d| ==> FaithfulDelivery(d[i], ps, streamId, frames))
      && (forall i, j :: 0 <= i < j < |d| ==> d[i].frameSeq < d[j].frameSeq)
      && (forall i :: 0 <= i < |d| && !d[i].keyframe ==> 0 < i && d[i - 1].frameSeq + 1 == d[i].frameSeq)
  {
    hide After, Run, Deliveries, FaithfulDelivery, Arrivals, Sane, OffWire;
    HostToClient(kind, streamId, params, inputs, ps, extra);
  }

  /** And it does not stay dark: a keyframe of its stream is decoded once its datagrams are in. */
  lemma {:induction false} ExtraDisplayRecovers(
    frames: seq<SentFrame>, n: nat, streamId: u16, extra: seq<u16>, received: seq<Packet>, recovery: seq<Packet>)
    requires WellSent(frames) && streamId in extra && n < |frames| && frames[n].keyframe
    requires AllGenuine(received, streamId, extra, frames, n)
    requires AllGenuine(recovery, streamId, extra, frames, n + 1) && FrameArrived(recovery, streamId, frames[n])
    ensures exists t :: Deliver(t, n, true) in Run(Arrivals(received + recovery, streamId, extra)).events
  {
    hide WellSent, AllGenuine, FrameArrived, Run, Arrivals;
    KeyframeEndsFreeze(frames, n, streamId, extra, received, recovery);
  }
}
