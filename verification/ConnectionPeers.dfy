/**
 Host and client over the two byte streams themselves: the client frames what it says, the host runs one round of its
 connection loop at a time, and the client reads what the driver has written. Every run of bytes follows a run of
 messages, so the promises about interleavings hold of the bytes.
 */
module ConnectionPeers {
  import opened Basics
  import opened Cbor
  import opened CborReading
  import opened Control
  import opened ControlStream
  import opened Session
  import opened SessionTrace
  import opened T = SessionTransport
  import opened Connection
  import opened ConnectionRuns
  import opened ConnectionEffects
  import opened ReplySizes
  import opened SessionPeers
  import opened SessionProgress

  /** `up` is what the host has not read yet; the client has read `heard` of the bytes written to it. */
  datatype Link = Link(host: State, wire: Wire, frames: nat, client: Client, up: seq<byte>, heard: nat)

  datatype Move = Say(m: Msg) | Hear | Work

  function Dialled(cfg: HostCfg, sessionId: seq<byte>): Link
    requires cfg.streams != []
  {
    Link(Opening(cfg, sessionId), Wire([], [], None), 0, Client(false, false, false, [], []), [], 0)
  }

  function Down(l: Link): seq<byte> {
    if l.heard <= |l.wire.sent| then l.wire.sent[l.heard..] else []
  }

  /** A conforming client: what it may say next, as long as the message fits a frame. */
  predicate MaySay(c: Client, m: Msg) {
    && !c.gone && Sendable(m)
    && (|| (m.msgType == HELLO && !c.greeted && ValidHello(m.body))
        || (m.msgType == CONFIG_ACK && c.owed != [] && IntKey(m.body, 0) == c.owed[0])
        || (IsStreamMessage(m.msgType) && c.playing)
        || m.msgType == BYE || m.msgType == CLOCK_PING || KnownKeys(m.msgType).None?)
  }

  function HavingSaid(c: Client, m: Msg): Client {
    if m.msgType == HELLO then c.(greeted := true)
    else if m.msgType == CONFIG_ACK && c.owed != [] then c.(owed := c.owed[1..])
    else if m.msgType == BYE then c.(gone := true)
    else c
  }

  function HavingHeard(c: Client, r: Result<Decoded>): Client {
    if r.Ok? && r.value.Message? then Take(c, Msg(r.value.msgType, r.value.body)) else c
  }

  /** The client can read once a whole frame is there; so can the host, until its connection is closed. */
  predicate Enabled(l: Link, v: Move) {
    match v
    case Say(m) => MaySay(l.client, m)
    case Hear => TakeFrame(Down(l)).frame.FrameBytes?
    case Work => l.wire.closed.None? && TakeFrame(l.up).frame.FrameBytes?
  }

  /** `Work` is one round of the connection loop, `Connection.Serve`. */
  function Advance(cfg: HostCfg, clock: nat -> int, l: Link, v: Move): Link
    requires cfg.streams != [] && Enabled(l, v)
  {
    match v
    case Say(m) => l.(client := HavingSaid(l.client, m), up := l.up + Frame(m.msgType, m.body))
    case Hear =>
      var bytes := TakeFrame(Down(l)).frame.bytes;
      l.(client := HavingHeard(l.client, Unframe(bytes)), heard := l.heard + |bytes|)
    case Work =>
      var t := TakeFrame(l.up);
      match Unframe(t.frame.bytes)
      case ProtocolViolation =>
        l.(wire := l.wire.(sent := l.wire.sent + Frame(ERROR, BadFrameBody()), closed := Some(PROTOCOL_VIOLATION)),
           up := t.rest, frames := l.frames + 1)
      case Ok(d) =>
        var e := OnFrame(l.host, d);
        l.(host := e.state, wire := DriveAll(cfg, l.wire, e.outputs, clock(l.frames)), up := t.rest, frames := l.frames + 1)
  }

  ghost predicate IsLinkRun(cfg: HostCfg, sessionId: seq<byte>, clock: nat -> int, ls: seq<Link>, moves: seq<Move>)
    requires cfg.streams != []
  {
    && |ls| == |moves| + 1 && ls[0] == Dialled(cfg, sessionId)
    && forall i :: 0 <= i < |moves| ==> Enabled(ls[i], moves[i]) && ls[i + 1] == Advance(cfg, clock, ls[i], moves[i])
  }

  // ---------------------------------------------------------------- bytes follow messages

  predicate SameClient(c: Client, p: Client) {
    && c.greeted == p.greeted && c.playing == p.playing && c.gone == p.gone && c.owed == p.owed
    && |c.configs| == |p.configs|
    && forall i :: 0 <= i < |c.configs| ==> Message(CONFIG, c.configs[i]) == Received(Msg(CONFIG, p.configs[i]))
  }

  predicate AllSendable(msgs: seq<Msg>) {
    forall m :: m in msgs ==> Sendable(m)
  }

  /** The link is at message state `y`, with `ups` on the way to the host and `downs` on the way to the client. */
  predicate Carries(l: Link, y: System, ups: seq<Msg>, downs: seq<Msg>) {
    && l.host == y.host && SameClient(l.client, y.client)
    && l.up == Stream(ups) && y.toHost == T.Sent(ups) && AllSendable(ups)
    && l.heard <= |l.wire.sent| && Down(l) == Stream(downs) && y.toClient == downs && AllSendable(downs)
    && (l.host.phase == Closed <==> l.wire.closed.Some?) && (l.wire.closed.Some? ==> l.wire.closed == Some(NONE))
  }

  predicate InTime(clock: nat -> int, l: Link) {
    0 <= clock(l.frames) < TWO_64
  }

  lemma {:induction false} SentOneMore(msgs: seq<Msg>, m: Msg)
    ensures T.Sent(msgs + [m]) == T.Sent(msgs) + [AsSent(m)]
  {
    hide AsSent;
    assert (msgs + [m])[..|msgs|] == msgs;
  }

  lemma {:induction false} SentFirst(msgs: seq<Msg>)
    requires msgs != []
    ensures T.Sent(msgs) == [AsSent(msgs[0])] + T.Sent(msgs[1..])
  {
    hide AsSent;
    var init, last := msgs[..|msgs| - 1], msgs[|msgs| - 1];
    if init == [] {
      assert msgs[1..] == [];
    } else {
      SentFirst(init);
      assert msgs[1..] == init[1..] + [last];
      SentOneMore(init[1..], last);
    }
  }

  lemma {:induction false} FirstFrame(msgs: seq<Msg>)
    requires AllSendable(msgs)
    ensures TakeFrame(Stream(msgs)) ==
      if msgs == [] then Taken(Eof, []) else Taken(FrameBytes(Frame(msgs[0].msgType, msgs[0].body)), Stream(msgs[1..]))
    ensures msgs != [] ==> Unframe(Frame(msgs[0].msgType, msgs[0].body)) == Ok(Received(msgs[0]))
  {
    hide TakeFrame, Frame, Unframe, Received;
    if msgs == [] {
      EmptyStreamEnds();
    } else {
      TakesOwnFrame(msgs[0], Stream(msgs[1..]));
      FrameRoundTrip(msgs[0]);
    }
  }

  // ---------------------------------------------------------------- the client speaks

  function SayAction(m: Msg): Action {
    if m.msgType == HELLO then Greet(m.body)
    else if m.msgType == CONFIG_ACK then Ack(m.body)
    else if m.msgType == BYE then Leave(m.body)
    else if IsStreamMessage(m.msgType) then Play(m.msgType, m.body)
    else Chatter(AsSent(m))
  }

  lemma {:induction false} SayIsAllowed(y: System, c: Client, m: Msg)
    requires SameClient(c, y.client) && MaySay(c, m)
    ensures Allowed(y, SayAction(m))
    ensures var z := Next(y, SayAction(m));
      && SameClient(HavingSaid(c, m), z.client) && z.toHost == y.toHost + [AsSent(m)]
      && z.host == y.host && z.toClient == y.toClient
  {
    hide IntKey, OffersCodec, Received, Sendable;
  }

  lemma {:induction false} SayCarries(
    cfg: HostCfg, clock: nat -> int, l: Link, y: System, ups: seq<Msg>, downs: seq<Msg>, m: Msg)
    requires cfg.streams != [] && Carries(l, y, ups, downs) && Enabled(l, Say(m))
    ensures Allowed(y, SayAction(m))
    ensures Carries(Advance(cfg, clock, l, Say(m)), Next(y, SayAction(m)), ups + [m], downs)
  {
    hide Allowed, Next, SayAction, SameClient, HavingSaid, Sendable, Frame, AsSent, T.Sent;
    SayIsAllowed(y, l.client, m);
    SentOneMore(ups, m);
    StreamAppends(ups, [m]);
    assert Stream([m]) == Frame(m.msgType, m.body) by { StreamOfOne(m); }
    MaySayFits(l.client, m);
  }

  lemma {:induction false} StreamOfOne(m: Msg)
    ensures Stream([m]) == Frame(m.msgType, m.body)
  {
    hide Frame;
    assert [m][1..] == [];
  }

  lemma {:induction false} MaySayFits(c: Client, m: Msg)
    requires MaySay(c, m)
    ensures Sendable(m)
  {
  }

  // ---------------------------------------------------------------- the client reads

  lemma {:induction false} HearsSame(c: Client, p: Client, m: Msg)
    requires SameClient(c, p)
    ensures SameClient(HavingHeard(c, Ok(Received(m))), Take(p, m))
  {
    hide IntKey, KeepKnown, SortEntries, CanonEach;
    if m.msgType == CONFIG {
      LookupsSurvive(m, 0, 0);
      assert m == Msg(CONFIG, m.body);
    }
  }

  lemma {:induction false} HearCarries(
    cfg: HostCfg, clock: nat -> int, l: Link, y: System, ups: seq<Msg>, downs: seq<Msg>)
    requires cfg.streams != [] && Carries(l, y, ups, downs) && Enabled(l, Hear)
    ensures downs != [] && Allowed(y, ClientReads)
    ensures Carries(Advance(cfg, clock, l, Hear), Next(y, ClientReads), ups, downs[1..])
  {
    hide TakeFrame, Frame, Unframe, Received, SameClient, Sendable, T.Sent, Take, HavingHeard;
    FirstFrame(downs);
    HearsSame(l.client, y.client, downs[0]);
    var bytes, l' := Frame(downs[0].msgType, downs[0].body), Advance(cfg, clock, l, Hear);
    assert Down(l) == bytes + Stream(downs[1..]);
    assert l'.wire.sent[l'.heard..] == Down(l)[|bytes|..];
  }

  // ---------------------------------------------------------------- the host's round

  /** What one round does to the wire, when the session does not fail. */
  lemma {:induction false} RoundWrites(cfg: HostCfg, s: State, w: Wire, d: Decoded, now: int)
    requires cfg.streams != [] && s.phase != Closed && w.closed.None? && NoFailure(OnFrame(s, d), d)
    ensures var e := OnFrame(s, d);
      var w' := DriveAll(cfg, w, e.outputs, now);
      && w'.sent == w.sent + Stream(Replies(e.outputs, now))
      && (e.state.phase == Closed <==> w'.closed.Some?) && (w'.closed.Some? ==> w'.closed == Some(NONE))
  {
    hide OnFrame, DriveAll, Stream, Replies, BatchFits;
    StepCloses(s, d);
    var b := OnFrame(s, d).outputs;
    OneBatchFits(b, d);
    DriveCloses(cfg, w, b, now);
    BatchWrites(cfg, w, b, now);
    if ClosesAtEnd(b) {
      assert b[|b| - 1] in b;
    }
  }

  lemma {:induction false} RoundReplies(s: State, d: Decoded, g: nat, now: int)
    requires StateSmall(s, g) && g + 1 < TWO_64 && 0 <= now < TWO_64
    ensures StateSmall(OnFrame(s, d).state, g + 1) && AllSendable(Replies(OnFrame(s, d).outputs, now))
  {
    hide OnFrame, StateSmall, OutputSmall, Sendable, Replies;
    StepSmall(s, d, g);
    RepliesSendable(OnFrame(s, d).outputs, now);
  }

  lemma {:induction false} WorkCarries(
    cfg: HostCfg, clock: nat -> int, l: Link, y: System, ups: seq<Msg>, downs: seq<Msg>, g: nat)
    returns (more: seq<Msg>)
    requires cfg.streams != [] && Carries(l, y, ups, downs) && Enabled(l, Work) && SessionPeers.Inv(y)
    requires StateSmall(l.host, g) && g + 1 < TWO_64 && InTime(clock, l)
    ensures ups != [] && Allowed(y, HostReads(clock(l.frames)))
    ensures Unframe(TakeFrame(l.up).frame.bytes) == Ok(Received(ups[0]))
    ensures NoFailure(OnFrame(l.host, Received(ups[0])), Received(ups[0]))
    ensures var l' := Advance(cfg, clock, l, Work);
      && Carries(l', Next(y, HostReads(clock(l.frames))), ups[1..], downs + more) && StateSmall(l'.host, g + 1)
  {
    hide OnFrame, DriveAll, TakeFrame, Frame, Unframe, Received, AsSent, SameClient, Sendable, T.Sent, Stream, Replies;
    hide NoFailure, SessionPeers.Inv, StateSmall;
    FirstFrame(ups);
    SentFirst(ups);
    var m, now := ups[0], clock(l.frames);
    TransportIsTransparent(l.host, m);
    HostKeeps(y, now);
    SameFailure(OnFrame(l.host, Received(m)), m);
    RoundWrites(cfg, l.host, l.wire, Received(m), now);
    RoundReplies(l.host, Received(m), g, now);
    more := Replies(OnFrame(l.host, Received(m)).outputs, now);
    StreamAppends(downs, more);
    var w' := DriveAll(cfg, l.wire, OnFrame(l.host, Received(m)).outputs, now);
    assert w'.sent[l.heard..] == l.wire.sent[l.heard..] + Stream(more);
  }

  /** Whether a batch is a failure does not depend on which form of the message caused it. */
  lemma {:induction false} SameFailure(e: Effect, m: Msg)
    ensures NoFailure(e, AsSent(m)) ==> NoFailure(e, Received(m))
  {
    hide KeepKnown, SortEntries, CanonEach;
  }

  // ---------------------------------------------------------------- every run of bytes

  ghost predicate Tracked(l: Link, y: System, ups: seq<Msg>, downs: seq<Msg>, g: nat) {
    Carries(l, y, ups, downs) && SessionPeers.Inv(y) && StateSmall(l.host, g)
  }

  function MoveAction(clock: nat -> int, l: Link, v: Move): Action {
    match v
    case Say(m) => SayAction(m)
    case Hear => ClientReads
    case Work => HostReads(clock(l.frames))
  }

  /** A move over the bytes is an action over the messages. */
  lemma {:induction false} MoveTracked(
    cfg: HostCfg, clock: nat -> int, l: Link, v: Move, y: System, ups: seq<Msg>, downs: seq<Msg>, g: nat)
    returns (ups': seq<Msg>, downs': seq<Msg>)
    requires cfg.streams != [] && Tracked(l, y, ups, downs, g) && Enabled(l, v) && g + 1 < TWO_64 && InTime(clock, l)
    ensures Allowed(y, MoveAction(clock, l, v))
    ensures var l' := Advance(cfg, clock, l, v);
      && Tracked(l', Next(y, MoveAction(clock, l, v)), ups', downs', if v.Work? then g + 1 else g)
      && l'.frames == l.frames + (if v.Work? then 1 else 0)
      && l'.frames + |ups'| == l.frames + |ups| + (if v.Say? then 1 else 0)
  {
    hide Carries, Enabled, Advance, Allowed, Next, SessionPeers.Inv, SayAction, OnFrame, Received, NoFailure;
    hide TakeFrame, Unframe, InTime;
    FramesCounted(cfg, clock, l, v);
    match v
    case Say(m) =>
      SayCarries(cfg, clock, l, y, ups, downs, m);
      StepKeeps(y, SayAction(m));
      ups', downs' := ups + [m], downs;
    case Hear =>
      HearCarries(cfg, clock, l, y, ups, downs);
      StepKeeps(y, ClientReads);
      ups', downs' := ups, downs[1..];
    case Work =>
      var more := WorkCarries(cfg, clock, l, y, ups, downs, g);
      StepKeeps(y, HostReads(clock(l.frames)));
      ups', downs' := ups[1..], downs + more;
  }

  lemma {:induction false} FramesCounted(cfg: HostCfg, clock: nat -> int, l: Link, v: Move)
    requires cfg.streams != [] && Enabled(l, v)
    ensures Advance(cfg, clock, l, v).frames == l.frames + (if v.Work? then 1 else 0)
    ensures !v.Work? ==> Advance(cfg, clock, l, v).host == l.host
  {
  }

  lemma {:induction false} RunTracked(
    cfg: HostCfg, sessionId: seq<byte>, clock: nat -> int, ls: seq<Link>, moves: seq<Move>, i: nat)
    returns (y: System, ups: seq<Msg>, downs: seq<Msg>)
    requires cfg.streams != [] && ConfigSmall(cfg.name, sessionId, ExtraStreamConfigs(cfg))
    requires IsLinkRun(cfg, sessionId, clock, ls, moves) && i < |ls| && i < TWO_64
    requires forall n: nat :: 0 <= clock(n) < TWO_64
    ensures Tracked(ls[i], y, ups, downs, ls[i].frames) && ls[i].frames + |ups| <= i
  {
    hide Enabled, Advance, Tracked, ConfigSmall;
    if i == 0 {
      y, ups, downs := Start(ls[0].host), [], [];
      DialledTracked(cfg, sessionId);
    } else {
      var l, v := ls[i - 1], moves[i - 1];
      y, ups, downs := RunTracked(cfg, sessionId, clock, ls, moves, i - 1);
      var a := MoveAction(clock, l, v);
      ups, downs := MoveTracked(cfg, clock, l, v, y, ups, downs, l.frames);
      y := Next(y, a);
    }
  }

  lemma {:induction false} DialledTracked(cfg: HostCfg, sessionId: seq<byte>)
    requires cfg.streams != [] && ConfigSmall(cfg.name, sessionId, ExtraStreamConfigs(cfg))
    ensures var l := Dialled(cfg, sessionId); Tracked(l, Start(l.host), [], [], 0) && l.frames == 0
  {
    hide SessionPeers.Inv, ConfigSmall;
    StartFitsInv(Opening(cfg, sessionId));
  }

  // ---------------------------------------------------------------- no failure

  /** The host finds nothing, or a frame that decodes and on which it does not fail. */
  predicate HostReadsWell(l: Link) {
    var t := TakeFrame(l.up);
    || t.frame.Eof?
    || (t.frame.FrameBytes? && Unframe(t.frame.bytes).Ok?
        && NoFailure(OnFrame(l.host, Unframe(t.frame.bytes).value), Unframe(t.frame.bytes).value))
  }

  predicate ClientReadsWell(l: Link) {
    var t := TakeFrame(Down(l));
    t.frame.Eof? || (t.frame.FrameBytes? && Unframe(t.frame.bytes).Ok?)
  }

  lemma {:induction false} TrackedReadsWell(
    cfg: HostCfg, clock: nat -> int, l: Link, y: System, ups: seq<Msg>, downs: seq<Msg>, g: nat)
    requires cfg.streams != [] && Tracked(l, y, ups, downs, g) && g + 1 < TWO_64 && InTime(clock, l)
    ensures (l.wire.closed.None? ==> HostReadsWell(l)) && ClientReadsWell(l) && |l.client.owed| <= 1
  {
    hide OnFrame, Sendable, Received, TakeFrame, Frame, Unframe, NoFailure, DriveAll, Stream, T.Sent, StateSmall, InTime;
    FirstFrame(ups);
    FirstFrame(downs);
    AtMostOneOwed(y);
    if l.wire.closed.None? && ups != [] {
      var more := WorkCarries(cfg, clock, l, y, ups, downs, g);
    }
  }

  lemma {:induction false} AtMostOneOwed(y: System)
    requires SessionPeers.Inv(y)
    ensures |y.client.owed| <= 1
  {
  }

  /**
   In every interleaving of the bytes: the host closes only without an error, finds its stream in order and does not
   fail on what it reads; the client finds its own in order, and never owes more than one acknowledgement.
   */
  lemma {:induction false} BytesNeverFail(
    cfg: HostCfg, sessionId: seq<byte>, clock: nat -> int, ls: seq<Link>, moves: seq<Move>, i: nat)
    requires cfg.streams != [] && ConfigSmall(cfg.name, sessionId, ExtraStreamConfigs(cfg))
    requires IsLinkRun(cfg, sessionId, clock, ls, moves) && i < |ls| && i + 1 < TWO_64
    requires forall n: nat :: 0 <= clock(n) < TWO_64
    ensures var l := ls[i];
      && (l.wire.closed.Some? ==> l.wire.closed == Some(NONE))
      && (l.wire.closed.None? ==> HostReadsWell(l)) && ClientReadsWell(l) && |l.client.owed| <= 1
  {
    hide IsLinkRun, ConfigSmall, HostReadsWell, ClientReadsWell, SessionPeers.Inv, SameClient, T.Sent, Stream;
    var y, ups, downs := RunTracked(cfg, sessionId, clock, ls, moves, i);
    TrackedReadsWell(cfg, clock, ls[i], y, ups, downs, ls[i].frames);
  }

  /** Once nothing is pending, the client's latest CONFIG is the host's own, in canonical form. */
  lemma {:induction false} BytesAgree(
    cfg: HostCfg, sessionId: seq<byte>, clock: nat -> int, ls: seq<Link>, moves: seq<Move>, i: nat)
    requires cfg.streams != [] && ConfigSmall(cfg.name, sessionId, ExtraStreamConfigs(cfg))
    requires IsLinkRun(cfg, sessionId, clock, ls, moves) && i < |ls| && i < TWO_64
    requires forall n: nat :: 0 <= clock(n) < TWO_64
    requires ls[i].host.phase == Streaming && ls[i].host.pending.None?
    ensures var c := ls[i].client.configs;
      c != [] && Message(CONFIG, c[|c| - 1]) == Received(Msg(CONFIG, ConfigBody(ls[i].host)))
  {
    hide IsLinkRun, ConfigSmall, SessionPeers.Inv, T.Sent, Stream, ConfigBody, Received, Sendable;
    var y, ups, downs := RunTracked(cfg, sessionId, clock, ls, moves, i);
    AgreedAlready(y);
  }

  // ---------------------------------------------------------------- the connection loop itself

  /** All the bytes the client has written. */
  function Written(moves: seq<Move>): seq<byte> {
    if moves == [] then []
    else
      var v := moves[|moves| - 1];
      Written(moves[..|moves| - 1]) + if v.Say? then Frame(v.m.msgType, v.m.body) else []
  }

  /** What is left for the loop to do when `rest` follows. */
  function Remaining(cfg: HostCfg, clock: nat -> int, l: Link, rest: seq<byte>): Served
    requires cfg.streams != []
  {
    if l.wire.closed.Some? then Served(l.host, l.wire, false)
    else Serve(cfg, l.host, l.wire, l.up + rest, clock, l.frames)
  }

  lemma {:induction false} WorkIsRound(
    cfg: HostCfg, clock: nat -> int, l: Link, y: System, ups: seq<Msg>, downs: seq<Msg>, rest: seq<byte>)
    requires cfg.streams != [] && Carries(l, y, ups, downs) && Enabled(l, Work)
    ensures Remaining(cfg, clock, Advance(cfg, clock, l, Work), rest) == Remaining(cfg, clock, l, rest)
  {
    hide OnFrame, DriveAll, Sendable, Received, TakeFrame, Frame, Unframe, Serve, T.Sent, SameClient;
    FirstFrame(ups);
    var tail := Stream(ups[1..]);
    assert l.up + rest == Frame(ups[0].msgType, ups[0].body) + (tail + rest);
    ServeOne(cfg, l.host, l.wire, ups[0], tail + rest, clock, l.frames);
  }

  lemma {:induction false} MoveKeepsLoop(
    cfg: HostCfg, clock: nat -> int, l: Link, v: Move, y: System, ups: seq<Msg>, downs: seq<Msg>, rest: seq<byte>)
    requires cfg.streams != [] && Carries(l, y, ups, downs) && Enabled(l, v)
    ensures var said := if v.Say? then Frame(v.m.msgType, v.m.body) else [];
      Remaining(cfg, clock, Advance(cfg, clock, l, v), rest) == Remaining(cfg, clock, l, said + rest)
  {
    hide Carries, Serve, Frame, TakeFrame, Unframe, DriveAll, OnFrame, MaySay, HavingSaid, HavingHeard;
    match v
    case Say(m) => assert (l.up + Frame(m.msgType, m.body)) + rest == l.up + (Frame(m.msgType, m.body) + rest);
    case Hear => assert [] + rest == rest;
    case Work =>
      assert [] + rest == rest;
      WorkIsRound(cfg, clock, l, y, ups, downs, rest);
  }

  /** At every moment the host has done what the connection loop does with the bytes written so far, whatever follows. */
  lemma {:induction false} LoopInStep(
    cfg: HostCfg, sessionId: seq<byte>, clock: nat -> int, ls: seq<Link>, moves: seq<Move>, i: nat, rest: seq<byte>)
    requires cfg.streams != [] && ConfigSmall(cfg.name, sessionId, ExtraStreamConfigs(cfg))
    requires IsLinkRun(cfg, sessionId, clock, ls, moves) && i < |ls| && i < TWO_64
    requires forall n: nat :: 0 <= clock(n) < TWO_64
    ensures Serve(cfg, Opening(cfg, sessionId), Wire([], [], None), Written(moves[..i]) + rest, clock, 0)
      == Remaining(cfg, clock, ls[i], rest)
  {
    hide Serve, Frame, Advance, Enabled, ConfigSmall, Carries;
    if i == 0 {
      assert [] + rest == rest;
    } else {
      var l, v := ls[i - 1], moves[i - 1];
      var said := if v.Say? then Frame(v.m.msgType, v.m.body) else [];
      assert moves[..i][..i - 1] == moves[..i - 1];
      assert (Written(moves[..i - 1]) + said) + rest == Written(moves[..i - 1]) + (said + rest);
      LoopInStep(cfg, sessionId, clock, ls, moves, i - 1, said + rest);
      var y, ups, downs := RunTracked(cfg, sessionId, clock, ls, moves, i - 1);
      MoveKeepsLoop(cfg, clock, l, v, y, ups, downs, rest);
    }
  }

  lemma {:induction false} DrainsWell(
    cfg: HostCfg, clock: nat -> int, l: Link, y: System, ups: seq<Msg>, downs: seq<Msg>, g: nat)
    requires cfg.streams != [] && Tracked(l, y, ups, downs, g) && g + |ups| + 1 < TWO_64
    requires forall n: nat :: 0 <= clock(n) < TWO_64
    ensures var r := Remaining(cfg, clock, l, []); !r.failed && r.wire.closed == Some(NONE)
    decreases |ups|
  {
    hide Enabled, Advance, Allowed, Next, MoveAction, SessionPeers.Inv, StateSmall, TakeFrame, OnFrame, DriveAll, Unframe;
    hide Sendable, Received, Frame, T.Sent, SameClient;
    FirstFrame(ups);
    if ups == [] {
      assert l.up + [] == [];
    } else if l.wire.closed.None? {
      CanWork(l, y, ups, downs);
      var ups', downs' := MoveTracked(cfg, clock, l, Work, y, ups, downs, g);
      WorkIsRound(cfg, clock, l, y, ups, downs, []);
      DrainsWell(cfg, clock, Advance(cfg, clock, l, Work), Next(y, MoveAction(clock, l, Work)), ups', downs', g + 1);
    }
  }

  lemma {:induction false} CanWork(l: Link, y: System, ups: seq<Msg>, downs: seq<Msg>)
    requires Carries(l, y, ups, downs) && l.wire.closed.None? && ups != []
    ensures Enabled(l, Work)
  {
    hide TakeFrame, Frame, Unframe, Received, Sendable, T.Sent, SameClient;
    FirstFrame(ups);
  }

  /** So whenever the client stops writing, the loop ends in a clean close, with no error and no transport failure. */
  lemma {:induction false} LoopEndsWell(
    cfg: HostCfg, sessionId: seq<byte>, clock: nat -> int, ls: seq<Link>, moves: seq<Move>, i: nat)
    requires cfg.streams != [] && ConfigSmall(cfg.name, sessionId, ExtraStreamConfigs(cfg))
    requires IsLinkRun(cfg, sessionId, clock, ls, moves) && i < |ls| && i + 1 < TWO_64
    requires forall n: nat :: 0 <= clock(n) < TWO_64
    ensures var r := Serve(cfg, Opening(cfg, sessionId), Wire([], [], None), Written(moves[..i]), clock, 0);
      !r.failed && r.wire.closed == Some(NONE)
  {
    hide Enabled, Advance, ConfigSmall, Tracked, Serve;
    LoopInStep(cfg, sessionId, clock, ls, moves, i, []);
    assert Written(moves[..i]) + [] == Written(moves[..i]);
    var y, ups, downs := RunTracked(cfg, sessionId, clock, ls, moves, i);
    DrainsWell(cfg, clock, ls[i], y, ups, downs, ls[i].frames);
  }

  // ---------------------------------------------------------------- progress

  predicate EnabledRun(cfg: HostCfg, clock: nat -> int, l: Link, moves: seq<Move>)
    requires cfg.streams != []
    decreases |moves|
  {
    moves == [] || (Enabled(l, moves[0]) && EnabledRun(cfg, clock, Advance(cfg, clock, l, moves[0]), moves[1..]))
  }

  function LinkEnd(cfg: HostCfg, clock: nat -> int, l: Link, moves: seq<Move>): Link
    requires cfg.streams != [] && EnabledRun(cfg, clock, l, moves)
    decreases |moves|
  {
    if moves == [] then l else LinkEnd(cfg, clock, Advance(cfg, clock, l, moves[0]), moves[1..])
  }

  function MoveFor(a: Action): Move {
    match a
    case Greet(body) => Say(Msg(HELLO, body))
    case Ack(body) => Say(Msg(CONFIG_ACK, body))
    case HostReads(_) => Work
    case _ => Hear
  }

  lemma {:induction false} GreetFits()
    ensures Sendable(Msg(HELLO, [Entry(Int(0), Int(PROTOCOL_VERSION)), Entry(Int(2), Array([Int(CODEC_HEVC)]))]))
  {
    hide BodyFits, Sendable;
    NothingFits();
    var e0 := [Entry(Int(0), Int(PROTOCOL_VERSION))];
    AddInt([], 0, 0, PROTOCOL_VERSION);
    assert [] + e0 == e0;
    var list := Array([Int(CODEC_HEVC)]);
    ListBulk();
    Add(e0, 18, 2, list, 18);
    assert [Entry(Int(0), Int(PROTOCOL_VERSION)), Entry(Int(2), list)] == e0 + [Entry(Int(2), list)];
    FittingIsSendable(Msg(HELLO, e0 + [Entry(Int(2), list)]), 45);
  }

  lemma {:induction false} ListBulk()
    ensures Bulk(Array([Int(CODEC_HEVC)])) <= 18 && InRange(Array([Int(CODEC_HEVC)]))
  {
    var list := [Int(CODEC_HEVC)];
    assert list[1..] == [] && BulkAll(list) == Bulk(list[0]) + BulkAll(list[1..]);
  }

  lemma {:induction false} AckFits(generation: u64)
    ensures Sendable(Msg(CONFIG_ACK, [Entry(Int(0), Int(generation))]))
  {
    hide BodyFits, Sendable;
    NothingFits();
    AddInt([], 0, 0, generation);
    assert [] + [Entry(Int(0), Int(generation))] == [Entry(Int(0), Int(generation))];
    FittingIsSendable(Msg(CONFIG_ACK, [Entry(Int(0), Int(generation))]), 18);
  }

  /** An action of the message level is a move over the bytes, if what it says fits a frame. */
  lemma {:induction false} ActionIsMove(
    clock: nat -> int, l: Link, y: System, ups: seq<Msg>, downs: seq<Msg>, a: Action)
    requires Carries(l, y, ups, downs) && Allowed(y, a) && l.host.phase != Closed
    requires a.Greet? || a.Ack? || a == ClientReads || a == HostReads(clock(l.frames))
    requires MoveFor(a).Say? ==> Sendable(MoveFor(a).m)
    ensures Enabled(l, MoveFor(a)) && MoveAction(clock, l, MoveFor(a)) == a
  {
    hide TakeFrame, Frame, Unframe, Received, Sendable, AsSent, T.Sent, IntKey, ValidHello, Stream;
    FirstFrame(ups);
    FirstFrame(downs);
  }

  /** What the client would do next among messages, it can do over the bytes. */
  lemma {:induction false} NudgeFits(y: System, now: int)
    requires SessionPeers.Inv(y) && y.host.generation < TWO_64 && Alive(y) && !Settled(y)
    ensures var a := Nudge(y, now);
      && (a.Greet? || a.Ack? || a == ClientReads || a == HostReads(now))
      && (MoveFor(a).Say? ==> Sendable(MoveFor(a).m))
  {
    hide Sendable, SessionPeers.Inv, Stage;
    GreetFits();
    if y.client.owed != [] {
      OwedIsCurrent(y);
      AckFits(y.host.generation);
    }
  }

  lemma {:induction false} OwedIsCurrent(y: System)
    requires SessionPeers.Inv(y) && y.client.owed != []
    ensures y.client.owed[0] == Some(y.host.generation)
  {
    assert y.client.owed[0] in InFlight(y);
  }

  lemma {:induction false} SettlesFrom(
    cfg: HostCfg, clock: nat -> int, l: Link, y: System, ups: seq<Msg>, downs: seq<Msg>, g: nat) returns (more: seq<Move>)
    requires cfg.streams != [] && Tracked(l, y, ups, downs, g) && 1 <= g && g + 1 < TWO_64 && Alive(y)
    requires forall n: nat :: 0 <= clock(n) < TWO_64
    ensures EnabledRun(cfg, clock, l, more)
    ensures var z := LinkEnd(cfg, clock, l, more).host;
      && z.phase == Streaming && z.pending.None?
      && (l.host.phase == Streaming ==> z.generation == l.host.generation && z.params == l.host.params)
    decreases Stage(y), Queue(y)
  {
    hide Carries, SessionPeers.Inv, Allowed, Next, Nudge, Stage, Queue, Enabled, Advance, MoveAction, MoveFor, ConfigSmall;
    SameHost(l, y, ups, downs);
    if Settled(y) {
      more := [];
    } else {
      var now := clock(l.frames);
      Nudged(y, now);
      NudgeFits(y, now);
      ActionIsMove(clock, l, y, ups, downs, Nudge(y, now));
      var v, z := MoveFor(Nudge(y, now)), Next(y, Nudge(y, now));
      var ups', downs' := MoveTracked(cfg, clock, l, v, y, ups, downs, g);
      var l' := Advance(cfg, clock, l, v);
      SameHost(l', z, ups', downs');
      var rest := [];
      if !Settled(z) {
        rest := SettlesFrom(cfg, clock, l', z, ups', downs', g);
      }
      more := [v] + rest;
      assert more[1..] == rest;
    }
  }

  lemma {:induction false} SameHost(l: Link, y: System, ups: seq<Msg>, downs: seq<Msg>)
    requires Carries(l, y, ups, downs)
    ensures l.host == y.host
  {
  }

  /** No deadlock over the bytes: from every reachable state in which nobody has said goodbye the stream can settle. */
  lemma {:induction false} BytesNeverStuck(
    cfg: HostCfg, sessionId: seq<byte>, clock: nat -> int, ls: seq<Link>, moves: seq<Move>, i: nat)
    returns (more: seq<Move>)
    requires cfg.streams != [] && ConfigSmall(cfg.name, sessionId, ExtraStreamConfigs(cfg))
    requires IsLinkRun(cfg, sessionId, clock, ls, moves) && i < |ls| && i + 2 < TWO_64
    requires forall n: nat :: 0 <= clock(n) < TWO_64
    requires ls[i].host.phase != Closed && !ls[i].client.gone
    ensures EnabledRun(cfg, clock, ls[i], more)
    ensures var h, z := ls[i].host, LinkEnd(cfg, clock, ls[i], more).host;
      && z.phase == Streaming && z.pending.None?
      && (h.phase == Streaming ==> z.generation == h.generation && z.params == h.params)
  {
    hide Enabled, Advance, ConfigSmall, SessionPeers.Inv, EnabledRun, LinkEnd, T.Sent, Stream, Sendable, Received;
    var y, ups, downs := RunTracked(cfg, sessionId, clock, ls, moves, i);
    more := SettlesFrom(cfg, clock, ls[i], y, ups, downs, i + 1);
  }
}
