/**
 The host session composed with a conforming client over two FIFO queues. The client sends one valid HELLO, one ACK
 per CONFIG it receives (as late as it likes), streaming messages only after START, pings and unknown messages at any
 time, and nothing after BYE. Every interleaving is covered.
 */
module SessionPeers {
  import opened Basics
  import opened Cbor
  import opened Control
  import opened ControlStream
  import opened Session
  import opened SessionTrace
  import opened ConnectionEffects

  datatype Client = Client(
    greeted: bool,
    playing: bool,
    gone: bool,
    owed: seq<Option<int>>,
    configs: seq<seq<Entry>>)

  datatype System = System(host: State, client: Client, toHost: seq<Decoded>, toClient: seq<Msg>)

  function Start(host: State): System {
    System(host, Client(false, false, false, [], []), [], [])
  }

  datatype Action =
    | Greet(body: seq<Entry>)
    | Ack(body: seq<Entry>)
    | Play(msgType: nat, body: seq<Entry>)
    | Chatter(d: Decoded)
    | Leave(body: seq<Entry>)
    | ClientReads
    | HostReads(now: int)

  predicate IsStreamMessage(msgType: nat) {
    msgType == IDR_REQUEST || msgType == STATS || msgType == VIEWPORT || msgType == INPUT
  }

  predicate ValidHello(body: seq<Entry>) {
    IntKey(body, 0) == Some(PROTOCOL_VERSION) && OffersCodec(body, CODEC_HEVC)
  }

  predicate Allowed(y: System, a: Action) {
    match a
    case Greet(body) => !y.client.gone && !y.client.greeted && ValidHello(body)
    case Ack(body) => !y.client.gone && y.client.owed != [] && IntKey(body, 0) == y.client.owed[0]
    case Play(msgType, _) => !y.client.gone && y.client.playing && IsStreamMessage(msgType)
    case Chatter(d) => !y.client.gone && (d.Ignored? || d.msgType == CLOCK_PING)
    case Leave(_) => !y.client.gone
    case ClientReads => y.toClient != []
    case HostReads(_) => y.toHost != []
  }

  /** What the client makes of one message. */
  function Take(c: Client, m: Msg): Client {
    if m.msgType == CONFIG then c.(owed := c.owed + [IntKey(m.body, 0)], configs := c.configs + [m.body])
    else if m.msgType == START then c.(playing := true)
    else c
  }

  function Next(y: System, a: Action): System
    requires Allowed(y, a)
  {
    match a
    case Greet(body) => y.(client := y.client.(greeted := true), toHost := y.toHost + [Message(HELLO, body)])
    case Ack(body) =>
      y.(client := y.client.(owed := y.client.owed[1..]), toHost := y.toHost + [Message(CONFIG_ACK, body)])
    case Play(t, body) => y.(toHost := y.toHost + [Message(t, body)])
    case Chatter(d) => y.(toHost := y.toHost + [d])
    case Leave(body) => y.(client := y.client.(gone := true), toHost := y.toHost + [Message(BYE, body)])
    case ClientReads => y.(client := Take(y.client, y.toClient[0]), toClient := y.toClient[1..])
    case HostReads(now) =>
      var e := OnFrame(y.host, y.toHost[0]);
      y.(host := e.state, toHost := y.toHost[1..], toClient := y.toClient + Replies(e.outputs, now))
  }

  /** `ys` is a run: it starts fresh and every step is an allowed action. */
  ghost predicate IsRun(ys: seq<System>, acts: seq<Action>) {
    && |ys| == |acts| + 1
    && (exists host, id, params, extras :: ys[0] == Start(Fresh(host, id, params, extras)))
    && forall i :: 0 <= i < |acts| ==> Allowed(ys[i], acts[i]) && ys[i + 1] == Next(ys[i], acts[i])
  }

  // ---------------------------------------------------------------- what is in flight

  function AckOf(d: Decoded): seq<Option<int>> {
    if d.Message? && d.msgType == CONFIG_ACK then [IntKey(d.body, 0)] else []
  }

  function Acks(q: seq<Decoded>): seq<Option<int>> {
    if q == [] then [] else AckOf(q[0]) + Acks(q[1..])
  }

  function ConfigOf(m: Msg): seq<seq<Entry>> {
    if m.msgType == CONFIG then [m.body] else []
  }

  function Configs(q: seq<Msg>): seq<seq<Entry>> {
    if q == [] then [] else ConfigOf(q[0]) + Configs(q[1..])
  }

  function Generations(bodies: seq<seq<Entry>>): (g: seq<Option<int>>)
    ensures |g| == |bodies|
  {
    if bodies == [] then [] else [IntKey(bodies[0], 0)] + Generations(bodies[1..])
  }

  function Hellos(q: seq<Decoded>): nat {
    if q == [] then 0 else (if q[0].Message? && q[0].msgType == HELLO then 1 else 0) + Hellos(q[1..])
  }

  /** Every CONFIG sent and not yet matched by an ACK the host has read, oldest first, by generation. */
  function InFlight(y: System): seq<Option<int>> {
    Acks(y.toHost) + y.client.owed + Generations(Configs(y.toClient))
  }

  /** Every CONFIG the client has received or will receive. */
  function ConfigLog(y: System): seq<seq<Entry>> {
    y.client.configs + Configs(y.toClient)
  }

  function Outstanding(s: State): seq<Option<int>> {
    if s.phase == WaitConfigAck then [Some(s.generation)]
    else if s.phase == Streaming && s.pending.Some? then [Some(s.generation)]
    else []
  }

  predicate Conforming(d: Decoded) {
    d.Message? ==>
      || (d.msgType == HELLO && ValidHello(d.body))
      || d.msgType == CONFIG_ACK || d.msgType == BYE || d.msgType == CLOCK_PING || IsStreamMessage(d.msgType)
  }

  predicate IsBye(d: Decoded) {
    d.Message? && d.msgType == BYE
  }

  predicate NoPlayYet(y: System) {
    && !y.client.playing
    && (forall m :: m in y.toClient ==> m.msgType != START)
    && (forall d :: d in y.toHost ==> d.Message? ==> !IsStreamMessage(d.msgType))
  }

  predicate HostFits(s: State) {
    && (s.phase == WaitHello ==> s.generation == 0 && s.pending.None?)
    && (s.phase == WaitConfigAck ==> s.generation == 1 && s.pending.None?)
    && (s.phase == Streaming ==> s.generation >= 1 && (s.pending.Some? ==> s.pending == Some(s.generation)))
  }

  /** The in-flight invariant. */
  predicate Inv(y: System) {
    && (forall d :: d in y.toHost ==> Conforming(d) && (IsBye(d) ==> y.client.gone))
    && HostFits(y.host)
    && |InFlight(y)| <= 1 && (forall t :: t in InFlight(y) ==> t == Some(y.host.generation))
    && (y.host.phase != Closed ==>
        && InFlight(y) == Outstanding(y.host)
        && Hellos(y.toHost) == (if y.host.phase == WaitHello && y.client.greeted then 1 else 0)
        && (y.host.phase != WaitHello ==>
            y.client.greeted && ConfigLog(y) != [] && ConfigLog(y)[|ConfigLog(y)| - 1] == ConfigBody(y.host))
        && (y.host.phase != Streaming ==> NoPlayYet(y)))
  }

  // ---------------------------------------------------------------- queues

  lemma {:induction false} AcksAppend(q: seq<Decoded>, d: Decoded)
    ensures Acks(q + [d]) == Acks(q) + AckOf(d)
    ensures Hellos(q + [d]) == Hellos(q) + if d.Message? && d.msgType == HELLO then 1 else 0
  {
    if q == [] {
      assert q + [d] == [d] && [d][1..] == [];
    } else {
      assert (q + [d])[1..] == q[1..] + [d];
      AcksAppend(q[1..], d);
    }
  }

  lemma {:induction false} ConfigsAppend(q: seq<Msg>, r: seq<Msg>)
    ensures Configs(q + r) == Configs(q) + Configs(r)
  {
    if q == [] {
      assert q + r == r;
    } else {
      assert (q + r)[1..] == q[1..] + r;
      ConfigsAppend(q[1..], r);
    }
  }

  lemma {:induction false} GenerationsAppend(a: seq<seq<Entry>>, b: seq<seq<Entry>>)
    ensures Generations(a + b) == Generations(a) + Generations(b)
  {
    if a == [] {
      assert a + b == b;
    } else {
      assert (a + b)[1..] == a[1..] + b;
      GenerationsAppend(a[1..], b);
    }
  }

  // ---------------------------------------------------------------- the client's steps keep everything

  /** A client message that is not an ACK leaves the in-flight tokens alone. */
  lemma {:induction false} SendKeeps(y: System, c: Client, d: Decoded)
    requires Inv(y) && Conforming(d) && AckOf(d) == []
    requires c == y.client.(greeted := c.greeted, gone := c.gone)
    requires if d.Message? && d.msgType == HELLO then !y.client.greeted && c.greeted else c.greeted == y.client.greeted
    requires d.Message? && IsStreamMessage(d.msgType) ==> y.client.playing
    requires (y.client.gone ==> c.gone) && (IsBye(d) ==> c.gone)
    ensures Inv(y.(client := c, toHost := y.toHost + [d]))
  {
    hide ConfigBody, OffersCodec, IntKey, Configs, Generations, Acks, Hellos;
    AcksAppend(y.toHost, d);
    assert Acks(y.toHost) + [] == Acks(y.toHost);
    assert forall x :: x in y.toHost + [d] ==> x in y.toHost || x == d;
  }

  lemma {:induction false} AckMovesToken(y: System, body: seq<Entry>)
    requires Allowed(y, Ack(body))
    ensures var z := Next(y, Ack(body)); InFlight(z) == InFlight(y) && Hellos(z.toHost) == Hellos(y.toHost)
  {
    hide IntKey, Configs, Generations, Acks, Hellos;
    AcksAppend(y.toHost, Message(CONFIG_ACK, body));
    var a, o := Acks(y.toHost), y.client.owed;
    assert o == [o[0]] + o[1..];
    assert a + [o[0]] + o[1..] == a + o;
  }

  lemma {:induction false} AckKeeps(y: System, body: seq<Entry>)
    requires Inv(y) && Allowed(y, Ack(body))
    ensures Inv(Next(y, Ack(body)))
  {
    hide ConfigBody, OffersCodec, IntKey, Hellos, InFlight;
    AckMovesToken(y, body);
    var d := Message(CONFIG_ACK, body);
    assert forall x :: x in y.toHost + [d] ==> x in y.toHost || x == d;
  }

  lemma {:induction false} TakeAdds(c: Client, m: Msg)
    ensures Take(c, m).owed == c.owed + Generations(ConfigOf(m)) && Take(c, m).configs == c.configs + ConfigOf(m)
  {
    hide IntKey;
    if m.msgType == CONFIG {
      assert [m.body][1..] == [];
      assert Generations([m.body]) == [IntKey(m.body, 0)] + Generations([m.body][1..]);
    }
  }

  /** Reading moves a CONFIG from the queue to the client's own lists. */
  lemma {:induction false} ReadMovesConfig(y: System)
    requires y.toClient != []
    ensures var z := Next(y, ClientReads); InFlight(z) == InFlight(y) && ConfigLog(z) == ConfigLog(y)
  {
    hide Acks, Generations, ConfigOf, Take;
    var m, rest := y.toClient[0], Configs(y.toClient[1..]);
    TakeAdds(y.client, m);
    GenerationsAppend(ConfigOf(m), rest);
    var a, o, g, h := Acks(y.toHost), y.client.owed, Generations(ConfigOf(m)), Generations(rest);
    assert a + (o + g) + h == a + o + (g + h);
    assert (y.client.configs + ConfigOf(m)) + rest == y.client.configs + (ConfigOf(m) + rest);
  }

  lemma {:induction false} ClientReadKeeps(y: System)
    requires Inv(y) && Allowed(y, ClientReads)
    ensures Inv(Next(y, ClientReads))
  {
    hide ConfigBody, OffersCodec, IntKey, Hellos, InFlight, ConfigLog;
    var z := Next(y, ClientReads);
    ReadMovesConfig(y);
    assert (forall x :: x in z.toClient ==> x in y.toClient) && y.toClient[0] in y.toClient;
  }

  // ---------------------------------------------------------------- the host's step

  /** The only messages that can reach the host in each phase are ones it accepts. */
  lemma {:induction false} HostAccepts(y: System)
    requires Inv(y) && y.toHost != [] && y.host.phase != Closed
    ensures var d := y.toHost[0];
      d.Message? && d.msgType != BYE && d.msgType != CLOCK_PING ==>
        match y.host.phase
        case WaitHello => d.msgType == HELLO && ValidHello(d.body)
        case WaitConfigAck => d.msgType == CONFIG_ACK && IntKey(d.body, 0) == Some(y.host.generation)
        case Streaming => IsStreamMessage(d.msgType)
            || (d.msgType == CONFIG_ACK && y.host.pending.Some? && IntKey(d.body, 0) == y.host.pending)
        case Closed => true
  {
    hide ConfigBody, OffersCodec, IntKey, Configs, Generations;
    var d := y.toHost[0];
    assert d in y.toHost;
    if d.Message? && d.msgType == CONFIG_ACK {
      assert Acks(y.toHost) == AckOf(d) + Acks(y.toHost[1..]);
      assert InFlight(y)[0] == IntKey(d.body, 0);
    }
  }

  function Moved(y: System, host: State, sent: seq<Msg>): System
    requires y.toHost != []
  {
    y.(host := host, toHost := y.toHost[1..], toClient := y.toClient + sent)
  }

  lemma {:induction false} HeadCounts(q: seq<Decoded>)
    requires q != []
    ensures Acks(q) == AckOf(q[0]) + Acks(q[1..])
    ensures Hellos(q) == (if q[0].Message? && q[0].msgType == HELLO then 1 else 0) + Hellos(q[1..])
    ensures (forall x :: x in q[1..] ==> x in q) && q[0] in q
  {
  }

  lemma {:induction false} HeadTaken(y: System, host: State, sent: seq<Msg>)
    requires y.toHost != []
    ensures var d, z := y.toHost[0], Moved(y, host, sent);
      && Hellos(y.toHost) == (if d.Message? && d.msgType == HELLO then 1 else 0) + Hellos(z.toHost)
      && (forall x :: x in z.toHost ==> x in y.toHost) && d in y.toHost
      && (forall m :: m in z.toClient ==> m in y.toClient || m in sent)
      && ConfigLog(z) == ConfigLog(y) + Configs(sent)
      && AckOf(d) + InFlight(z) == InFlight(y) + Generations(Configs(sent))
  {
    hide Acks, Hellos, Configs, Generations, AckOf;
    HeadCounts(y.toHost);
    ConfigsAppend(y.toClient, sent);
    GenerationsAppend(Configs(y.toClient), Configs(sent));
    var a, o, g, n := Acks(y.toHost[1..]), y.client.owed, Generations(Configs(y.toClient)), Generations(Configs(sent));
    assert AckOf(y.toHost[0]) + (a + o + (g + n)) == (AckOf(y.toHost[0]) + a) + o + g + n;
    assert y.client.configs + (Configs(y.toClient) + Configs(sent)) == ConfigLog(y) + Configs(sent);
  }

  /** A message that changes nothing and is answered by at most a pong. */
  lemma {:induction false} QuietKeeps(y: System, sent: seq<Msg>)
    requires Inv(y) && y.toHost != []
    requires y.host.phase != Closed ==> AckOf(y.toHost[0]) == []
    requires y.host.phase != Closed ==> y.toHost[0].Message? ==> y.toHost[0].msgType != HELLO
    requires forall m :: m in sent ==> m.msgType == CLOCK_PONG
    requires Configs(sent) == []
    ensures Inv(Moved(y, y.host, sent))
  {
    hide ConfigBody, OffersCodec, IntKey, InFlight, ConfigLog, Acks, Hellos, Configs;
    HeadTaken(y, y.host, sent);
    var z := Moved(y, y.host, sent);
    assert InFlight(y) + [] == InFlight(y) && ConfigLog(y) + [] == ConfigLog(y);
    if AckOf(y.toHost[0]) == [] {
      assert [] + InFlight(z) == InFlight(z);
    } else {
      assert InFlight(z) == InFlight(y)[1..];
    }
  }

  lemma {:induction false} ByeKeeps(y: System)
    requires Inv(y) && y.toHost != [] && AckOf(y.toHost[0]) == []
    ensures Inv(Moved(y, y.host.(phase := Closed), []))
  {
    hide ConfigBody, OffersCodec, IntKey, InFlight, ConfigLog, Acks, Hellos;
    HeadTaken(y, y.host.(phase := Closed), []);
    NoConfigs();
    var z := Moved(y, y.host.(phase := Closed), []);
    assert InFlight(y) + [] == InFlight(y) && [] + InFlight(z) == InFlight(z);
  }

  /** The host answers with a CONFIG of its new generation; nothing was in flight. */
  lemma {:induction false} ConfigKeeps(y: System, host: State, sent: seq<Msg>)
    requires Inv(y) && y.toHost != [] && y.host.phase != Closed && AckOf(y.toHost[0]) == []
    requires Outstanding(y.host) == [] && Outstanding(host) == [Some(host.generation)]
    requires HostFits(host) && host.phase != Closed && host.phase != WaitHello
    requires Configs(sent) == [ConfigBody(host)] && forall m :: m in sent ==> m.msgType != START
    requires y.host.phase == WaitHello <==> y.toHost[0].Message? && y.toHost[0].msgType == HELLO
    requires y.host.phase == Streaming <==> host.phase == Streaming
    ensures Inv(Moved(y, host, sent))
  {
    hide ConfigBody, OffersCodec, IntKey, InFlight, ConfigLog, Acks, Hellos, Configs;
    HeadTaken(y, host, sent);
    ConfigReadsBack(host);
    var z := Moved(y, host, sent);
    assert [ConfigBody(host)][1..] == [];
    assert Generations([ConfigBody(host)]) == [Some(host.generation)];
    assert [] + InFlight(z) == InFlight(z) && InFlight(y) == [];
    assert InFlight(z) == [Some(host.generation)];
  }

  /** The awaited ACK arrives. */
  lemma {:induction false} AckTakenKeeps(y: System, host: State, sent: seq<Msg>)
    requires Inv(y) && y.toHost != [] && AckOf(y.toHost[0]) != []
    requires Outstanding(y.host) != [] && Outstanding(host) == []
    requires HostFits(host) && host.phase == Streaming && host.generation == y.host.generation
    requires ConfigBody(host) == ConfigBody(y.host) && Configs(sent) == []
    ensures Inv(Moved(y, host, sent))
  {
    hide ConfigBody, OffersCodec, IntKey, InFlight, ConfigLog, Acks, Hellos, Configs;
    HeadTaken(y, host, sent);
    var z := Moved(y, host, sent);
    assert InFlight(y) == [Some(y.host.generation)];
    assert InFlight(z) == [];
  }

  lemma {:induction false} RepliesOfOne(o: Output, now: int)
    ensures Replies([o], now) == Reply(o, now)
  {
    assert [o][..0] == [];
  }

  lemma {:induction false} RepliesOfTwo(a: Output, b: Output, now: int)
    ensures Replies([a, b], now) == Reply(a, now) + Reply(b, now)
  {
    assert [a, b][..1] == [a];
    RepliesOfOne(a, now);
  }

  lemma {:induction false} ConfigsOfOne(m: Msg)
    ensures Configs([m]) == ConfigOf(m)
  {
    assert [m][1..] == [];
  }

  lemma {:induction false} ConfigsOfTwo(a: Msg, b: Msg)
    ensures Configs([a, b]) == ConfigOf(a) + ConfigOf(b)
  {
    assert [a, b][1..] == [b];
    ConfigsOfOne(b);
  }

  /** The host never fails: a close is the answer to BYE, and there is no ERROR. */
  predicate NoFailure(e: Effect, d: Decoded) {
    forall o :: o in e.outputs ==>
      && (o.Close? ==> o.code == NONE && d.Message? && d.msgType == BYE)
      && (o.Send? ==> o.msgType != ERROR)
  }

  lemma {:induction false} HostHelloKeeps(y: System, now: int)
    requires Inv(y) && y.toHost != [] && y.host.phase == WaitHello
    requires y.toHost[0].Message? && y.toHost[0].msgType == HELLO && ValidHello(y.toHost[0].body)
    ensures Inv(Next(y, HostReads(now))) && NoFailure(OnFrame(y.host, y.toHost[0]), y.toHost[0])
  {
    hide OffersCodec, IntKey, InFlight, ConfigLog, Acks, Hellos, Configs, Inv, WelcomeBody, ConfigBody, AsU64;
    var d := y.toHost[0];
    var e := OnFrame(y.host, d);
    assert e == OnHello(y.host, HELLO, d.body);
    RepliesOfTwo(e.outputs[0], e.outputs[1], now);
    var sent := Replies(e.outputs, now);
    assert sent == [Msg(WELCOME, WelcomeBody(e.state)), Msg(CONFIG, ConfigBody(e.state))];
    ConfigsOfTwo(sent[0], sent[1]);
    FitsNow(y);
    ConfigKeeps(y, e.state, sent);
  }

  lemma {:induction false} FitsNow(y: System)
    requires Inv(y)
    ensures HostFits(y.host)
  {
  }

  lemma {:induction false} HostAckKeeps(y: System, now: int)
    requires Inv(y) && y.toHost != [] && Outstanding(y.host) != [] && y.host.phase != Closed
    requires y.toHost[0].Message? && y.toHost[0].msgType == CONFIG_ACK
    requires IntKey(y.toHost[0].body, 0) == Some(y.host.generation)
    ensures Inv(Next(y, HostReads(now))) && NoFailure(OnFrame(y.host, y.toHost[0]), y.toHost[0])
  {
    hide IntKey, InFlight, ConfigLog, Acks, Hellos, Configs, Inv;
    var d := y.toHost[0];
    var e := OnFrame(y.host, d);
    FitsNow(y);
    if y.host.phase == WaitConfigAck {
      RepliesOfTwo(e.outputs[0], e.outputs[1], now);
      var sent := Replies(e.outputs, now);
      assert sent == [Msg(START, [])];
      ConfigsOfOne(sent[0]);
      AckTakenKeeps(y, e.state, sent);
    } else {
      RepliesOfOne(e.outputs[0], now);
      NoConfigs();
      AckTakenKeeps(y, e.state, []);
    }
  }

  lemma {:induction false} NoConfigs()
    ensures Configs([]) == []
  {
  }

  lemma {:induction false} PlayOutputs(s: State, d: Decoded, now: int)
    requires s.phase == Streaming && d.Message? && IsStreamMessage(d.msgType) && d.msgType != VIEWPORT
    ensures var e := OnFrame(s, d); e.state == s && Replies(e.outputs, now) == [] && NoFailure(e, d)
  {
    hide IntKey, ReadStats;
    var e := OnFrame(s, d);
    if e.outputs != [] {
      RepliesOfOne(e.outputs[0], now);
    }
  }

  lemma {:induction false} HostPlayKeeps(y: System, now: int)
    requires Inv(y) && y.toHost != [] && y.host.phase == Streaming
    requires y.toHost[0].Message? && IsStreamMessage(y.toHost[0].msgType) && y.toHost[0].msgType != VIEWPORT
    ensures Inv(Next(y, HostReads(now))) && NoFailure(OnFrame(y.host, y.toHost[0]), y.toHost[0])
  {
    hide OnFrame, Configs, Inv, Replies, NoFailure;
    PlayOutputs(y.host, y.toHost[0], now);
    NoConfigs();
    QuietKeeps(y, []);
  }

  lemma {:induction false} ViewportOutputs(s: State, d: Decoded, now: int)
    requires s.phase == Streaming && HostFits(s) && d.Message? && d.msgType == VIEWPORT
    ensures var e := OnFrame(s, d);
      && NoFailure(e, d)
      && if e.outputs == [] then e.state == s && Replies(e.outputs, now) == []
         else
           && Replies(e.outputs, now) == [Msg(CONFIG, ConfigBody(e.state))]
           && Outstanding(s) == [] && Outstanding(e.state) == [Some(e.state.generation)]
           && HostFits(e.state) && e.state.phase == Streaming
  {
    hide IntKey, PairElem, ClampDim, ConfigBody, AsU64;
    var e := OnFrame(s, d);
    assert e == OnViewport(s, d.body);
    if e.outputs != [] {
      RepliesOfOne(e.outputs[0], now);
    }
  }

  lemma {:induction false} HostViewportKeeps(y: System, now: int)
    requires Inv(y) && y.toHost != [] && y.host.phase == Streaming
    requires y.toHost[0].Message? && y.toHost[0].msgType == VIEWPORT
    ensures Inv(Next(y, HostReads(now))) && NoFailure(OnFrame(y.host, y.toHost[0]), y.toHost[0])
  {
    hide OnFrame, Configs, Inv, Replies, NoFailure, ConfigBody, Outstanding, HostFits;
    var e := OnFrame(y.host, y.toHost[0]);
    FitsNow(y);
    NoConfigs();
    ViewportOutputs(y.host, y.toHost[0], now);
    if e.outputs == [] {
      QuietKeeps(y, []);
    } else {
      var m := Msg(CONFIG, ConfigBody(e.state));
      ConfigsOfOne(m);
      ConfigKeeps(y, e.state, [m]);
    }
  }

  lemma {:induction false} HostQuietKeeps(y: System, now: int)
    requires Inv(y) && y.toHost != []
    requires var d := y.toHost[0];
      y.host.phase == Closed || d.Ignored? || d.msgType == BYE || d.msgType == CLOCK_PING
    ensures Inv(Next(y, HostReads(now))) && NoFailure(OnFrame(y.host, y.toHost[0]), y.toHost[0])
  {
    hide IntKey, InFlight, ConfigLog, Acks, Hellos, Configs, Inv, AsI64;
    var d := y.toHost[0];
    var e := OnFrame(y.host, d);
    NoConfigs();
    if e.outputs == [] {
      QuietKeeps(y, []);
    } else {
      RepliesOfOne(e.outputs[0], now);
      if d.msgType == BYE {
        ByeKeeps(y);
      } else {
        var sent := Replies(e.outputs, now);
        ConfigsOfOne(sent[0]);
        QuietKeeps(y, sent);
      }
    }
  }

  lemma {:induction false} HostKeeps(y: System, now: int)
    requires Inv(y) && Allowed(y, HostReads(now))
    ensures Inv(Next(y, HostReads(now))) && NoFailure(OnFrame(y.host, y.toHost[0]), y.toHost[0])
  {
    hide OnFrame, Inv, NoFailure, IntKey, OffersCodec, ValidHello;
    var d := y.toHost[0];
    if y.host.phase == Closed || d.Ignored? || d.msgType == BYE || d.msgType == CLOCK_PING {
      HostQuietKeeps(y, now);
    } else {
      HostAccepts(y);
      FitsNow(y);
      match y.host.phase
      case WaitHello => HostHelloKeeps(y, now);
      case WaitConfigAck => HostAckKeeps(y, now);
      case Streaming =>
        if d.msgType == VIEWPORT {
          HostViewportKeeps(y, now);
        } else if IsStreamMessage(d.msgType) {
          HostPlayKeeps(y, now);
        } else {
          HostAckKeeps(y, now);
        }
    }
  }

  // ---------------------------------------------------------------- every run

  lemma {:induction false} StepKeeps(y: System, a: Action)
    requires Inv(y) && Allowed(y, a)
    ensures Inv(Next(y, a))
  {
    hide Inv, OnFrame, IntKey, OffersCodec, Acks, Configs, Replies;
    match a
    case Greet(body) => GreetKeeps(y, body);
    case Ack(body) => AckKeeps(y, body);
    case Play(t, body) => SendKeeps(y, y.client, Message(t, body));
    case Chatter(d) => SendKeeps(y, y.client, d);
    case Leave(body) => SendKeeps(y, y.client.(gone := true), Message(BYE, body));
    case ClientReads => ClientReadKeeps(y);
    case HostReads(now) => HostKeeps(y, now);
  }

  lemma {:induction false} GreetKeeps(y: System, body: seq<Entry>)
    requires Inv(y) && Allowed(y, Greet(body))
    ensures Inv(Next(y, Greet(body)))
  {
    hide Inv, IntKey, OffersCodec;
    SendKeeps(y, y.client.(greeted := true), Message(HELLO, body));
  }

  lemma {:induction false} StartFitsInv(host: State)
    requires host.phase == WaitHello && HostFits(host)
    ensures Inv(Start(host))
  {
  }

  lemma {:induction false} RunKeeps(ys: seq<System>, acts: seq<Action>, i: nat)
    requires IsRun(ys, acts) && i < |ys|
    ensures Inv(ys[i])
  {
    hide Inv, Next, Allowed;
    if i == 0 {
      var host, id, params, extras :| ys[0] == Start(Fresh(host, id, params, extras));
      StartFitsInv(Fresh(host, id, params, extras));
    } else {
      RunKeeps(ys, acts, i - 1);
      StepKeeps(ys[i - 1], acts[i - 1]);
    }
  }

  /**
   In every interleaving, at every moment: at most one CONFIG or its ACK is in flight and it carries the host's
   current generation; and whatever the host reads next, it neither reports an error nor closes, except for BYE.
   */
  lemma {:induction false} HostNeverFails(ys: seq<System>, acts: seq<Action>, i: nat)
    requires IsRun(ys, acts) && i < |ys|
    ensures var y := ys[i];
      && |InFlight(y)| <= 1
      && (forall t :: t in InFlight(y) ==> t == Some(y.host.generation))
      && (y.toHost != [] ==> NoFailure(OnFrame(y.host, y.toHost[0]), y.toHost[0]))
  {
    hide OnFrame, Next, Allowed, InFlight, NoFailure;
    RunKeeps(ys, acts, i);
    if ys[i].toHost != [] {
      HostKeeps(ys[i], 0) by {
        assert Allowed(ys[i], HostReads(0)) by { CanRead(ys[i]); }
      }
    }
  }

  lemma {:induction false} CanRead(y: System)
    requires y.toHost != []
    ensures Allowed(y, HostReads(0))
  {
  }

  /** Once no reconfiguration is pending, the client has already received the host's configuration as its latest. */
  lemma {:induction false} PeersAgree(ys: seq<System>, acts: seq<Action>, i: nat)
    requires IsRun(ys, acts) && i < |ys| && ys[i].host.phase == Streaming && ys[i].host.pending.None?
    ensures var c := ys[i].client.configs; c != [] && c[|c| - 1] == ConfigBody(ys[i].host)
  {
    hide OnFrame, Next, Allowed, ConfigBody, Inv;
    RunKeeps(ys, acts, i);
    AgreedAlready(ys[i]);
  }

  lemma {:induction false} AgreedAlready(y: System)
    requires Inv(y) && y.host.phase == Streaming && y.host.pending.None?
    ensures var c := y.client.configs; c != [] && c[|c| - 1] == ConfigBody(y.host)
  {
    hide OnFrame, ConfigBody;
    assert InFlight(y) == [];
    assert Generations(Configs(y.toClient)) == [];
  }
}
