/** No deadlock: from every reachable state a client that has not left can bring the session to a settled stream. */
module SessionProgress {
  import opened Basics
  import opened Cbor
  import opened Control
  import opened Session
  import opened ConnectionEffects
  import opened SessionPeers

  predicate AllowedRun(y: System, acts: seq<Action>)
    decreases |acts|
  {
    acts == [] || (Allowed(y, acts[0]) && AllowedRun(Next(y, acts[0]), acts[1..]))
  }

  function End(y: System, acts: seq<Action>): System
    requires AllowedRun(y, acts)
    decreases |acts|
  {
    if acts == [] then y else End(Next(y, acts[0]), acts[1..])
  }

  predicate Settled(y: System) {
    y.host.phase == Streaming && y.host.pending.None?
  }

  predicate Alive(y: System) {
    y.host.phase != Closed && !y.client.gone
  }

  /** How far the session is from being settled, and the queue that has to be worked off at this stage. */
  function Stage(y: System): nat {
    if y.host.phase == WaitHello then if y.client.greeted then 3 else 4
    else if Acks(y.toHost) != [] then 0
    else if y.client.owed != [] then 1
    else 2
  }

  function Queue(y: System): nat {
    if Stage(y) == 3 || Stage(y) == 0 then |y.toHost| else |y.toClient|
  }

  /** What waits for the host, an ACK aside. */
  function Backlog(y: System): int {
    |y.toHost| - if Acks(y.toHost) != [] then 1 else 0
  }

  /** A next action that brings the session closer. */
  function Nudge(y: System, now: int): Action {
    match Stage(y)
    case 4 => Greet([Entry(Int(0), Int(PROTOCOL_VERSION)), Entry(Int(2), Array([Int(CODEC_HEVC)]))])
    case 1 =>
      if y.client.owed != [] && y.client.owed[0].Some? then Ack([Entry(Int(0), Int(y.client.owed[0].value))])
      else ClientReads
    case 2 => ClientReads
    case _ => HostReads(now)
  }

  predicate Closer(y: System, z: System) {
    && Alive(z)
    && (y.host.phase == Streaming ==> z.host == y.host.(pending := z.host.pending) && Backlog(z) <= Backlog(y))
    && z.host.generation <= AtLeast(y.host.generation, 1)
    && (Settled(z) || Stage(z) < Stage(y) || (Stage(z) == Stage(y) && Queue(z) < Queue(y)))
  }

  lemma {:induction false} GreetNudges(y: System, now: int)
    requires Inv(y) && Alive(y) && Stage(y) == 4
    ensures Allowed(y, Nudge(y, now)) && Closer(y, Next(y, Nudge(y, now)))
  {
    hide Inv;
    var body := [Entry(Int(0), Int(PROTOCOL_VERSION)), Entry(Int(2), Array([Int(CODEC_HEVC)]))];
    assert body[1].val.items[0] == Int(CODEC_HEVC);
    assert OffersCodec(body, CODEC_HEVC);
  }

  lemma {:induction false} HelloNudges(y: System, now: int)
    requires Inv(y) && Alive(y) && Stage(y) == 3
    ensures Allowed(y, Nudge(y, now)) && Closer(y, Next(y, Nudge(y, now)))
  {
    hide IntKey, PairElem, OffersCodec, ConfigBody, WelcomeBody, Configs, Generations, Replies, AsU64, AsI64;
    assert y.toHost != [];
    HostAccepts(y);
    var d := y.toHost[0];
    assert d in y.toHost;
  }

  lemma {:induction false} OneInFlight(y: System)
    requires Inv(y) && Alive(y) && !Settled(y) && y.host.phase != WaitHello
    ensures InFlight(y) == [Some(y.host.generation)]
  {
  }

  lemma {:induction false} AckNudges(y: System, now: int)
    requires Inv(y) && Alive(y) && !Settled(y) && Stage(y) == 1
    ensures Allowed(y, Nudge(y, now)) && Closer(y, Next(y, Nudge(y, now)))
  {
    hide Inv, Configs, Generations;
    OneInFlight(y);
    assert InFlight(y)[0] == y.client.owed[0];
    var a := Nudge(y, now);
    AcksAppend(y.toHost, Message(CONFIG_ACK, a.body));
  }

  lemma {:induction false} ReadNudges(y: System, now: int)
    requires Inv(y) && Alive(y) && !Settled(y) && Stage(y) == 2
    ensures Allowed(y, Nudge(y, now)) && Closer(y, Next(y, Nudge(y, now)))
  {
    hide Inv, IntKey;
    OneInFlight(y);
    assert Configs(y.toClient) != [];
  }

  /** While an ACK is on its way the host leaves everything before it without effect. */
  lemma {:induction false} HostNudges(y: System, now: int)
    requires Inv(y) && Alive(y) && !Settled(y) && y.host.phase != WaitHello && Stage(y) == 0
    ensures Allowed(y, Nudge(y, now)) && Closer(y, Next(y, Nudge(y, now)))
  {
    hide Inv, IntKey, PairElem, ClampDim, ReadStats, ConfigBody, Configs, Generations, Replies, AsI64, AsU16;
    assert y.toHost != [];
    HostAccepts(y);
    FitsNow(y);
    NoByeWaiting(y);
    HeadCounts(y.toHost);
  }

  lemma {:induction false} NoByeWaiting(y: System)
    requires Inv(y) && !y.client.gone && y.toHost != []
    ensures !IsBye(y.toHost[0])
  {
    assert y.toHost[0] in y.toHost;
  }

  lemma {:induction false} Nudged(y: System, now: int)
    requires Inv(y) && Alive(y) && !Settled(y)
    ensures Allowed(y, Nudge(y, now)) && Closer(y, Next(y, Nudge(y, now)))
  {
    hide Inv, Allowed, Next, Closer, Nudge, Settled, Alive;
    if Stage(y) == 4 {
      GreetNudges(y, now);
    } else if Stage(y) == 3 {
      HelloNudges(y, now);
    } else if Stage(y) == 2 {
      ReadNudges(y, now);
    } else if Stage(y) == 1 {
      AckNudges(y, now);
    } else {
      HostNudges(y, now);
    }
  }

  /**
   Some allowed continuation settles the session: the handshake completes, or the pending reconfiguration is
   acknowledged, and a host that is streaming keeps what it has announced.
   */
  lemma {:induction false} CanSettle(y: System) returns (acts: seq<Action>)
    requires Inv(y) && Alive(y)
    ensures AllowedRun(y, acts) && Settled(End(y, acts)) && Alive(End(y, acts))
    ensures y.host.phase == Streaming ==>
      End(y, acts).host == y.host.(pending := None) && Backlog(End(y, acts)) <= Backlog(y)
    decreases Stage(y), Queue(y)
  {
    hide Inv, Allowed, Next, Nudge, Stage, Queue;
    if Settled(y) {
      acts := [];
    } else {
      Nudged(y, 0);
      var a := Nudge(y, 0);
      var z := Next(y, a);
      StepKeeps(y, a);
      var more := [];
      if !Settled(z) {
        more := CanSettle(z);
      }
      acts := [a] + more;
      assert acts[1..] == more;
    }
  }

  /** From every reachable state of host and client in which nobody has said goodbye. */
  lemma {:induction false} NeverStuck(ys: seq<System>, taken: seq<Action>, i: nat) returns (acts: seq<Action>)
    requires IsRun(ys, taken) && i < |ys| && Alive(ys[i])
    ensures AllowedRun(ys[i], acts) && Settled(End(ys[i], acts))
    ensures ys[i].host.phase == Streaming ==> End(ys[i], acts).host == ys[i].host.(pending := None)
  {
    RunKeeps(ys, taken, i);
    acts := CanSettle(ys[i]);
  }
}
