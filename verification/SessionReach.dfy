/** A playing client gets whatever size it asks for, within the limits, from every reachable state. */
module SessionReach {
  import opened Basics
  import opened Cbor
  import opened Control
  import opened ControlStream
  import opened Session
  import opened SessionFeatures
  import opened SessionLimits
  import opened ConnectionEffects
  import opened SessionPeers
  import opened SessionProgress

  lemma {:induction false} EndJoins(y: System, a: seq<Action>, b: seq<Action>)
    requires AllowedRun(y, a) && AllowedRun(End(y, a), b)
    ensures AllowedRun(y, a + b) && End(y, a + b) == End(End(y, a), b)
    decreases |a|
  {
    hide Allowed, Next;
    if a == [] {
      assert a + b == b;
    } else {
      assert (a + b)[1..] == a[1..] + b;
      EndJoins(Next(y, a[0]), a[1..], b);
    }
  }

  // ---------------------------------------------------------------- a streaming host has sent START

  /** The client has read START, or it is on its way. */
  predicate StartSent(y: System) {
    y.host.phase == Streaming ==> y.client.playing || exists i :: 0 <= i < |y.toClient| && y.toClient[i].msgType == START
  }

  lemma {:induction false} HostStarts(s: State, d: Decoded, now: int)
    requires s.phase != Streaming && OnFrame(s, d).state.phase == Streaming
    ensures Replies(OnFrame(s, d).outputs, now) == [Msg(START, [])]
  {
    hide IntKey, PairElem, OffersCodec, ConfigBody, WelcomeBody;
    RepliesOfTwo(Send(START, []), StartMedia(s.multiActive), now);
  }

  lemma {:induction false} StepKeepsStart(y: System, a: Action)
    requires Allowed(y, a) && StartSent(y)
    ensures StartSent(Next(y, a))
  {
    hide OnFrame, IntKey, Replies, ValidHello;
    var z := Next(y, a);
    if a.HostReads? && z.host.phase == Streaming {
      if y.host.phase != Streaming {
        HostStarts(y.host, y.toHost[0], a.now);
        assert z.toClient[|y.toClient|].msgType == START;
      } else if !y.client.playing {
        var i :| 0 <= i < |y.toClient| && y.toClient[i].msgType == START;
        assert z.toClient[i].msgType == START;
      }
    } else if a.ClientReads? && z.host.phase == Streaming && !z.client.playing {
      var i :| 0 <= i < |y.toClient| && y.toClient[i].msgType == START;
      assert i > 0 && z.toClient[i - 1].msgType == START;
    }
  }

  lemma {:induction false} ReachedWell(ys: seq<System>, taken: seq<Action>, i: nat)
    requires IsRun(ys, taken) && i < |ys|
    ensures Inv(ys[i]) && StartSent(ys[i])
  {
    hide Allowed, Next, Inv, StartSent;
    RunKeeps(ys, taken, i);
    if i == 0 {
      assert StartSent(ys[0]) by { StartsUnstarted(ys, taken); }
    } else {
      ReachedWell(ys, taken, i - 1);
      StepKeepsStart(ys[i - 1], taken[i - 1]);
    }
  }

  lemma {:induction false} StartsUnstarted(ys: seq<System>, taken: seq<Action>)
    requires IsRun(ys, taken)
    ensures StartSent(ys[0])
  {
    hide Allowed, Next;
  }

  /** The invariants at the end of a continuation. */
  lemma {:induction false} EndKeeps(y: System, acts: seq<Action>)
    requires Inv(y) && StartSent(y) && AllowedRun(y, acts)
    ensures Inv(End(y, acts)) && StartSent(End(y, acts))
    decreases |acts|
  {
    hide Allowed, Next, Inv, StartSent;
    if acts != [] {
      StepKeeps(y, acts[0]);
      StepKeepsStart(y, acts[0]);
      EndKeeps(Next(y, acts[0]), acts[1..]);
    }
  }

  // ---------------------------------------------------------------- working off the queues

  predicate Quiet(y: System) {
    Settled(y) && Alive(y) && Inv(y) && StartSent(y)
  }

  lemma {:induction false} HostStays(y: System)
    requires Quiet(y) && y.toHost != []
    ensures var z := Next(y, HostReads(0)); Alive(z) && z.host.phase == Streaming && Backlog(z) <= |y.toHost| - 1
  {
    hide Inv, IntKey, PairElem, ClampDim, ReadStats, ConfigBody, Configs, Generations, Replies, AsI64, AsU16, AsU64;
    HostAccepts(y);
    NoByeWaiting(y);
  }

  lemma {:induction false} NothingOwed(y: System)
    requires Quiet(y)
    ensures Acks(y.toHost) == [] && y.client.owed == [] && Backlog(y) == |y.toHost|
  {
    assert InFlight(y) == [];
  }

  /** One action, then settling again. */
  lemma {:induction false} SettlesAfter(y: System, a: Action) returns (acts: seq<Action>)
    requires Quiet(y) && Allowed(y, a) && Alive(Next(y, a)) && Next(y, a).host.phase == Streaming
    ensures AllowedRun(y, acts) && Quiet(End(y, acts))
    ensures End(y, acts).host == Next(y, a).host.(pending := None) && |End(y, acts).toHost| <= Backlog(Next(y, a))
  {
    hide Allowed, Next, Inv, StartSent, Backlog;
    var z := Next(y, a);
    StepKeeps(y, a);
    StepKeepsStart(y, a);
    var more := CanSettle(z);
    EndKeeps(z, more);
    NothingOwed(End(z, more));
    acts := [a] + more;
    assert acts[1..] == more;
  }

  /** The host reads everything that waits for it; every reconfiguration on the way is settled. */
  lemma {:induction false} HostCatchesUp(y: System) returns (acts: seq<Action>)
    requires Quiet(y)
    ensures AllowedRun(y, acts) && Quiet(End(y, acts)) && End(y, acts).toHost == []
    decreases |y.toHost|
  {
    hide Allowed, Next, Quiet, Backlog;
    if y.toHost == [] {
      acts := [];
    } else {
      CanRead(y);
      HostStays(y);
      var first := SettlesAfter(y, HostReads(0));
      var rest := HostCatchesUp(End(y, first));
      EndJoins(y, first, rest);
      acts := first + rest;
    }
  }

  lemma {:induction false} ClientCatchesUp(y: System) returns (acts: seq<Action>)
    requires Quiet(y) && y.toHost == []
    ensures AllowedRun(y, acts) && Quiet(End(y, acts)) && End(y, acts).toHost == [] && End(y, acts).toClient == []
    decreases |y.toClient|
  {
    hide OnFrame, Inv, Replies, IntKey, ValidHello;
    acts := [];
    if y.toClient != [] {
      StepKeeps(y, ClientReads);
      StepKeepsStart(y, ClientReads);
      var rest := ClientCatchesUp(Next(y, ClientReads));
      acts := [ClientReads] + rest;
      assert acts[1..] == rest;
    }
  }

  // ---------------------------------------------------------------- asking for a size

  function Request(rw: u64, rh: u64): seq<Entry> {
    [Entry(Int(0), Array([Int(rw), Int(rh)]))]
  }

  lemma {:induction false} RequestReads(rw: u64, rh: u64)
    ensures PairElem(Request(rw, rh), 0, 0) == Some(rw) && PairElem(Request(rw, rh), 0, 1) == Some(rh)
  {
    hide PairElem, IntKey, FloatKey;
    IntKeyAt(Request(rw, rh), 0);
  }

  /** The host's size is the answer to the request under the limits it holds. */
  predicate Meets(s: State, rw: nat, rh: nat) {
    && Answers(s.params.width, rw, Ceiling(3840, s.clientMaxWidth))
    && Answers(s.params.height, rh, Ceiling(2160, s.clientMaxHeight))
  }

  lemma {:induction false} RequestIsMet(s: State, rw: u64, rh: u64)
    requires s.phase == Streaming && s.pending.None?
    ensures var e := OnFrame(s, Message(0x22, Request(rw, rh)));
      e.state.phase == Streaming && Meets(e.state, rw, rh)
  {
    hide OnFrame, ClampDim, PairElem, IntKey, Answers, Ceiling;
    RequestReads(rw, rh);
    ClampFollows(rw, 3840, s.clientMaxWidth);
    ClampFollows(rh, 2160, s.clientMaxHeight);
    var w, h := ClampDim(rw, 3840, s.clientMaxWidth), ClampDim(rh, 2160, s.clientMaxHeight);
    ViewportIsAnswered(s, Request(rw, rh), rw, rh, w, h);
  }

  lemma {:induction false} AskSettles(y: System, rw: u64, rh: u64) returns (acts: seq<Action>)
    requires Quiet(y) && y.toHost == [] && y.toClient == []
    ensures AllowedRun(y, acts) && Quiet(End(y, acts)) && Meets(End(y, acts).host, rw, rh)
  {
    hide OnFrame, Inv, Replies, IntKey, ValidHello, Answers, Ceiling, Request;
    var ask := Play(0x22, Request(rw, rh));
    var z := Next(y, ask);
    StepKeeps(y, ask);
    StepKeepsStart(y, ask);
    RequestIsMet(y.host, rw, rh);
    var rest := SettlesAfter(z, HostReads(0));
    acts := [ask] + rest;
    assert acts[1..] == rest;
  }

  /**
   From every reachable state in which nobody has said goodbye, and for every size, some continuation ends with nothing
   pending, the host at the answer to that size, and the client having read the configuration that says so.
   */
  lemma {:induction false} AnySizeIsReached(ys: seq<System>, taken: seq<Action>, i: nat, rw: u64, rh: u64)
    returns (acts: seq<Action>)
    requires IsRun(ys, taken) && i < |ys| && Alive(ys[i])
    ensures AllowedRun(ys[i], acts)
    ensures
      var z := End(ys[i], acts);
      && Settled(z) && Meets(z.host, rw, rh)
      && z.client.configs != [] && z.client.configs[|z.client.configs| - 1] == ConfigBody(z.host)
  {
    hide Allowed, Next, Inv, StartSent, Meets, ConfigBody;
    ReachedWell(ys, taken, i);
    var a := CanSettle(ys[i]);
    EndKeeps(ys[i], a);
    var b := HostCatchesUp(End(ys[i], a));
    EndJoins(ys[i], a, b);
    var c := ClientCatchesUp(End(ys[i], a + b));
    EndJoins(ys[i], a + b, c);
    var d := AskSettles(End(ys[i], a + b + c), rw, rh);
    EndJoins(ys[i], a + b + c, d);
    acts := a + b + c + d;
    AgreedAlready(End(ys[i], acts));
  }
}
