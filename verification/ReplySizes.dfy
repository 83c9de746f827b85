/** Everything the host ever sends fits a control frame, given bounds on its configuration that can be checked up front. */
module ReplySizes {
  import opened Basics
  import opened Cbor
  import opened Control
  import opened ControlStream
  import opened Session
  import opened SessionTrace
  import opened SessionFeatures
  import opened Connection
  import opened ConnectionEffects

  // ---------------------------------------------------------------- how long an encoding can get

  /** An upper bound on the encoded length: nine bytes for every head. */
  function Bulk(v: Value): nat
    decreases v, 1
  {
    match v
    case Bytes(b) => 9 + |b|
    case Text(t) => 9 + |t|
    case Array(items) => 9 + BulkAll(items)
    case Map(entries) => 9 + BulkEntries(entries)
    case _ => 9
  }

  function BulkAll(vs: seq<Value>): nat
    decreases vs, 0
  {
    if vs == [] then 0 else Bulk(vs[0]) + BulkAll(vs[1..])
  }

  function BulkEntries(es: seq<Entry>): nat
    decreases es, 0
  {
    if es == [] then 0 else BulkEntry(es[0]) + BulkEntries(es[1..])
  }

  function BulkEntry(e: Entry): nat
    decreases e, 0
  {
    Bulk(e.key) + Bulk(e.val)
  }

  lemma {:induction false} EmitSplit(a: seq<Item>, b: seq<Item>)
    ensures |Emit(a + b)| == |Emit(a)| + |Emit(b)|
  {
    if a == [] {
      assert a + b == b;
    } else {
      assert (a + b)[1..] == a[1..] + b;
      EmitSplit(a[1..], b);
    }
  }

  lemma {:induction false} InsertSize(items: seq<Item>, x: Item)
    ensures |Emit(InsertItem(items, x))| == |Emit(items)| + |Emit([x])|
  {
    hide LexAtMost, Emit;
    if items == [] || LexAtMost(items[|items| - 1].kb, x.kb) {
      EmitSplit(items, [x]);
    } else {
      var init, last := items[..|items| - 1], items[|items| - 1];
      InsertSize(init, x);
      EmitSplit(InsertItem(init, x), [last]);
      EmitSplit(init, [last]);
      assert items == init + [last];
    }
  }

  /** Sorting changes no length. */
  lemma {:induction false} SortSize(items: seq<Item>)
    ensures |Emit(SortItems(items))| == |Emit(items)|
  {
    hide InsertItem, Emit;
    if items != [] {
      var init, last := items[..|items| - 1], items[|items| - 1];
      SortSize(init);
      InsertSize(SortItems(init), last);
      EmitSplit(init, [last]);
      assert items == init + [last];
    }
  }

  lemma {:induction false} AllBounds(vs: seq<Value>)
    requires forall i :: 0 <= i < |vs| ==> |Encode(vs[i])| <= Bulk(vs[i])
    ensures |EncodeAll(vs)| <= BulkAll(vs)
  {
    hide Encode, Bulk;
    if vs != [] {
      AllBounds(vs[1..]);
    }
  }

  lemma {:induction false} EntriesBounds(es: seq<Entry>)
    requires forall i :: 0 <= i < |es| ==>
      |Encode(es[i].key)| <= Bulk(es[i].key) && |Encode(es[i].val)| <= Bulk(es[i].val)
    ensures |Emit(EncodeEntries(es))| <= BulkEntries(es)
  {
    hide Encode, Bulk;
    if es != [] {
      EntriesBounds(es[1..]);
      assert EncodeEntries(es)[1..] == EncodeEntries(es[1..]);
    }
  }

  lemma {:induction false} BulkBounds(v: Value)
    requires InRange(v)
    ensures |Encode(v)| <= Bulk(v)
    decreases v
  {
    hide Head, Emit, SortItems;
    match v
    case Array(items) =>
      forall i | 0 <= i < |items|
        ensures |Encode(items[i])| <= Bulk(items[i])
      {
        BulkBounds(items[i]);
      }
      AllBounds(items);
    case Map(entries) =>
      forall i | 0 <= i < |entries|
        ensures |Encode(entries[i].key)| <= Bulk(entries[i].key) && |Encode(entries[i].val)| <= Bulk(entries[i].val)
      {
        assert entries[i] < v && EntryInRange(entries[i]);
        BulkBounds(entries[i].key);
        BulkBounds(entries[i].val);
      }
      EntriesBounds(entries);
      SortSize(EncodeEntries(entries));
    case _ =>
  }

  /** A message whose body has a small enough bound can be sent. */
  lemma {:induction false} SmallIsSendable(m: Msg)
    requires m.msgType < TWO_64 && |m.body| < TWO_64 && EntriesInRange(m.body)
    requires 27 + BulkEntries(m.body) <= MAX_FRAME_BODY
    ensures Sendable(m)
  {
    hide Encode, BulkEntries, EntriesInRange;
    var v := Envelope(m.msgType, m.body);
    assert InRange(v.items[0]) && InRange(v.items[1]);
    BulkBounds(v);
    assert v.items[1..][1..] == [];
    assert BulkAll(v.items) == Bulk(v.items[0]) + BulkAll(v.items[1..]);
  }

  // ---------------------------------------------------------------- the bodies the host sends

  lemma {:induction false} BulkSplit(a: seq<Entry>, b: seq<Entry>)
    ensures BulkEntries(a + b) == BulkEntries(a) + BulkEntries(b)
  {
    hide Bulk;
    if a == [] {
      assert a + b == b;
    } else {
      assert (a + b)[1..] == a[1..] + b;
      BulkSplit(a[1..], b);
    }
  }

  /** A small integer key with a value. */
  lemma {:induction false} OneEntry(k: nat, v: Value)
    requires k < TWO_64 && InRange(v)
    ensures var e := Entry(Int(k), v);
      BulkEntries([e]) == 9 + Bulk(v) && EntryInRange(e)
  {
    var e := Entry(Int(k), v);
    assert [e][1..] == [];
    assert BulkEntries([e]) == BulkEntry(e) + BulkEntries([e][1..]);
  }

  lemma {:induction false} PairBulk(a: int, b: int)
    requires -TWO_64 <= a < TWO_64 && -TWO_64 <= b < TWO_64
    ensures var v := Array([Int(a), Int(b)]); InRange(v) && Bulk(v) == 27
  {
    var vs := [Int(a), Int(b)];
    assert vs[1..] == [Int(b)] && vs[1..][1..] == [];
    assert BulkAll(vs) == Bulk(vs[0]) + BulkAll(vs[1..]);
  }

  /** Bodies are put together entry by entry; `bulk` and range add up. */
  ghost predicate BodyFits(es: seq<Entry>, bulk: nat) {
    EntriesInRange(es) && BulkEntries(es) <= bulk
  }

  lemma {:induction false} Add(es: seq<Entry>, bulk: nat, k: nat, v: Value, size: nat)
    requires BodyFits(es, bulk) && k < TWO_64 && InRange(v) && Bulk(v) <= size
    ensures BodyFits(es + [Entry(Int(k), v)], bulk + 9 + size)
  {
    hide Bulk, InRange, EntryInRange;
    var e := Entry(Int(k), v);
    OneEntry(k, v);
    BulkSplit(es, [e]);
    var all := es + [e];
    forall i | 0 <= i < |all|
      ensures EntryInRange(all[i])
    {
      assert i < |es| ==> EntryInRange(es[i]);
    }
  }

  lemma {:induction false} AddInt(es: seq<Entry>, bulk: nat, k: nat, i: int)
    requires BodyFits(es, bulk) && k < TWO_64 && -TWO_64 <= i < TWO_64
    ensures BodyFits(es + [Entry(Int(k), Int(i))], bulk + 18)
  {
    hide BodyFits;
    Add(es, bulk, k, Int(i), 9);
  }

  lemma {:induction false} AddPair(es: seq<Entry>, bulk: nat, k: nat, a: int, b: int)
    requires BodyFits(es, bulk) && k < TWO_64 && -TWO_64 <= a < TWO_64 && -TWO_64 <= b < TWO_64
    ensures BodyFits(es + [Entry(Int(k), Array([Int(a), Int(b)]))], bulk + 36)
  {
    hide BodyFits, Bulk;
    PairBulk(a, b);
    Add(es, bulk, k, Array([Int(a), Int(b)]), 27);
  }

  lemma {:induction false} NothingFits()
    ensures BodyFits([], 0)
  {
  }

  lemma {:induction false} StreamEntryBulk(c: StreamConfig)
    ensures InRange(StreamEntry(c)) && Bulk(StreamEntry(c)) <= 135
  {
    hide BodyFits;
    NothingFits();
    var p := c.params;
    AddInt([], 0, 0, c.streamId);
    var e0 := [] + [Entry(Int(0), Int(c.streamId))];
    AddPair(e0, 18, 1, p.width, p.height);
    var e1 := e0 + [Entry(Int(1), Array([Int(p.width), Int(p.height)]))];
    AddInt(e1, 54, 2, p.refresh);
    var e2 := e1 + [Entry(Int(2), Int(p.refresh))];
    AddInt(e2, 72, 3, p.bitrateKbps);
    var e3 := e2 + [Entry(Int(3), Int(p.bitrateKbps))];
    AddPair(e3, 90, 4, c.x, c.y);
    var e4 := e3 + [Entry(Int(4), Array([Int(c.x), Int(c.y)]))];
    assert StreamEntry(c) == Map(e4);
    MapBulk(e4, 126);
  }

  lemma {:induction false} MapBulk(es: seq<Entry>, bulk: nat)
    requires BodyFits(es, bulk) && |es| < TWO_64
    ensures InRange(Map(es)) && Bulk(Map(es)) <= 9 + bulk
  {
    hide BulkEntries, EntriesInRange;
  }

  function Extras(cs: seq<StreamConfig>): (vs: seq<Value>)
    ensures |vs| == |cs|
  {
    seq(|cs|, i requires 0 <= i < |cs| => StreamEntry(cs[i]))
  }

  lemma {:induction false} ExtrasBulk(cs: seq<StreamConfig>)
    requires |cs| < TWO_64
    ensures InRange(Array(Extras(cs))) && BulkAll(Extras(cs)) <= 135 * |cs|
    decreases |cs|
  {
    hide StreamEntry, Bulk;
    if cs != [] {
      ExtrasBulk(cs[1..]);
      StreamEntryBulk(cs[0]);
      assert Extras(cs)[1..] == Extras(cs[1..]);
      forall i | 0 <= i < |cs|
        ensures InRange(Extras(cs)[i])
      {
        StreamEntryBulk(cs[i]);
      }
    }
  }

  lemma {:induction false} WelcomeFits(s: State)
    requires |s.hostName| + |s.sessionId| <= MAX_FRAME_BODY
    ensures BodyFits(WelcomeBody(s), 72 + |s.hostName| + |s.sessionId|)
  {
    hide BodyFits;
    NothingFits();
    var n, i := |s.hostName|, |s.sessionId|;
    AddInt([], 0, 0, PROTOCOL_VERSION);
    var e0 := [] + [Entry(Int(0), Int(PROTOCOL_VERSION))];
    Add(e0, 18, 1, Text(s.hostName), 9 + n);
    var e1 := e0 + [Entry(Int(1), Text(s.hostName))];
    Add(e1, 36 + n, 2, Bytes(s.sessionId), 9 + i);
    var e2 := e1 + [Entry(Int(2), Bytes(s.sessionId))];
    if s.multiActive {
      AddInt(e2, 54 + n + i, 3, FEATURE_MULTI_DISPLAY);
      assert WelcomeBody(s) == e2 + [Entry(Int(3), Int(FEATURE_MULTI_DISPLAY))];
    } else {
      assert WelcomeBody(s) == e2;
      MoreRoom(e2, 54 + n + i, 72 + n + i);
    }
  }

  lemma {:induction false} MoreRoom(es: seq<Entry>, a: nat, b: nat)
    requires BodyFits(es, a) && a <= b
    ensures BodyFits(es, b)
  {
  }

  lemma {:induction false} ConfigFits(s: State)
    requires s.generation < TWO_64 && |s.extraStreams| < TWO_64
    ensures BodyFits(ConfigBody(s), 144 + 135 * |s.extraStreams|)
  {
    hide BodyFits, Bulk;
    NothingFits();
    var p, n := s.params, |s.extraStreams|;
    AddInt([], 0, 0, s.generation);
    var e0 := [] + [Entry(Int(0), Int(s.generation))];
    AddInt(e0, 18, 1, p.codec);
    var e1 := e0 + [Entry(Int(1), Int(p.codec))];
    AddPair(e1, 36, 2, p.width, p.height);
    var e2 := e1 + [Entry(Int(2), Array([Int(p.width), Int(p.height)]))];
    AddInt(e2, 72, 3, p.refresh);
    var e3 := e2 + [Entry(Int(3), Int(p.refresh))];
    AddInt(e3, 90, 4, p.audio);
    var e4 := e3 + [Entry(Int(4), Int(p.audio))];
    AddInt(e4, 108, 5, p.bitrateKbps);
    var e5 := e4 + [Entry(Int(5), Int(p.bitrateKbps))];
    if s.multiActive {
      var xs := Extras(s.extraStreams);
      ExtrasBulk(s.extraStreams);
      ArrayBulk(xs);
      Add(e5, 126, 6, Array(xs), 9 + 135 * n);
      assert ConfigBody(s)[6].val.items == xs;
      assert ConfigBody(s) == e5 + [Entry(Int(6), Array(xs))];
    } else {
      assert ConfigBody(s) == e5;
      MoreRoom(e5, 126, 144 + 135 * n);
    }
  }

  lemma {:induction false} ArrayBulk(vs: seq<Value>)
    ensures Bulk(Array(vs)) == 9 + BulkAll(vs)
  {
  }

  lemma {:induction false} ErrorFits(code: nat, detail: seq<byte>)
    requires code < TWO_64 && |detail| <= 100
    ensures BodyFits(ErrorBody(code, detail), 136)
  {
    hide BodyFits;
    NothingFits();
    AddInt([], 0, 0, code);
    var e0 := [] + [Entry(Int(0), Int(code))];
    Add(e0, 18, 1, Text(detail), 109);
    assert ErrorBody(code, detail) == e0 + [Entry(Int(1), Text(detail))];
  }

  lemma {:induction false} PongFits(t0: int, now: int)
    requires -TWO_64 <= t0 < TWO_64 && -TWO_64 <= now < TWO_64
    ensures BodyFits(PongBody(t0, now), 54)
  {
    hide BodyFits;
    NothingFits();
    AddInt([], 0, 0, t0);
    var e0 := [] + [Entry(Int(0), Int(t0))];
    AddInt(e0, 18, 1, now);
    var e1 := e0 + [Entry(Int(1), Int(now))];
    AddInt(e1, 36, 2, now);
    assert PongBody(t0, now) == e1 + [Entry(Int(2), Int(now))];
  }

  lemma {:induction false} FittingIsSendable(m: Msg, bulk: nat)
    requires m.msgType < TWO_64 && |m.body| < TWO_64 && BodyFits(m.body, bulk) && 27 + bulk <= MAX_FRAME_BODY
    ensures Sendable(m)
  {
    hide BulkEntries, EntriesInRange, Sendable;
    SmallIsSendable(m);
  }

  // ---------------------------------------------------------------- over whole sessions

  /** What a host has to check about its configuration. */
  predicate ConfigSmall(hostName: seq<byte>, sessionId: seq<byte>, extras: seq<StreamConfig>) {
    99 + |hostName| + |sessionId| <= MAX_FRAME_BODY && 171 + 135 * |extras| <= MAX_FRAME_BODY
  }

  predicate StateSmall(s: State, generation: nat) {
    ConfigSmall(s.hostName, s.sessionId, s.extraStreams) && s.generation <= generation
  }

  predicate OutputSmall(o: Output) {
    match o
    case Send(t, body) => Sendable(Msg(t, body))
    case ClockPong(t0) => InI64(t0)
    case _ => true
  }

  lemma {:induction false} WelcomeSendable(s: State)
    requires ConfigSmall(s.hostName, s.sessionId, s.extraStreams)
    ensures OutputSmall(Send(WELCOME, WelcomeBody(s)))
  {
    hide BodyFits, Sendable;
    WelcomeFits(s);
    FittingIsSendable(Msg(WELCOME, WelcomeBody(s)), 72 + |s.hostName| + |s.sessionId|);
  }

  lemma {:induction false} ConfigSendable(s: State)
    requires ConfigSmall(s.hostName, s.sessionId, s.extraStreams) && s.generation < TWO_64
    ensures OutputSmall(Send(CONFIG, ConfigBody(s)))
  {
    hide BodyFits, Sendable;
    ConfigFits(s);
    FittingIsSendable(Msg(CONFIG, ConfigBody(s)), 144 + 135 * |s.extraStreams|);
  }

  lemma {:induction false} ErrorSendable(code: nat)
    requires code < TWO_64
    ensures OutputSmall(Send(ERROR, ErrorBody(code, Detail(code))))
  {
    hide BodyFits, Sendable;
    ErrorFits(code, Detail(code));
    FittingIsSendable(Msg(ERROR, ErrorBody(code, Detail(code))), 136);
  }

  lemma {:induction false} StartSendable()
    ensures OutputSmall(Send(START, []))
  {
    hide Sendable;
    NothingFits();
    FittingIsSendable(Msg(START, []), 0);
  }

  lemma {:induction false} CastFits(i: int)
    ensures InI64(AsI64(i))
  {
  }

  lemma {:induction false} HelloSmall(s: State, msgType: nat, body: seq<Entry>, generation: nat)
    requires StateSmall(s, generation) && generation + 1 < TWO_64
    ensures var e := OnHello(s, msgType, body);
      StateSmall(e.state, generation + 1) && forall o :: o in e.outputs ==> OutputSmall(o)
  {
    hide Detail, ErrorBody, ConfigBody, WelcomeBody, IntKey, PairElem, OffersCodec, AsU64, OutputSmall, ConfigSmall;
    var e := OnHello(s, msgType, body);
    WelcomeSendable(e.state);
    if e.state.phase != Closed {
      ConfigSendable(e.state);
    }
    ErrorSendable(PROTOCOL_VIOLATION);
    ErrorSendable(VERSION_UNSUPPORTED);
    ErrorSendable(NO_COMMON_CODEC);
    NoMessage(Close(PROTOCOL_VIOLATION));
    NoMessage(Close(VERSION_UNSUPPORTED));
    NoMessage(Close(NO_COMMON_CODEC));
  }

  lemma {:induction false} NoMessage(o: Output)
    requires !o.Send? && !o.ClockPong?
    ensures OutputSmall(o)
  {
  }

  lemma {:induction false} StreamingSmall(s: State, msgType: nat, body: seq<Entry>, generation: nat)
    requires StateSmall(s, generation) && generation + 1 < TWO_64
    ensures var e := OnStreaming(s, msgType, body);
      StateSmall(e.state, generation + 1) && forall o :: o in e.outputs ==> OutputSmall(o)
  {
    hide Detail, ErrorBody, ConfigBody, IntKey, PairElem, ClampDim, ReadStats, AsU64, AsU16, OutputSmall, ConfigSmall;
    var e := OnStreaming(s, msgType, body);
    ConfigSendable(e.state);
    ErrorSendable(PROTOCOL_VIOLATION);
    forall o: Output | !o.Send? && !o.ClockPong?
      ensures OutputSmall(o)
    {
      NoMessage(o);
    }
  }

  /** One step sends only messages that fit, and raises the generation by at most one. */
  lemma {:induction false} StepSmall(s: State, d: Decoded, generation: nat)
    requires StateSmall(s, generation) && generation + 1 < TWO_64
    ensures var e := OnFrame(s, d);
      StateSmall(e.state, generation + 1) && forall o :: o in e.outputs ==> OutputSmall(o)
  {
    hide Detail, ErrorBody, IntKey, AsI64, Sendable, InI64, ConfigSmall, OnHello, OnStreaming;
    if d.Message? {
      HelloSmall(s, d.msgType, d.body, generation);
      StreamingSmall(s, d.msgType, d.body, generation);
      ErrorSendable(PROTOCOL_VIOLATION);
      StartSendable();
      CastFits(GetOr(IntKey(d.body, 0), 0));
    }
  }

  lemma {:induction false} RunSmall(s: State, inputs: seq<Decoded>)
    requires StateSmall(s, 0) && |inputs| < TWO_64
    ensures StateSmall(After(s, inputs), |inputs|)
    ensures forall i, o :: 0 <= i < |inputs| && o in Batches(s, inputs)[i] ==> OutputSmall(o)
    decreases |inputs|
  {
    hide OnFrame, StateSmall, OutputSmall;
    if inputs != [] {
      var init, d := inputs[..|inputs| - 1], inputs[|inputs| - 1];
      RunSmall(s, init);
      StepSmall(After(s, init), d, |init|);
    }
  }

  lemma {:induction false} ReplySendable(o: Output, now: u64)
    requires OutputSmall(o)
    ensures forall m :: m in Reply(o, now) ==> Sendable(m)
  {
    hide Sendable, BodyFits;
    if o.ClockPong? {
      PongFits(o.t0, now);
      FittingIsSendable(Msg(CLOCK_PONG, PongBody(o.t0, now)), 54);
    }
  }

  lemma {:induction false} RepliesSendable(b: seq<Output>, now: u64)
    requires forall o :: o in b ==> OutputSmall(o)
    ensures forall m :: m in Replies(b, now) ==> Sendable(m)
    decreases |b|
  {
    hide Sendable, OutputSmall, Reply;
    if b != [] {
      RepliesSendable(b[..|b| - 1], now);
      ReplySendable(b[|b| - 1], now);
    }
  }

  lemma {:induction false} AllRepliesSendable(batches: seq<seq<Output>>, clock: nat -> int)
    requires forall i, o :: 0 <= i < |batches| && o in batches[i] ==> OutputSmall(o)
    requires forall n: nat :: 0 <= clock(n) < TWO_64
    ensures forall m :: m in AllReplies(batches, clock, 0) ==> Sendable(m)
    decreases |batches|
  {
    hide Sendable, OutputSmall, Replies;
    if batches != [] {
      var n := |batches| - 1;
      AllRepliesSendable(batches[..n], clock);
      RepliesSendable(batches[n], clock(n));
    }
  }

  /**
   For a host whose name, session id and list of extra streams are small enough for a control frame, every message of
   every session of fewer than 2^64 frames reaches the client: its read loop recovers them all, in order.
   */
  lemma {:induction false} EveryReplyArrives(cfg: HostCfg, sessionId: seq<byte>, inputs: seq<Decoded>, clock: nat -> int)
    requires cfg.streams != [] && ConfigSmall(cfg.name, sessionId, ExtraStreamConfigs(cfg))
    requires |inputs| < TWO_64 && forall n: nat :: 0 <= clock(n) < TWO_64
    ensures
      var batches := Batches(Opening(cfg, sessionId), inputs);
      var replies := AllReplies(batches, clock, 0);
      var read := ReadAll(DriveBatches(cfg, Wire([], [], None), batches, clock, 0).sent);
      && read.end == Eof && |read.results| == |replies|
      && forall i :: 0 <= i < |replies| ==> read.results[i] == Ok(Received(replies[i]))
  {
    hide Sendable, OutputSmall, Batches, AllReplies, DriveBatches, ReadAll, Received, Stream;
    var s := Opening(cfg, sessionId);
    RunSmall(s, inputs);
    AllRepliesSendable(Batches(s, inputs), clock);
    ClientReadsReplies(cfg, s, inputs, clock);
  }
}
