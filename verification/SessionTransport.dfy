/**
 The session cannot tell a message that crossed the control stream from the message as sent: sorting the entries,
 canonicalising nested maps and stripping unknown keys change no lookup, because the sort is stable.
 */
module SessionTransport {
  import opened Basics
  import opened Cbor
  import opened CborReading
  import opened CborRepeats
  import opened Control
  import opened ControlStream
  import opened Session
  import opened SessionTrace
  import opened ConnectionRuns

  lemma {:induction false} CanonIsInt(v: Value, k: int)
    ensures Canon(v) == Int(k) <==> v == Int(k)
  {
    match v
    case Array(_) =>
    case Map(_) =>
    case _ =>
  }

  lemma {:induction false} CanonUnder(es: seq<Entry>, k: int)
    ensures Under(CanonEach(es), Int(k)) == CanonAll(Under(es, Int(k)))
  {
    hide SortEntries;
    if es != [] {
      CanonUnder(es[1..], k);
      var c, u := CanonEach(es), Under(es[1..], Int(k));
      assert c[1..] == CanonEach(es[1..]) && c[0] == CanonEntry(es[0]);
      CanonIsInt(es[0].key, k);
      if es[0].key == Int(k) {
        assert Under(es, Int(k)) == [es[0].val] + u && ([es[0].val] + u)[1..] == u;
        assert CanonAll([es[0].val] + u) == [Canon(es[0].val)] + CanonAll(u);
      } else {
        assert Under(es, Int(k)) == u;
      }
    }
  }

  lemma {:induction false} KeepUnder(es: seq<Entry>, keys: seq<int>, k: int)
    requires k in keys
    ensures Under(KeepKnown(es, keys), Int(k)) == Under(es, Int(k))
  {
    hide Under;
    if es == [] {
    } else {
      var init, last := es[..|es| - 1], es[|es| - 1];
      KeepUnder(init, keys, k);
      UnderSplit(init, [last], Int(k));
      assert es == init + [last];
      UnderOne(last, Int(k));
      if Kept(last, keys) {
        UnderSplit(KeepKnown(init, keys), [last], Int(k));
      } else {
        assert KeepKnown(init, keys) + [] == KeepKnown(init, keys);
      }
    }
  }

  lemma {:induction false} ReceivedUnder(m: Msg, k: int)
    requires KnownKeys(m.msgType).Some? && k in KnownKeys(m.msgType).value
    ensures Under(Received(m).body, Int(k)) == CanonAll(Under(m.body, Int(k)))
  {
    hide Under, KeepKnown, SortEntries, CanonAll;
    KeepUnder(SortEntries(CanonEach(m.body)), KnownKeys(m.msgType).value, k);
    SortUnder(CanonEach(m.body), Int(k));
    CanonUnder(m.body, k);
  }

  // ---------------------------------------------------------------- what the lookups make of the values

  function FirstInt(vs: seq<Value>): Option<int> {
    if vs == [] then None else if vs[0].Int? then Some(vs[0].i) else FirstInt(vs[1..])
  }

  function FirstElem(vs: seq<Value>, idx: nat): Option<int> {
    if vs == [] then None
    else if vs[0].Array? && idx < |vs[0].items| && vs[0].items[idx].Int? then Some(vs[0].items[idx].i)
    else FirstElem(vs[1..], idx)
  }

  function FirstFloat(vs: seq<Value>): Option<seq<byte>> {
    if vs == [] then None else if vs[0].Float? then Some(vs[0].ieee) else FirstFloat(vs[1..])
  }

  predicate Offers(vs: seq<Value>, codec: int) {
    vs != [] && ((vs[0].Array? && Int(codec) in vs[0].items) || Offers(vs[1..], codec))
  }

  lemma {:induction false} LookupsSeeUnder(es: seq<Entry>, k: int, idx: nat)
    ensures IntKey(es, k) == FirstInt(Under(es, Int(k)))
    ensures PairElem(es, k, idx) == FirstElem(Under(es, Int(k)), idx)
    ensures FloatKey(es, k) == FirstFloat(Under(es, Int(k)))
  {
    if es != [] {
      LookupsSeeUnder(es[1..], k, idx);
      if es[0].key == Int(k) {
        var u := Under(es, Int(k));
        assert u == [es[0].val] + Under(es[1..], Int(k)) && u[1..] == Under(es[1..], Int(k));
      } else {
        assert Under(es, Int(k)) == Under(es[1..], Int(k));
      }
    }
  }

  lemma {:induction false} OffersSeesUnder(es: seq<Entry>, codec: int)
    ensures OffersCodec(es, codec) <==> Offers(Under(es, Int(2)), codec)
  {
    if es != [] {
      var rest := es[1..];
      OffersSeesUnder(rest, codec);
      var here := es[0].key == Int(2) && es[0].val.Array? && Int(codec) in es[0].val.items;
      assert OffersCodec(es, codec) <==> here || OffersCodec(rest, codec) by {
        OffersHead(es, codec);
      }
      if es[0].key == Int(2) {
        var u := Under(es, Int(2));
        assert u == [es[0].val] + Under(rest, Int(2)) && u[1..] == Under(rest, Int(2));
      } else {
        assert Under(es, Int(2)) == Under(rest, Int(2));
      }
    }
  }

  lemma {:induction false} OffersHead(es: seq<Entry>, codec: int)
    requires es != []
    ensures OffersCodec(es, codec) <==>
      (es[0].key == Int(2) && es[0].val.Array? && Int(codec) in es[0].val.items) || OffersCodec(es[1..], codec)
  {
    var rest := es[1..];
    if OffersCodec(rest, codec) {
      var i :| 0 <= i < |rest| && rest[i].key == Int(2) && rest[i].val.Array? && Int(codec) in rest[i].val.items;
      assert es[i + 1] == rest[i];
    }
    if OffersCodec(es, codec) {
      var i :| 0 <= i < |es| && es[i].key == Int(2) && es[i].val.Array? && Int(codec) in es[i].val.items;
      assert i > 0 ==> rest[i - 1] == es[i];
    }
  }

  /** Canonicalising values changes no integer, no array element that is one, and no float. */
  lemma {:induction false} CanonLookups(vs: seq<Value>, idx: nat)
    ensures FirstInt(CanonAll(vs)) == FirstInt(vs)
    ensures FirstElem(CanonAll(vs), idx) == FirstElem(vs, idx)
    ensures FirstFloat(CanonAll(vs)) == FirstFloat(vs)
  {
    hide SortEntries;
    if vs != [] {
      CanonLookups(vs[1..], idx);
      assert CanonAll(vs)[1..] == CanonAll(vs[1..]);
    }
  }

  lemma {:induction false} CanonOffers(vs: seq<Value>, codec: int)
    ensures Offers(CanonAll(vs), codec) <==> Offers(vs, codec)
  {
    hide SortEntries;
    if vs != [] {
      CanonOffers(vs[1..], codec);
      assert CanonAll(vs)[1..] == CanonAll(vs[1..]);
      if vs[0].Array? {
        CanonMembers(vs[0].items, codec);
      }
    }
  }

  lemma {:induction false} CanonMembers(items: seq<Value>, codec: int)
    ensures Int(codec) in CanonAll(items) <==> Int(codec) in items
  {
    hide SortEntries;
    var r := CanonAll(items);
    if Int(codec) in items {
      var i :| 0 <= i < |items| && items[i] == Int(codec);
      assert r[i] == Canon(items[i]) == Int(codec);
    }
    if Int(codec) in r {
      var i :| 0 <= i < |r| && r[i] == Int(codec);
      assert Canon(items[i]) == Int(codec);
    }
  }

  /** Every lookup under a registered key sees in the received body what it would have seen in the body sent. */
  lemma {:induction false} LookupsSurvive(m: Msg, k: int, idx: nat)
    requires KnownKeys(m.msgType).Some? && k in KnownKeys(m.msgType).value
    ensures IntKey(Received(m).body, k) == IntKey(m.body, k)
    ensures PairElem(Received(m).body, k, idx) == PairElem(m.body, k, idx)
    ensures FloatKey(Received(m).body, k) == FloatKey(m.body, k)
    ensures k == 2 ==> forall codec :: OffersCodec(Received(m).body, codec) == OffersCodec(m.body, codec)
  {
    hide KeepKnown, SortEntries, Under, IntKey, PairElem, FloatKey, OffersCodec, CanonAll;
    ReceivedUnder(m, k);
    var r := Received(m).body;
    LookupsSeeUnder(r, k, idx);
    LookupsSeeUnder(m.body, k, idx);
    CanonLookups(Under(m.body, Int(k)), idx);
    if k == 2 {
      forall codec
        ensures OffersCodec(r, codec) == OffersCodec(m.body, codec)
      {
        OffersSeesUnder(r, codec);
        OffersSeesUnder(m.body, codec);
        CanonOffers(Under(m.body, Int(2)), codec);
      }
    }
  }

  // ---------------------------------------------------------------- the session's view

  /** A message as its sender means it; unregistered types reach the session as nothing. */
  function AsSent(m: Msg): Decoded {
    if KnownKeys(m.msgType).None? then Ignored else Message(m.msgType, m.body)
  }

  predicate Alike(b: seq<Entry>, c: seq<Entry>, k: int) {
    && IntKey(b, k) == IntKey(c, k) && FloatKey(b, k) == FloatKey(c, k)
    && PairElem(b, k, 0) == PairElem(c, k, 0) && PairElem(b, k, 1) == PairElem(c, k, 1)
    && (k == 2 ==> OffersCodec(b, CODEC_HEVC) == OffersCodec(c, CODEC_HEVC))
  }

  lemma {:induction false} HelloAlike(s: State, b: seq<Entry>, c: seq<Entry>)
    requires Alike(b, c, 0) && Alike(b, c, 2) && Alike(b, c, 3) && Alike(b, c, 5)
    ensures OnHello(s, HELLO, b) == OnHello(s, HELLO, c)
  {
    hide IntKey, FloatKey, PairElem, OffersCodec, ConfigBody, WelcomeBody;
  }

  lemma {:induction false} StatsAlike(b: seq<Entry>, c: seq<Entry>)
    requires forall k :: 0 <= k < 8 ==> Alike(b, c, k)
    ensures ReadStats(b) == ReadStats(c)
  {
    hide IntKey, FloatKey, PairElem, OffersCodec;
    assert Alike(b, c, 0) && Alike(b, c, 1) && Alike(b, c, 2) && Alike(b, c, 3);
    assert Alike(b, c, 4) && Alike(b, c, 5) && Alike(b, c, 6) && Alike(b, c, 7);
  }

  lemma {:induction false} StatsFrameAlike(s: State, b: seq<Entry>, c: seq<Entry>)
    requires ReadStats(b) == ReadStats(c)
    ensures OnFrame(s, Message(STATS, b)) == OnFrame(s, Message(STATS, c))
  {
    hide IntKey, PairElem, OffersCodec, Fatal, ReadStats;
  }

  lemma {:induction false} HelloFrameAlike(s: State, b: seq<Entry>, c: seq<Entry>)
    requires OnHello(s, HELLO, b) == OnHello(s, HELLO, c)
    ensures OnFrame(s, Message(HELLO, b)) == OnFrame(s, Message(HELLO, c))
  {
    hide IntKey, PairElem, OffersCodec, Fatal, ReadStats, OnHello;
  }

  lemma {:induction false} KeyZeroAlike(s: State, msgType: nat, b: seq<Entry>, c: seq<Entry>)
    requires msgType != STATS && msgType != HELLO && Alike(b, c, 0) && (msgType == IDR_REQUEST ==> Alike(b, c, 1))
    ensures OnFrame(s, Message(msgType, b)) == OnFrame(s, Message(msgType, c))
  {
    hide IntKey, FloatKey, PairElem, OffersCodec, ConfigBody, WelcomeBody, Fatal, ReadStats, ClampDim;
  }

  /** No registered message's effect on the session depends on how the control stream rearranged it. */
  lemma {:induction false} TransportIsTransparent(s: State, m: Msg)
    ensures OnFrame(s, Received(m)) == OnFrame(s, AsSent(m))
  {
    hide IntKey, FloatKey, PairElem, OffersCodec, OnFrame, OnHello, ReadStats, KeepKnown;
    if KnownKeys(m.msgType).Some? {
      var b, c, keys := Received(m).body, m.body, KnownKeys(m.msgType).value;
      forall k | k in keys
        ensures Alike(b, c, k)
      {
        LookupsSurvive(m, k, 0);
        LookupsSurvive(m, k, 1);
      }
      if m.msgType == HELLO {
        HelloAlike(s, b, c);
        HelloFrameAlike(s, b, c);
      } else if m.msgType == STATS {
        StatsAlike(b, c);
        StatsFrameAlike(s, b, c);
      } else {
        EmptyOrZero(s, m);
      }
    }
  }

  /** START has no keys, and a host acts on it as on any unexpected message; every other type has key 0. */
  lemma {:induction false} EmptyOrZero(s: State, m: Msg)
    requires KnownKeys(m.msgType).Some? && m.msgType != HELLO && m.msgType != STATS
    requires forall k :: k in KnownKeys(m.msgType).value ==> Alike(Received(m).body, m.body, k)
    ensures OnFrame(s, Received(m)) == OnFrame(s, AsSent(m))
  {
    hide Alike, IntKey, FloatKey, PairElem, OffersCodec, Fatal, ReadStats, KeepKnown, OnViewport, OnReconfigAck;
    if m.msgType != START {
      KeyZeroAlike(s, m.msgType, Received(m).body, m.body);
    }
  }

  function Sent(msgs: seq<Msg>): (ds: seq<Decoded>)
    ensures |ds| == |msgs|
  {
    if msgs == [] then [] else Sent(msgs[..|msgs| - 1]) + [AsSent(msgs[|msgs| - 1])]
  }

  lemma {:induction false} HeardSnoc(msgs: seq<Msg>, m: Msg)
    ensures Heard(msgs + [m]) == Heard(msgs) + [Received(m)]
  {
    hide Received;
    if msgs == [] {
      assert msgs + [m] == [m] && [m][1..] == [];
    } else {
      assert (msgs + [m])[1..] == msgs[1..] + [m];
      HeardSnoc(msgs[1..], m);
    }
  }

  /** Over whole runs: the session behaves on the bytes of a message stream exactly as on the messages sent. */
  lemma {:induction false} StreamIsTransparent(s: State, msgs: seq<Msg>)
    ensures After(s, Heard(msgs)) == After(s, Sent(msgs)) && Batches(s, Heard(msgs)) == Batches(s, Sent(msgs))
    decreases |msgs|
  {
    hide OnFrame, Received, AsSent;
    if msgs != [] {
      var init, m := msgs[..|msgs| - 1], msgs[|msgs| - 1];
      StreamIsTransparent(s, init);
      HeardSnoc(init, m);
      assert msgs == init + [m];
      TransportIsTransparent(After(s, Sent(init)), m);
      assert Heard(msgs)[..|msgs| - 1] == Heard(init) && Sent(msgs)[..|msgs| - 1] == Sent(init);
    }
  }
}
