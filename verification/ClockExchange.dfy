/** One clock exchange across the components: ping, session, driver, control stream and the client's measurement. */
module ClockExchange {
  import opened Basics
  import opened Cbor
  import opened Control
  import opened ControlStream
  import opened Session
  import opened Connection
  import opened ConnectionEffects
  import opened SessionFeatures
  import opened SessionTransport
  import ClockSync

  function Ping(t0: int): Decoded {
    Message(CLOCK_PING, [Entry(Int(0), Int(t0))])
  }

  /** The sample a client takes from a CLOCK_PONG that reaches it at `t3`. */
  function ReadPong(d: Decoded, t3: int): Option<ClockSync.Sample> {
    if d.Message? && d.msgType == CLOCK_PONG
       && IntKey(d.body, 0).Some? && IntKey(d.body, 1).Some? && IntKey(d.body, 2).Some?
    then Some(ClockSync.Sample(IntKey(d.body, 0).value, IntKey(d.body, 1).value, IntKey(d.body, 2).value, t3))
    else None
  }

  lemma {:induction false} PongReads(t0: int, now: int, t3: int)
    ensures ReadPong(Received(Msg(CLOCK_PONG, PongBody(t0, now))), t3) == Some(ClockSync.Sample(t0, now, now, t3))
  {
    hide IntKey, KeepKnown;
    var m := Msg(CLOCK_PONG, PongBody(t0, now));
    LookupsSurvive(m, 0, 0);
    LookupsSurvive(m, 1, 0);
    LookupsSurvive(m, 2, 0);
    IntKeyAt(m.body, 0);
    IntKeyAt(m.body, 1);
    IntKeyAt(m.body, 2);
  }

  /**
   A ping is answered in every phase but the last without touching the session, and if the host's clock is the
   client's plus `theta`, what the client measures from the answer is off by at most half the round trip, rounded up.
   */
  lemma {:induction false} PingMeasuresOffset(s: State, t0: int, now: int, t3: int, theta: int)
    requires s.phase != Closed && InI64(t0)
    requires t0 + theta <= now && now - theta <= t3
    ensures
      var e := OnFrame(s, Ping(t0));
      var sent := Replies(e.outputs, now);
      && e.state == s && |sent| == 1
      && var sample := ReadPong(Received(sent[0]), t3);
         && sample.Some?
         && var m := ClockSync.Measure(sample.value);
            m.rtt == t3 - t0 && 2 * ClockSync.Abs(m.offset - theta) <= ClockSync.Bound(m.rtt)
  {
    hide Received, IntKey, AsI64, ReadPong;
    var e := OnFrame(s, Ping(t0));
    IntKeyAt([Entry(Int(0), Int(t0))], 0);
    CastKeeps(t0);
    assert e == Effect(s, [ClockPong(t0)]);
    assert [ClockPong(t0)][..0] == [];
    assert Replies([ClockPong(t0)], now) == [] + Reply(ClockPong(t0), now);
    PongReads(t0, now, t3);
    ClockSync.OneExchange(ClockSync.Sample(t0, now, now, t3), theta, now - t0 - theta, t3 - now + theta);
  }
}
