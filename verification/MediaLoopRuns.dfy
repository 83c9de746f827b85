/** What a whole media run sends: consecutive frames, keyframes exactly where they are owed, only fragments of sent frames. */
module MediaLoopRuns {
  import opened Basics
  import opened Datagram
  import opened MediaLoop

  lemma {:induction false} AfterSplit(s: State, a: seq<Input>, b: seq<Input>)
    ensures After(s, a + b) == After(After(s, a), b)
    decreases |b|
  {
    hide OnTick;
    if b == [] {
      assert a + b == a;
    } else {
      var init := b[..|b| - 1];
      assert (a + b)[..|a + b| - 1] == a + init;
      AfterSplit(s, a, init);
    }
  }

  lemma {:induction false} AfterOne(s: State, k: Input)
    ensures After(s, [k]) == OnTick(s, k)
  {
    assert [k][..0] == [];
    assert After(s, []) == s;
  }

  // ---------------------------------------------------------------- sequence numbers

  ghost predicate Numbered(frames: seq<SentFrame>) {
    forall i :: 0 <= i < |frames| ==> frames[i].frameSeq == i % TWO_32
  }

  /** What every run keeps: frame numbers, the stream, and "no frame yet" means "encoder never used". */
  ghost predicate Inv(s: State) {
    && Numbered(s.frames) && s.frameSeq == |s.frames| % TWO_32
    && (!s.have ==> !s.started && s.kind == DamageDriven)
  }

  lemma {:induction false} Increment(n: nat)
    ensures (n % TWO_32 + 1) % TWO_32 == (n + 1) % TWO_32
  {
    var q, r := n / TWO_32, n % TWO_32;
    if r + 1 == TWO_32 {
      Remainder(n + 1, TWO_32, q + 1, 0);
    } else {
      Remainder(n + 1, TWO_32, q, r + 1);
    }
  }

  lemma {:induction false} StepKeeps(s: State, k: Input)
    requires Inv(s)
    ensures Inv(OnTick(s, k)) && OnTick(s, k).streamId == s.streamId && OnTick(s, k).kind == s.kind
  {
    hide Passing, Fragments, FrameBody;
    Increment(|s.frames|);
  }

  /** Frame numbers run 0, 1, 2, ... without a gap, across reconfigurations, wrapping at 32 bits. */
  lemma {:induction false} FramesAreConsecutive(kind: SourceKind, streamId: u16, params: MediaParams, inputs: seq<Input>)
    ensures var s := After(Opened(kind, streamId, params), inputs);
      Inv(s) && s.streamId == streamId && s.kind == kind
    decreases |inputs|
  {
    hide OnTick;
    if inputs != [] {
      var init := inputs[..|inputs| - 1];
      FramesAreConsecutive(kind, streamId, params, init);
      StepKeeps(After(Opened(kind, streamId, params), init), inputs[|inputs| - 1]);
    }
  }

  // ---------------------------------------------------------------- keyframes

  /** The tick reaches the encoder. */
  predicate Encodes(s: State, k: Input) {
    && s.running && !k.closed && (k.reconfigs != [] ==> k.reopenOk)
    && (Drain(s, k).state.have || k.filled)
  }

  /** The encoder's promise: an access unit is a keyframe exactly when it was forced or is the encoder's first frame. */
  predicate Honest(s: State, k: Input) {
    Encodes(s, k) && k.encoded.Produced? ==>
      (k.encoded.keyframe <==> Drain(s, k).force || !Drain(s, k).state.started)
  }

  /** One access unit per frame. */
  predicate OneInOneOut(s: State, k: Input) {
    Encodes(s, k) ==> !k.encoded.Nothing?
  }

  predicate HonestRun(s: State, inputs: seq<Input>)
    decreases |inputs|
  {
    inputs == [] || (Honest(s, inputs[0]) && HonestRun(OnTick(s, inputs[0]), inputs[1..]))
  }

  predicate OneInOneOutRun(s: State, inputs: seq<Input>)
    decreases |inputs|
  {
    inputs == [] || (OneInOneOut(s, inputs[0]) && OneInOneOutRun(OnTick(s, inputs[0]), inputs[1..]))
  }

  /** A keyframe is owed: a request is waiting, or the encoder has never been used. */
  predicate Owed(s: State) {
    s.idrQueue > 0 || !s.started
  }

  predicate Asks(k: Input) {
    k.idrs > 0 || k.reconfigs != []
  }

  lemma {:induction false} OwedStep(s: State, k: Input)
    requires Inv(s) && (Owed(s) || Asks(k)) && Honest(s, k) && OneInOneOut(s, k)
    ensures var s' := OnTick(s, k);
      if s'.frames == s.frames then !s'.running || Owed(s')
      else |s'.frames| == |s.frames| + 1 && s.frames <= s'.frames && s'.frames[|s.frames|].keyframe
  {
    hide Passing, Fragments, FrameBody;
  }

  lemma {:induction false} TickGrows(s: State, k: Input)
    ensures s.frames <= OnTick(s, k).frames && (!s.running ==> OnTick(s, k) == s)
  {
    hide Passing, Fragments, FrameBody;
  }

  lemma {:induction false} FramesGrow(s: State, inputs: seq<Input>)
    ensures s.frames <= After(s, inputs).frames && (!s.running ==> After(s, inputs) == s)
    decreases |inputs|
  {
    hide OnTick;
    if inputs != [] {
      FramesGrow(s, inputs[..|inputs| - 1]);
      TickGrows(After(s, inputs[..|inputs| - 1]), inputs[|inputs| - 1]);
    }
  }

  lemma {:induction false} OwedRun(s: State, inputs: seq<Input>)
    requires Inv(s) && (s.running ==> Owed(s)) && HonestRun(s, inputs) && OneInOneOutRun(s, inputs)
    ensures var f := After(s, inputs).frames;
      s.frames <= f && (|f| > |s.frames| ==> f[|s.frames|].keyframe)
    decreases |inputs|
  {
    hide OnTick, Inv;
    FramesGrow(s, inputs);
    if inputs != [] && s.running {
      var k, rest := inputs[0], inputs[1..];
      OwedStep(s, k);
      StepKeeps(s, k);
      assert inputs == [k] + rest;
      AfterSplit(s, [k], rest);
      AfterOne(s, k);
      var s1 := OnTick(s, k);
      FramesGrow(s1, rest);
      if s1.frames == s.frames {
        OwedRun(s1, rest);
      }
    }
  }

  /**
   With a one-in-one-out encoder, after any history: once an IDR request or a new size has arrived, the next frame
   sent is a keyframe, even when ticks without a captured frame have thrown the force flag away in between.
   */
  lemma {:induction false} RequestIsHonoured(
    kind: SourceKind, streamId: u16, params: MediaParams, before: seq<Input>, k: Input, rest: seq<Input>)
    requires Asks(k)
    requires var s := After(Opened(kind, streamId, params), before);
      HonestRun(s, [k] + rest) && OneInOneOutRun(s, [k] + rest)
    ensures
      var f := After(Opened(kind, streamId, params), before).frames;
      var f' := After(Opened(kind, streamId, params), before + [k] + rest).frames;
      f <= f' && (|f'| > |f| ==> f'[|f|].keyframe)
  {
    hide OnTick, Honest, OneInOneOut, Inv;
    var s0 := Opened(kind, streamId, params);
    var s := After(s0, before);
    var s1 := OnTick(s, k);
    FramesAreConsecutive(kind, streamId, params, before);
    assert ([k] + rest)[1..] == rest && ([k] + rest)[0] == k;
    assert before + [k] + rest == before + ([k] + rest);
    AfterSplit(s0, before, [k] + rest);
    AfterSplit(s, [k], rest);
    AfterOne(s, k);
    OwedStep(s, k);
    StepKeeps(s, k);
    FramesGrow(s1, rest);
    FramesGrow(s, [k] + rest);
    if s1.frames == s.frames {
      OwedRun(s1, rest);
    }
  }

  /** The first frame of a pipeline is a keyframe. */
  lemma {:induction false} FirstFrameIsKey(kind: SourceKind, streamId: u16, params: MediaParams, inputs: seq<Input>)
    requires HonestRun(Opened(kind, streamId, params), inputs) && OneInOneOutRun(Opened(kind, streamId, params), inputs)
    ensures var f := After(Opened(kind, streamId, params), inputs).frames; f != [] ==> f[0].keyframe
  {
    OwedRun(Opened(kind, streamId, params), inputs);
  }

  /** Without a request or a new size a running encoder sends delta frames only, even if it skips frames. */
  lemma {:induction false} NoUnaskedKeyframes(s: State, inputs: seq<Input>)
    requires s.started && s.have && s.idrQueue == 0 && HonestRun(s, inputs)
    requires forall k :: k in inputs ==> !Asks(k)
    ensures var f := After(s, inputs).frames;
      s.frames <= f && forall i :: |s.frames| <= i < |f| ==> !f[i].keyframe
    decreases |inputs|
  {
    hide Passing, Fragments, FrameBody;
    if inputs != [] {
      var k, rest := inputs[0], inputs[1..];
      assert inputs == [k] + rest;
      AfterSplit(s, [k], rest);
      AfterOne(s, k);
      assert !Asks(k);
      NoUnaskedKeyframes(OnTick(s, k), rest);
    }
  }

  lemma {:induction false} HonestCons(s: State, k: Input, rest: seq<Input>)
    ensures HonestRun(s, [k] + rest) <==> Honest(s, k) && HonestRun(OnTick(s, k), rest)
  {
    assert ([k] + rest)[0] == k && ([k] + rest)[1..] == rest;
  }

  // ---------------------------------------------------------------- what is on the wire

  ghost predicate FragmentOf(d: seq<byte>, streamId: u16, f: SentFrame, j: nat) {
    j < FragmentCount(|f.body|) && d == FragmentAt(streamId, f.frameSeq, f.keyframe, f.body, j)
  }

  ghost predicate OnWire(s: State, d: seq<byte>) {
    exists i, j: nat :: 0 <= i < |s.frames| && FragmentOf(d, s.streamId, s.frames[i], j)
  }

  ghost predicate AllOnWire(s: State) {
    forall d :: d in s.wire ==> OnWire(s, d)
  }

  lemma {:induction false} PassingMembers(frags: seq<seq<byte>>, h: seq<Handling>, i: nat)
    ensures forall d :: d in Passing(frags, h, i) ==> d in frags
    decreases |frags| - i
  {
    if i < |frags| {
      PassingMembers(frags, h, i + 1);
    }
  }

  lemma {:induction false} AllPassed(frags: seq<seq<byte>>, i: nat)
    requires i <= |frags|
    ensures Passing(frags, [], i) == frags[i..]
    decreases |frags| - i
  {
    if i < |frags| {
      AllPassed(frags, i + 1);
    }
  }

  lemma {:induction false} StaysOnWire(s: State, s': State, d: seq<byte>)
    requires OnWire(s, d) && s.frames <= s'.frames && s'.streamId == s.streamId
    ensures OnWire(s', d)
  {
    hide FragmentOf;
    var i, j: nat :| 0 <= i < |s.frames| && FragmentOf(d, s.streamId, s.frames[i], j);
    assert FragmentOf(d, s'.streamId, s'.frames[i], j);
  }

  lemma {:induction false} SameWire(s: State, s': State)
    requires AllOnWire(s) && s'.frames == s.frames && s'.wire == s.wire && s'.streamId == s.streamId
    ensures AllOnWire(s')
  {
    forall d | d in s'.wire
      ensures OnWire(s', d)
    {
      StaysOnWire(s, s', d);
    }
  }

  lemma {:induction false} EmitOnWire(s: State, keyframe: bool, body: seq<byte>, h: seq<Handling>)
    requires AllOnWire(s)
    ensures AllOnWire(Emit(s, keyframe, body, h))
  {
    hide Passing, FragmentAt;
    var s' := Emit(s, keyframe, body, h);
    var f := s'.frames[|s.frames|];
    var frags := Fragments(s.streamId, f.frameSeq, f.keyframe, f.body);
    PassingMembers(frags, h, 0);
    forall d | d in s'.wire
      ensures OnWire(s', d)
    {
      if d in s.wire {
        StaysOnWire(s, s', d);
      } else {
        var j :| 0 <= j < |frags| && frags[j] == d;
        assert FragmentOf(d, s'.streamId, f, j);
      }
    }
  }

  lemma {:induction false} TickWire(s: State, k: Input)
    requires AllOnWire(s)
    ensures AllOnWire(OnTick(s, k))
  {
    hide Emit, OnWire, AllOnWire, FrameBody;
    if Encodes(s, k) && k.encoded.Produced? {
      var s2 := Drain(s, k).state.(have := true, started := true);
      SameWire(s, s2);
      EmitOnWire(s2, k.encoded.keyframe, FrameBody(k.captureTs, k.encoded.data), k.handling);
    } else {
      SameWire(s, OnTick(s, k));
    }
  }

  /** Whatever loss the injector and the transport cause, every datagram sent is a fragment of a sent frame. */
  lemma {:induction false} WireIsFragments(s: State, inputs: seq<Input>)
    requires s.wire == []
    ensures AllOnWire(After(s, inputs))
    decreases |inputs|
  {
    hide OnTick, OnWire, AllOnWire;
    if inputs == [] {
      NothingOnWire(s);
    } else {
      WireIsFragments(s, inputs[..|inputs| - 1]);
      TickWire(After(s, inputs[..|inputs| - 1]), inputs[|inputs| - 1]);
    }
  }

  lemma {:induction false} NothingOnWire(s: State)
    requires s.wire == []
    ensures AllOnWire(s)
  {
  }

  /** A frame nobody interferes with is on the wire whole. */
  lemma {:induction false} CleanFrameIsWhole(s: State, k: Input)
    requires Encodes(s, k) && k.encoded.Produced? && k.handling == []
    ensures var s' := OnTick(s, k);
      && |s'.frames| == |s.frames| + 1
      && var f := s'.frames[|s.frames|];
         s'.wire == s.wire + Fragments(s.streamId, s.frameSeq, f.keyframe, f.body)
         && f.frameSeq == s.frameSeq && f.body == FrameBody(k.captureTs, k.encoded.data)
  {
    hide Fragments, FrameBody;
    var body := FrameBody(k.captureTs, k.encoded.data);
    AllPassed(Fragments(s.streamId, s.frameSeq, k.encoded.keyframe, body), 0);
  }

  /** The receiver of a frame body gets back the capture time and the access unit. */
  lemma {:induction false} BodyReadsBack(captureTs: u64, data: seq<byte>)
    ensures var body := FrameBody(captureTs, data); FromBigEndian(body[..8]) == captureTs && body[8..] == data
  {
    Pow256Values();
    ReadBackExact(8, captureTs);
    assert FrameBody(captureTs, data)[..8] == BigEndian(8, captureTs);
  }

  // ---------------------------------------------------------------- which datagrams get through

  /** Datagram `k` is handed over, and no earlier one was refused. */
  predicate GetsThrough(h: seq<Handling>, from: nat, k: nat) {
    HandlingOf(h, k) == Passed && forall j :: from <= j < k ==> HandlingOf(h, j) != Refused
  }

  lemma {:induction false} OneBefore(h: seq<Handling>, from: nat, k: nat)
    requires from < k
    ensures GetsThrough(h, from, k) <==> HandlingOf(h, from) != Refused && GetsThrough(h, from + 1, k)
  {
    hide HandlingOf;
    if HandlingOf(h, from) != Refused && GetsThrough(h, from + 1, k) {
      forall j | from <= j < k
        ensures HandlingOf(h, j) != Refused
      {
        assert j > from ==> from + 1 <= j;
      }
    }
  }

  lemma {:induction false} FirstHandled(frags: seq<seq<byte>>, h: seq<Handling>, from: nat)
    requires from < |frags|
    ensures GetsThrough(h, from, from) <==> HandlingOf(h, from) == Passed
    ensures Passing(frags, h, from) ==
      match HandlingOf(h, from)
      case Injected => Passing(frags, h, from + 1)
      case Refused => []
      case Passed => [frags[from]] + Passing(frags, h, from + 1)
  {
  }

  /** An injected drop loses one datagram, a refusal that one and all after it; the others keep their order. */
  lemma {:induction false} WhatPasses(frags: seq<seq<byte>>, h: seq<Handling>, from: nat) returns (ks: seq<nat>)
    requires from <= |frags|
    ensures |Passing(frags, h, from)| == |ks|
    ensures forall p :: 0 <= p < |ks| ==> ks[p] < |frags| && Passing(frags, h, from)[p] == frags[ks[p]]
    ensures forall p, q :: 0 <= p < q < |ks| ==> ks[p] < ks[q]
    ensures forall k: nat :: k in ks <==> from <= k < |frags| && GetsThrough(h, from, k)
    decreases |frags| - from
  {
    if from == |frags| {
      ks := [];
    } else {
      hide GetsThrough, HandlingOf, Passing;
      var more := WhatPasses(frags, h, from + 1);
      FirstHandled(frags, h, from);
      ks := match HandlingOf(h, from)
        case Injected => more
        case Refused => []
        case Passed => [from] + more;
      forall k: nat
        ensures k in ks <==> from <= k < |frags| && GetsThrough(h, from, k)
      {
        if from < k {
          OneBefore(h, from, k);
        }
        assert k in more ==> from < k;
      }
      assert forall q :: 0 <= q < |more| ==> more[q] in more;
    }
  }

  /** What the encoder is told: a forced picture exactly when this tick took in a new size or found a request waiting. */
  lemma {:induction false} ForcedIff(s: State, k: Input)
    requires k.reconfigs != [] ==> k.reopenOk
    ensures Drain(s, k).force <==> k.reconfigs != [] || s.idrQueue + k.idrs > 0
    ensures Drain(s, k).state.idrQueue == if k.reconfigs != [] then s.idrQueue + k.idrs else 0
  {
  }
}
