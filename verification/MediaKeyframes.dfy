/**
 Exactly when a keyframe request or a new size is answered, and by how many keyframes, for an encoder that may skip
 frames: one that answers some calls with nothing and never codes those frames.
 */
module MediaKeyframes {
  import opened MediaLoop
  import opened MediaLoopRuns

  /** How many encoder calls return nothing before the first frame comes out. */
  function Skips(s: State, inputs: seq<Input>): nat
    decreases |inputs|
  {
    if inputs == [] then 0
    else
      var k := inputs[0];
      if Encodes(s, k) && k.encoded.Produced? then 0
      else (if Encodes(s, k) && k.encoded.Nothing? then 1 else 0) + Skips(OnTick(s, k), inputs[1..])
  }

  predicate Unasked(inputs: seq<Input>) {
    forall k :: k in inputs ==> !Asks(k)
  }

  /** What one tick does to the frames and to what is owed. */
  lemma {:induction false} TickOutcome(s: State, k: Input)
    requires Inv(s) && Honest(s, k)
    ensures var s' := OnTick(s, k);
      && Inv(s') && s.frames <= s'.frames
      && (Encodes(s, k) && k.encoded.Produced? ==>
          |s'.frames| == |s.frames| + 1 && (s'.frames[|s.frames|].keyframe <==> Owed(s) || Asks(k)))
      && (!(Encodes(s, k) && k.encoded.Produced?) ==> s'.frames == s.frames)
      && (Encodes(s, k) ==> (Owed(s') <==> k.reconfigs != [] && s.idrQueue + k.idrs > 0))
      && (Encodes(s, k) ==> s'.started && s'.have)
      && (!Encodes(s, k) && s'.running && (Owed(s) || Asks(k)) ==> Owed(s'))
      && (!s.running ==> s' == s)
  {
    hide Passing, Datagram.Fragments, FrameBody, Numbered;
    StepKeeps(s, k);
  }

  lemma {:induction false} RunCons(s: State, k: Input, rest: seq<Input>)
    ensures After(s, [k] + rest) == After(OnTick(s, k), rest)
    ensures HonestRun(s, [k] + rest) <==> Honest(s, k) && HonestRun(OnTick(s, k), rest)
    ensures OneInOneOutRun(s, [k] + rest) <==> OneInOneOut(s, k) && OneInOneOutRun(OnTick(s, k), rest)
    ensures Skips(s, [k] + rest) == if Encodes(s, k) && k.encoded.Produced? then 0
      else (if Encodes(s, k) && k.encoded.Nothing? then 1 else 0) + Skips(OnTick(s, k), rest)
  {
    hide OnTick;
    assert ([k] + rest)[0] == k && ([k] + rest)[1..] == rest;
    HonestCons(s, k, rest);
    AfterSplit(s, [k], rest);
    AfterOne(s, k);
  }

  lemma {:induction false} StoppedStays(s: State, inputs: seq<Input>)
    requires !s.running
    ensures After(s, inputs).frames == s.frames
  {
    FramesGrow(s, inputs);
  }

  /** With nothing asked: the next frame is a keyframe exactly when one is owed and the encoder skips nothing. */
  lemma {:induction false} NextFrameKind(s: State, inputs: seq<Input>)
    requires Inv(s) && HonestRun(s, inputs) && Unasked(inputs)
    ensures var f := After(s, inputs).frames;
      s.frames <= f && (|f| > |s.frames| ==> (f[|s.frames|].keyframe <==> Owed(s) && Skips(s, inputs) == 0))
    decreases |inputs|
  {
    hide OnTick, Honest, Encodes, Inv, Owed, Asks;
    FramesGrow(s, inputs);
    if inputs != [] {
      var k, rest := inputs[0], inputs[1..];
      assert inputs == [k] + rest && k in inputs;
      RunCons(s, k, rest);
      TickOutcome(s, k);
      var s1 := OnTick(s, k);
      FramesGrow(s1, rest);
      if s1.frames == s.frames {
        if s1.running {
          NextFrameKind(s1, rest);
          OwedAfterTick(s, k);
        } else {
          StoppedStays(s1, rest);
        }
      }
    }
  }

  lemma {:induction false} OwedAfterTick(s: State, k: Input)
    requires Inv(s) && Honest(s, k) && !Asks(k) && OnTick(s, k).running && OnTick(s, k).frames == s.frames
    ensures Encodes(s, k) ==> k.encoded.Nothing? && !Owed(OnTick(s, k))
    ensures !Encodes(s, k) ==> (Owed(OnTick(s, k)) <==> Owed(s))
  {
    hide Passing, Datagram.Fragments, FrameBody, Numbered;
  }

  /** How many encoder calls in a row are forced: two when a request waits behind the new size, else one. */
  function Chances(s: State, k: Input): nat {
    if Encodes(s, k) && k.reconfigs != [] && s.idrQueue + k.idrs > 0 then 2 else 1
  }

  /**
   From every state a run can reach, when a keyframe is owed or asked for, by requests or by a new size, and nothing
   more is asked: the next frame sent is a keyframe exactly when the encoder skips fewer calls than are forced.
   */
  lemma {:induction false} HonouredIffFewSkips(s: State, k: Input, rest: seq<Input>)
    requires Inv(s) && (Owed(s) || Asks(k)) && HonestRun(s, [k] + rest) && Unasked(rest)
    ensures var f := After(s, [k] + rest).frames;
      |f| > |s.frames| ==> (f[|s.frames|].keyframe <==> Skips(s, [k] + rest) < Chances(s, k))
  {
    hide OnTick, Honest, Encodes, Inv, Owed, Asks;
    RunCons(s, k, rest);
    TickOutcome(s, k);
    var s1 := OnTick(s, k);
    FramesGrow(s1, rest);
    if s1.frames == s.frames {
      if s1.running {
        NextFrameKind(s1, rest);
        NoFrameMeansSkip(s, k);
      } else {
        StoppedStays(s1, rest);
      }
    }
  }

  lemma {:induction false} NoFrameMeansSkip(s: State, k: Input)
    requires OnTick(s, k).running && OnTick(s, k).frames == s.frames
    ensures Encodes(s, k) ==> k.encoded.Nothing?
  {
    hide Passing, Datagram.Fragments, FrameBody;
  }

  /**
   However many requests and new sizes one tick takes in, they are answered by one keyframe, the next frame at most.
   Only where the tick itself sends a frame at a new size with a request waiting behind it is the frame after that a
   keyframe too, if its encoder call is not skipped. Every later frame is a delta.
   */
  lemma {:induction false} CoalescesIff(s: State, k: Input, rest: seq<Input>)
    requires Inv(s) && (Owed(s) || Asks(k)) && HonestRun(s, [k] + rest) && Unasked(rest)
    ensures var f, n := After(s, [k] + rest).frames, |s.frames|;
      && (|f| > n + 1 ==>
          (f[n + 1].keyframe <==>
             && Encodes(s, k) && k.encoded.Produced?
             && k.reconfigs != [] && s.idrQueue + k.idrs > 0 && Skips(OnTick(s, k), rest) == 0))
      && forall i :: n + 2 <= i < |f| ==> !f[i].keyframe
  {
    hide OnTick, Honest, Encodes, Inv, Owed, Asks;
    RunCons(s, k, rest);
    TickOutcome(s, k);
    var s1 := OnTick(s, k);
    FramesGrow(s1, rest);
    NextFrameKind(s1, rest);
    LaterAreDeltas(s1, rest);
  }

  /** Unasked, at most the next frame is a keyframe. */
  lemma {:induction false} LaterAreDeltas(s: State, inputs: seq<Input>)
    requires Inv(s) && HonestRun(s, inputs) && Unasked(inputs)
    ensures var f := After(s, inputs).frames;
      s.frames <= f && forall i :: |s.frames| + 1 <= i < |f| ==> !f[i].keyframe
    decreases |inputs|
  {
    hide OnTick, Honest, Encodes, Inv, Asks;
    FramesGrow(s, inputs);
    if inputs != [] {
      var k, rest := inputs[0], inputs[1..];
      assert inputs == [k] + rest && k in inputs;
      RunCons(s, k, rest);
      TickOutcome(s, k);
      NotReconfigured(k);
      var s1 := OnTick(s, k);
      if s1.frames == s.frames {
        LaterAreDeltas(s1, rest);
      } else {
        NoUnaskedKeyframes(s1, rest);
      }
    }
  }

  lemma {:induction false} NotReconfigured(k: Input)
    requires !Asks(k)
    ensures k.reconfigs == []
  {
  }

  // ---------------------------------------------------------------- instances, as runs of a fresh pipeline

  function Plain(encoded: Encoded): Input {
    Input(false, 0, [], true, false, 0, encoded, [])
  }

  function Key(): Encoded {
    Produced([], true)
  }

  function Delta(): Encoded {
    Produced([], false)
  }

  /** The frames of a run of three ticks, as far as they are keyframes. */
  lemma {:induction false} ThreeTicks(s: State, a: Input, b: Input, c: Input)
    ensures After(s, [a, b, c]) == OnTick(OnTick(OnTick(s, a), b), c)
    ensures HonestRun(s, [a, b, c]) <==>
      Honest(s, a) && Honest(OnTick(s, a), b) && Honest(OnTick(OnTick(s, a), b), c)
    ensures OneInOneOutRun(s, [a, b, c]) <==>
      OneInOneOut(s, a) && OneInOneOut(OnTick(s, a), b) && OneInOneOut(OnTick(OnTick(s, a), b), c)
  {
    hide OnTick, Honest, OneInOneOut;
    assert [a, b, c] == [a] + [b, c] && [b, c] == [b] + [c] && [c] == [c] + [];
    RunCons(s, a, [b, c]);
    RunCons(OnTick(s, a), b, [c]);
    RunCons(OnTick(OnTick(s, a), b), c, []);
  }

  /** A request drained into a skipped frame is lost: the next frame is a delta. */
  lemma {:induction false} SkippedFrameLosesRequest(params: MediaParams) returns (inputs: seq<Input>)
    ensures |inputs| == 3 && inputs[1].idrs == 1 && HonestRun(Opened(Synthetic, 0, params), inputs)
    ensures var f := After(Opened(Synthetic, 0, params), inputs).frames;
      |f| == 2 && f[0].keyframe && !f[1].keyframe
  {
    hide Passing, Datagram.Fragments, FrameBody;
    var a, b, c := Plain(Key()), Plain(Nothing).(idrs := 1), Plain(Delta());
    inputs := [a, b, c];
    ThreeTicks(Opened(Synthetic, 0, params), a, b, c);
  }

  /** So is the keyframe of a new size: the first frame at that size is a delta of an encoder that never sent one. */
  lemma {:induction false} SkippedFrameLosesNewSize(params: MediaParams, size: MediaParams) returns (inputs: seq<Input>)
    ensures |inputs| == 3 && inputs[1].reconfigs == [size] && HonestRun(Opened(Synthetic, 0, params), inputs)
    ensures var s := After(Opened(Synthetic, 0, params), inputs);
      s.params == size && |s.frames| == 2 && s.frames[0].keyframe && !s.frames[1].keyframe
  {
    hide Passing, Datagram.Fragments, FrameBody;
    var a, b, c := Plain(Key()), Plain(Nothing).(reconfigs := [size]), Plain(Delta());
    inputs := [a, b, c];
    ThreeTicks(Opened(Synthetic, 0, params), a, b, c);
  }

  /** A request that arrives with a new size is not coalesced: two keyframes in a row. */
  lemma {:induction false} NewSizeKeepsRequest(params: MediaParams, size: MediaParams) returns (inputs: seq<Input>)
    ensures |inputs| == 3 && inputs[1].reconfigs == [size] && inputs[1].idrs == 1 && !Asks(inputs[2])
    ensures HonestRun(Opened(Synthetic, 0, params), inputs)
    ensures var f := After(Opened(Synthetic, 0, params), inputs).frames;
      |f| == 3 && f[1].keyframe && f[2].keyframe
  {
    hide Passing, Datagram.Fragments, FrameBody;
    var a, b, c := Plain(Key()), Plain(Key()).(reconfigs := [size], idrs := 1), Plain(Key());
    inputs := [a, b, c];
    ThreeTicks(Opened(Synthetic, 0, params), a, b, c);
  }

  function Fresh(encoded: Encoded): Input {
    Plain(encoded).(filled := true)
  }

  lemma {:induction false} FreshTick(s: State, key: bool)
    requires s.running
    ensures var k := Fresh(Produced([], key));
      var s' := OnTick(s, k);
      && s'.running && s'.started && s'.have && s'.idrQueue == 0 && s'.kind == s.kind
      && |s'.frames| == |s.frames| + 1 && s.frames <= s'.frames && s'.frames[|s.frames|].keyframe == key
      && OneInOneOut(s, k) && (Honest(s, k) <==> (key <==> Owed(s)))
  {
    hide Passing, Datagram.Fragments, FrameBody;
  }

  /** A new size and a request, and no captured frame in the tick that takes them in. */
  function Reopening(size: MediaParams): Input {
    Plain(Nothing).(reconfigs := [size], idrs := 1)
  }

  lemma {:induction false} ReopeningTick(s: State, size: MediaParams)
    requires s.running && s.kind == DamageDriven
    ensures var k := Reopening(size);
      && OnTick(s, k) == s.(params := size, started := false, have := false, idrQueue := s.idrQueue + 1)
      && Honest(s, k) && OneInOneOut(s, k)
  {
  }

  lemma {:induction false} FourTicks(s: State, a: Input, b: Input, c: Input, d: Input)
    ensures var s1 := OnTick(s, a);
      var s2 := OnTick(s1, b);
      var s3 := OnTick(s2, c);
      && After(s, [a, b, c, d]) == OnTick(s3, d)
      && (HonestRun(s, [a, b, c, d]) <==> Honest(s, a) && Honest(s1, b) && Honest(s2, c) && Honest(s3, d))
      && (OneInOneOutRun(s, [a, b, c, d]) <==>
            OneInOneOut(s, a) && OneInOneOut(s1, b) && OneInOneOut(s2, c) && OneInOneOut(s3, d))
  {
    hide OnTick, Honest, OneInOneOut;
    assert [a, b, c, d] == [a] + [b, c, d];
    RunCons(s, a, [b, c, d]);
    ThreeTicks(OnTick(s, a), b, c, d);
  }

  /**
   From a damage-driven capture there is no frame to encode right after reopening. Then the request waits together
   with the new size, and one keyframe answers both.
   */
  lemma {:induction false} ReopenedCaptureCoalesces(params: MediaParams, size: MediaParams) returns (inputs: seq<Input>)
    ensures |inputs| == 4 && inputs[1].reconfigs == [size] && inputs[1].idrs == 1
    ensures !Asks(inputs[2]) && !Asks(inputs[3])
    ensures var s := Opened(DamageDriven, 0, params);
      && HonestRun(s, inputs) && OneInOneOutRun(s, inputs)
      && var f := After(s, inputs).frames; |f| == 3 && f[0].keyframe && f[1].keyframe && !f[2].keyframe
  {
    hide OnTick, Honest, OneInOneOut;
    var s := Opened(DamageDriven, 0, params);
    var a, b, c, d := Fresh(Key()), Reopening(size), Fresh(Key()), Fresh(Delta());
    inputs := [a, b, c, d];
    FourTicks(s, a, b, c, d);
    FreshTick(s, true);
    var s1 := OnTick(s, a);
    ReopeningTick(s1, size);
    var s2 := OnTick(s1, b);
    FreshTick(s2, true);
    FreshTick(OnTick(s2, c), false);
  }
}
