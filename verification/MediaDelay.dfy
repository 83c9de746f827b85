/**
 Keyframe requests with an encoder that delays its output but loses nothing: each call queues the picture it was
 given, and answers with the oldest queued one or with nothing. A request is then honoured within the delay.
 */
module MediaDelay {
  import opened Basics
  import opened MediaLoop
  import opened MediaLoopRuns

  /** The type of the picture given to the encoder in this tick. */
  predicate CodedAsKey(s: State, k: Input)
    requires Encodes(s, k)
  {
    Drain(s, k).force || !Drain(s, k).state.started
  }

  /** The encoder in use: reopening discards what the old one still held. */
  function Held(s: State, k: Input, pipe: seq<bool>): seq<bool> {
    if s.running && !k.closed && k.reconfigs != [] && k.reopenOk then [] else pipe
  }

  function Offered(s: State, k: Input, pipe: seq<bool>): seq<bool>
    requires Encodes(s, k)
  {
    Held(s, k, pipe) + [CodedAsKey(s, k)]
  }

  /** The encoder answers with its oldest picture, or with nothing while it holds at most `delay`. */
  predicate Answers(s: State, k: Input, pipe: seq<bool>, delay: nat) {
    Encodes(s, k) ==>
      match k.encoded
      case Produced(_, keyframe) => keyframe == Offered(s, k, pipe)[0] && |Offered(s, k, pipe)| <= delay + 1
      case Nothing => |Offered(s, k, pipe)| <= delay
      case Failed => true
  }

  /** The pictures still held after the tick. */
  function HeldAfter(s: State, k: Input, pipe: seq<bool>): seq<bool> {
    if !Encodes(s, k) then Held(s, k, pipe)
    else if k.encoded.Produced? then Offered(s, k, pipe)[1..]
    else Offered(s, k, pipe)
  }

  predicate DelayedRun(s: State, pipe: seq<bool>, inputs: seq<Input>, delay: nat)
    decreases |inputs|
  {
    inputs == []
    || (Answers(s, inputs[0], pipe, delay)
        && DelayedRun(OnTick(s, inputs[0]), HeldAfter(s, inputs[0], pipe), inputs[1..], delay))
  }

  function HeldAtEnd(s: State, pipe: seq<bool>, inputs: seq<Input>): seq<bool>
    decreases |inputs|
  {
    if inputs == [] then pipe else HeldAtEnd(OnTick(s, inputs[0]), HeldAfter(s, inputs[0], pipe), inputs[1..])
  }

  /** An encoder never used holds nothing, and a running one never more than the delay. */
  ghost predicate PipeInv(s: State, pipe: seq<bool>, delay: nat) {
    Inv(s) && (s.running ==> |pipe| <= delay && (!s.started ==> pipe == []))
  }

  lemma {:induction false} PipeStep(s: State, pipe: seq<bool>, k: Input, delay: nat)
    requires PipeInv(s, pipe, delay) && Answers(s, k, pipe, delay)
    ensures PipeInv(OnTick(s, k), HeldAfter(s, k, pipe), delay)
  {
    hide Passing, Datagram.Fragments, FrameBody, Numbered;
    StepKeeps(s, k);
  }

  /** A keyframe is among the next `c` pictures to come out. */
  predicate Due(s: State, pipe: seq<bool>, c: nat) {
    (exists i :: 0 <= i < |pipe| && pipe[i] && i < c) || (Owed(s) && |pipe| < c)
  }

  /** One tick brings the promised keyframe out or one picture closer. */
  lemma {:induction false} DueStep(s: State, pipe: seq<bool>, k: Input, delay: nat, c: nat)
    requires PipeInv(s, pipe, delay) && Answers(s, k, pipe, delay) && s.running
    requires Due(s, pipe, c) || (Asks(k) && delay < c)
    ensures var s', pipe' := OnTick(s, k), HeldAfter(s, k, pipe);
      if s'.frames == s.frames then s'.running ==> Due(s', pipe', c)
      else
        && s'.running && |s'.frames| == |s.frames| + 1 && s.frames <= s'.frames
        && (s'.frames[|s.frames|].keyframe || (c > 0 && Due(s', pipe', c - 1)))
  {
    hide Passing, Datagram.Fragments, FrameBody, Numbered;
    if Encodes(s, k) {
      var q := Offered(s, k, pipe);
      var i := DueInOffer(s, pipe, k, delay, c);
      if k.encoded.Produced? && i > 0 {
        assert q[1..][i - 1];
      }
    }
  }

  lemma {:induction false} DueInOffer(s: State, pipe: seq<bool>, k: Input, delay: nat, c: nat) returns (i: nat)
    requires PipeInv(s, pipe, delay) && s.running && Encodes(s, k)
    requires Due(s, pipe, c) || (Asks(k) && delay < c)
    ensures i < |Offered(s, k, pipe)| && Offered(s, k, pipe)[i] && i < c
  {
    hide Numbered;
    var h := Held(s, k, pipe);
    if CodedAsKey(s, k) && |h| < c {
      i := |h|;
    } else {
      i :| 0 <= i < |pipe| && pipe[i] && i < c;
      assert h == pipe;
    }
  }

  predicate KeyWithin(f: seq<SentFrame>, n: nat, c: nat) {
    exists i :: n <= i < n + c && i < |f| && f[i].keyframe
  }

  lemma {:induction false} PositiveDue(s: State, pipe: seq<bool>, c: nat)
    requires Due(s, pipe, c)
    ensures c > 0
  {
  }

  lemma {:induction false} WithinMore(f: seq<SentFrame>, n: nat, c: nat)
    requires c > 0 && KeyWithin(f, n + 1, c - 1)
    ensures KeyWithin(f, n, c)
  {
    var i :| n + 1 <= i < n + c && i < |f| && f[i].keyframe;
  }

  lemma {:induction false} DueRun(s: State, pipe: seq<bool>, inputs: seq<Input>, delay: nat, c: nat)
    requires PipeInv(s, pipe, delay) && DelayedRun(s, pipe, inputs, delay) && s.running && Due(s, pipe, c)
    ensures var f, n := After(s, inputs).frames, |s.frames|;
      s.frames <= f && (|f| >= n + c ==> KeyWithin(f, n, c))
    decreases |inputs|
  {
    hide OnTick, PipeInv, Answers, HeldAfter, Due, KeyWithin;
    FramesGrow(s, inputs);
    PositiveDue(s, pipe, c);
    if inputs != [] {
      var k, rest := inputs[0], inputs[1..];
      assert inputs == [k] + rest;
      AfterSplit(s, [k], rest);
      AfterOne(s, k);
      DueStep(s, pipe, k, delay, c);
      PipeStep(s, pipe, k, delay);
      DueOn(s, pipe, k, rest, delay, c);
    }
  }

  /** The two ways on from a tick: no frame, or one frame that is a keyframe or leaves one fewer to wait for. */
  lemma {:induction false} DueOn(s: State, pipe: seq<bool>, k: Input, rest: seq<Input>, delay: nat, c: nat)
    requires c > 0
    requires var s1, pipe1 := OnTick(s, k), HeldAfter(s, k, pipe);
      && PipeInv(s1, pipe1, delay) && DelayedRun(s1, pipe1, rest, delay)
      && if s1.frames == s.frames then s1.running ==> Due(s1, pipe1, c)
         else
           && s1.running && |s1.frames| == |s.frames| + 1 && s.frames <= s1.frames
           && (s1.frames[|s.frames|].keyframe || Due(s1, pipe1, c - 1))
    ensures var f, n := After(OnTick(s, k), rest).frames, |s.frames|;
      |f| >= n + c ==> KeyWithin(f, n, c)
    decreases |rest| + 1, 0
  {
    hide OnTick, PipeInv, Answers, HeldAfter, Due, DelayedRun;
    var s1, pipe1 := OnTick(s, k), HeldAfter(s, k, pipe);
    FramesGrow(s1, rest);
    var f, n := After(s1, rest).frames, |s.frames|;
    if s1.frames == s.frames {
      if s1.running {
        DueRun(s1, pipe1, rest, delay, c);
      }
    } else if s1.frames[n].keyframe {
      assert f[n].keyframe;
    } else {
      DueRun(s1, pipe1, rest, delay, c - 1);
      if |f| >= n + c {
        WithinMore(f, n, c);
      }
    }
  }

  lemma {:induction false} DelayedSplit(s: State, pipe: seq<bool>, a: seq<Input>, b: seq<Input>, delay: nat)
    requires PipeInv(s, pipe, delay) && DelayedRun(s, pipe, a + b, delay)
    ensures var p := HeldAtEnd(s, pipe, a);
      PipeInv(After(s, a), p, delay) && DelayedRun(After(s, a), p, b, delay)
    decreases |a|
  {
    hide OnTick, PipeInv, Answers, HeldAfter;
    if a == [] {
      assert a + b == b;
    } else {
      var k, rest := a[0], a[1..];
      assert (a + b)[0] == k && (a + b)[1..] == rest + b && a == [k] + rest;
      PipeStep(s, pipe, k, delay);
      DelayedSplit(OnTick(s, k), HeldAfter(s, k, pipe), rest, b, delay);
      AfterSplit(s, [k], rest);
      AfterOne(s, k);
    }
  }

  /**
   After any history: once an IDR request or a new size has arrived, one of the next `delay` + 1 frames sent is a
   keyframe, whatever else is asked in between. With no delay it is the very next frame.
   */
  lemma {:induction false} HonouredWithinDelay(
    kind: SourceKind, streamId: u16, params: MediaParams, before: seq<Input>, k: Input, rest: seq<Input>, delay: nat)
    requires Asks(k) && DelayedRun(Opened(kind, streamId, params), [], before + ([k] + rest), delay)
    ensures
      var f := After(Opened(kind, streamId, params), before).frames;
      var f' := After(Opened(kind, streamId, params), before + ([k] + rest)).frames;
      f <= f' && (|f'| >= |f| + delay + 1 ==> KeyWithin(f', |f|, delay + 1))
  {
    hide OnTick, Answers, HeldAfter, KeyWithin, Due, Asks;
    var s0 := Opened(kind, streamId, params);
    DelayedSplit(s0, [], before, [k] + rest, delay);
    var s, pipe := After(s0, before), HeldAtEnd(s0, [], before);
    AfterSplit(s0, before, [k] + rest);
    FramesGrow(s, [k] + rest);
    assert ([k] + rest)[0] == k && ([k] + rest)[1..] == rest;
    if s.running {
      AfterSplit(s, [k], rest);
      AfterOne(s, k);
      DueStep(s, pipe, k, delay, delay + 1);
      PipeStep(s, pipe, k, delay);
      DueOn(s, pipe, k, rest, delay, delay + 1);
    }
  }

  // ---------------------------------------------------------------- no delay, and the keyframe to wait for

  /** Without delay this is the honest encoder that answers every call with a picture. */
  lemma {:induction false} NoDelayIsOneInOneOut(s: State, pipe: seq<bool>, inputs: seq<Input>)
    requires s.running ==> pipe == []
    ensures DelayedRun(s, pipe, inputs, 0) <==> HonestRun(s, inputs) && OneInOneOutRun(s, inputs)
    decreases |inputs|
  {
    hide OnTick, Answers, HeldAfter, Honest, OneInOneOut;
    if inputs != [] {
      var k := inputs[0];
      NoDelayTick(s, pipe, k);
      if Answers(s, k, pipe, 0) {
        NoDelayIsOneInOneOut(OnTick(s, k), HeldAfter(s, k, pipe), inputs[1..]);
      }
    }
  }

  lemma {:induction false} NoDelayTick(s: State, pipe: seq<bool>, k: Input)
    requires s.running ==> pipe == []
    ensures Answers(s, k, pipe, 0) <==> Honest(s, k) && OneInOneOut(s, k)
    ensures Answers(s, k, pipe, 0) && OnTick(s, k).running ==> HeldAfter(s, k, pipe) == []
  {
    hide Passing, Datagram.Fragments, FrameBody;
  }

  /** The first keyframe from frame `n` on, or the number of frames if there is none. */
  function NextKey(f: seq<SentFrame>, n: nat): (c: nat)
    requires n <= |f|
    ensures n <= c <= |f| && (c < |f| ==> f[c].keyframe)
    ensures forall i :: n <= i < c ==> !f[i].keyframe
    decreases |f| - n
  {
    if n == |f| || f[n].keyframe then n else NextKey(f, n + 1)
  }

  lemma {:induction false} NextKeyWithin(f: seq<SentFrame>, n: nat, c: nat)
    requires n <= |f| && KeyWithin(f, n, c)
    ensures NextKey(f, n) < n + c && NextKey(f, n) < |f|
  {
  }
}
