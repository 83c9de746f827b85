/**
 Keyframes from an encoder that may drop pictures, but whose first output after opening is always a keyframe: then no
 new size is ever lost, and only a request can be, exactly when its picture is dropped.
 */
module MediaFirstOutput {
  import opened MediaLoop
  import opened MediaLoopRuns
  import opened MediaKeyframes

  predicate Reopens(s: State, k: Input) {
    s.running && !k.closed && k.reconfigs != [] && k.reopenOk
  }

  /** `barren`: the encoder in use has put nothing out yet. So is one just reopened. */
  predicate BarrenAt(s: State, k: Input, barren: bool) {
    barren || Reopens(s, k)
  }

  predicate Keyed(s: State, k: Input, barren: bool) {
    Encodes(s, k) && k.encoded.Produced? ==> (k.encoded.keyframe <==> Drain(s, k).force || BarrenAt(s, k, barren))
  }

  predicate BarrenAfter(s: State, k: Input, barren: bool) {
    BarrenAt(s, k, barren) && !(Encodes(s, k) && k.encoded.Produced?)
  }

  predicate KeyedRun(s: State, barren: bool, inputs: seq<Input>)
    decreases |inputs|
  {
    inputs == []
    || (Keyed(s, inputs[0], barren) && KeyedRun(OnTick(s, inputs[0]), BarrenAfter(s, inputs[0], barren), inputs[1..]))
  }

  /** An encoder that has never been given a picture has put nothing out. */
  ghost predicate BarrenInv(s: State, barren: bool) {
    Inv(s) && (!s.started ==> barren)
  }

  lemma {:induction false} KeyedCons(s: State, barren: bool, k: Input, rest: seq<Input>)
    ensures KeyedRun(s, barren, [k] + rest)
      <==> Keyed(s, k, barren) && KeyedRun(OnTick(s, k), BarrenAfter(s, k, barren), rest)
  {
    hide OnTick, Keyed, BarrenAfter;
    assert ([k] + rest)[0] == k && ([k] + rest)[1..] == rest;
  }

  lemma {:induction false} KeyedTick(s: State, k: Input, barren: bool)
    requires BarrenInv(s, barren) && Keyed(s, k, barren)
    ensures var s' := OnTick(s, k);
      && BarrenInv(s', BarrenAfter(s, k, barren)) && s.frames <= s'.frames
      && (s'.frames != s.frames <==> Encodes(s, k) && k.encoded.Produced?)
      && (Encodes(s, k) && k.encoded.Produced? ==>
          |s'.frames| == |s.frames| + 1
          && (s'.frames[|s.frames|].keyframe <==> BarrenAt(s, k, barren) || s.idrQueue + k.idrs > 0))
  {
    hide Passing, Datagram.Fragments, FrameBody, Numbered;
    StepKeeps(s, k);
  }

  /** What is asked in between does not matter: the first output of an encoder is the keyframe. */
  lemma {:induction false} BarrenNext(s: State, inputs: seq<Input>)
    requires KeyedRun(s, true, inputs)
    ensures var f := After(s, inputs).frames;
      s.frames <= f && (|f| > |s.frames| ==> f[|s.frames|].keyframe)
    decreases |inputs|
  {
    hide OnTick, Keyed, Encodes;
    FramesGrow(s, inputs);
    if inputs != [] {
      var k, rest := inputs[0], inputs[1..];
      assert inputs == [k] + rest;
      RunCons(s, k, rest);
      FramesGrow(OnTick(s, k), rest);
      BarrenTick(s, k);
      if OnTick(s, k).frames == s.frames {
        BarrenNext(OnTick(s, k), rest);
      }
    }
  }

  lemma {:induction false} BarrenTick(s: State, k: Input)
    requires Keyed(s, k, true)
    ensures var s' := OnTick(s, k);
      if Encodes(s, k) && k.encoded.Produced?
      then |s'.frames| == |s.frames| + 1 && s.frames <= s'.frames && s'.frames[|s.frames|].keyframe
      else s'.frames == s.frames
  {
    hide Passing, Datagram.Fragments, FrameBody;
  }

  /** A new size is never lost: the first frame sent from the tick that takes it in is a keyframe. */
  lemma {:induction false} NewSizeIsNeverLost(s: State, barren: bool, k: Input, rest: seq<Input>)
    requires KeyedRun(s, barren, [k] + rest) && k.reconfigs != []
    ensures var f := After(s, [k] + rest).frames;
      s.frames <= f && (|f| > |s.frames| ==> f[|s.frames|].keyframe)
  {
    hide OnTick, KeyedRun;
    KeyedCons(s, barren, k, rest);
    RunCons(s, k, rest);
    FramesGrow(s, [k] + rest);
    if Reopens(s, k) {
      KeyedCons(s, true, k, rest);
      BarrenNext(s, [k] + rest);
    } else {
      NotReopened(s, k);
      FramesGrow(OnTick(s, k), rest);
    }
  }

  lemma {:induction false} NotReopened(s: State, k: Input)
    requires k.reconfigs != [] && !Reopens(s, k)
    ensures !OnTick(s, k).running && OnTick(s, k).frames == s.frames
  {
  }

  lemma {:induction false} FruitfulTick(s: State, k: Input)
    requires BarrenInv(s, false) && s.running && k.reconfigs == []
    ensures OnTick(s, k).running ==>
      Encodes(s, k) && !Reopens(s, k) && OnTick(s, k).idrQueue == 0 && (!(Encodes(s, k) && k.encoded.Produced?) ==> k.encoded.Nothing?)
  {
    hide Passing, Datagram.Fragments, FrameBody, Numbered;
  }

  lemma {:induction false} NothingAsked(s: State, inputs: seq<Input>)
    requires BarrenInv(s, false) && s.idrQueue == 0 && KeyedRun(s, false, inputs) && Unasked(inputs)
    ensures var f := After(s, inputs).frames;
      s.frames <= f && (|f| > |s.frames| ==> !f[|s.frames|].keyframe)
    decreases |inputs|
  {
    hide OnTick, Keyed, Encodes, BarrenInv;
    FramesGrow(s, inputs);
    if inputs != [] && s.running {
      var k, rest := inputs[0], inputs[1..];
      assert inputs == [k] + rest && k in inputs;
      RunCons(s, k, rest);
      KeyedTick(s, k, false);
      FruitfulTick(s, k);
      FramesGrow(OnTick(s, k), rest);
      if OnTick(s, k).frames == s.frames && OnTick(s, k).running {
        NothingAsked(OnTick(s, k), rest);
      }
    }
  }

  /**
   Exactly when a request or a new size is honoured by the next frame, nothing more being asked: always while the
   encoder in use has put nothing out, as after a new size; else when it does not drop the picture it was forced on.
   */
  lemma {:induction false} HonouredIffKept(s: State, barren: bool, k: Input, rest: seq<Input>)
    requires BarrenInv(s, barren) && (Owed(s) || Asks(k)) && KeyedRun(s, barren, [k] + rest) && Unasked(rest)
    ensures var f := After(s, [k] + rest).frames;
      |f| > |s.frames| ==>
        (f[|s.frames|].keyframe <==> BarrenAt(s, k, barren) || Skips(s, [k] + rest) == 0)
  {
    hide OnTick, KeyedRun, Encodes, BarrenInv;
    KeyedCons(s, barren, k, rest);
    RunCons(s, k, rest);
    FramesGrow(s, [k] + rest);
    if !s.running {
    } else if k.reconfigs != [] {
      NewSizeIsNeverLost(s, barren, k, rest);
      if !Reopens(s, k) {
        NotReopened(s, k);
        FramesGrow(OnTick(s, k), rest);
      }
    } else if barren {
      BarrenNext(s, [k] + rest);
    } else {
      KeyedTick(s, k, false);
      FruitfulTick(s, k);
      Fruitful(s);
      var s1 := OnTick(s, k);
      FramesGrow(s1, rest);
      if s1.frames == s.frames && s1.running {
        NothingAsked(s1, rest);
      }
    }
  }

  lemma {:induction false} Fruitful(s: State)
    requires BarrenInv(s, false)
    ensures Owed(s) <==> s.idrQueue > 0
  {
  }
}
