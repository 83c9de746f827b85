/** Recovery: from every reachable state a complete keyframe is delivered, and a loss-free stream then flows. */
module ReassemblyRecovery {
  import opened Basics
  import opened Reassembly
  import opened ReassemblyRuns
  import opened ReassemblySafety
  import opened ReassemblyEvidence

  /** Everything the receiver knows about is older than frame `n`. */
  ghost predicate Behind(m: Model, n: int) {
    m.newestComplete < n && forall k :: k in m.incomplete ==> k < n
  }

  lemma {:induction false} OlderTraceIsBehind(trace: seq<Arrival>, n: u32)
    requires forall i :: 0 <= i < |trace| ==> trace[i].frag.frameSeq < n
    ensures Behind(Run(trace), n)
  {
    hide Step;
    if trace != [] {
      OlderTraceIsBehind(trace[..|trace| - 1], n);
      StepWindow(Run(trace[..|trace| - 1]), trace[|trace| - 1]);
    }
  }

  /** Arrivals of frame `n` as it was sent, mixed with anything older. */
  ghost predicate Group(trace: seq<Arrival>, n: u32, p: Plan) {
    forall i :: 0 <= i < |trace| ==>
      var f := trace[i].frag;
      f.frameSeq < n || (f.frameSeq == n && f.fragCount == p.count && f.fragIndex < p.count && f.keyframe == p.keyframe)
  }

  ghost predicate Covers(trace: seq<Arrival>, n: u32, p: Plan) {
    0 < p.count && forall i :: 0 <= i < p.count ==> Seen(trace, n, i)
  }

  /** Frame `n` cannot be turned away or evicted by older frames. */
  lemma {:induction false} NewestIsAdmitted(m: Model, f: Fragment)
    requires m.newestComplete < f.frameSeq && forall k :: k in m.incomplete ==> k <= f.frameSeq
    ensures Admit(m, f).Some?
  {
  }

  lemma {:induction false} AdmitRetains(m: Model, f: Fragment, n: u32)
    requires n in m.incomplete && f.frameSeq < n && Admit(m, f).Some?
    ensures n in Admit(m, f).value.incomplete
  {
  }

  lemma {:induction false} FinishRetains(m: Model, t: int, s: u32, keyframe: bool, n: u32)
    requires n in m.incomplete && s < n && m.newestComplete < n
    ensures n in Gate(Complete(m, s), t, s, keyframe).incomplete
  {
  }

  lemma {:induction false} StepRetains(m: Model, a: Arrival, n: u32)
    requires n in m.incomplete && a.frag.frameSeq < n && m.newestComplete < n
    ensures n in Step(m, a).incomplete
  {
    hide Admit, Complete, Gate;
    var r := Admit(m, a.frag);
    if r.Some? {
      AdmitSameLog(m, a.frag);
      AdmitRetains(m, a.frag, n);
      var m2 := Fill(r.value, a.frag);
      FinishRetains(m2, a.t, a.frag.frameSeq, m2.incomplete[a.frag.frameSeq].keyframe, n);
    }
  }

  /** How far frame `n` has come after the arrivals `trace`. */
  ghost predicate Progress(m: Model, trace: seq<Arrival>, n: u32, p: Plan) {
    && m.newestComplete <= n
    && (forall k :: k in m.incomplete ==> k <= n)
    && (m.newestComplete < n ==> forall i :: Seen(trace, n, i) ==> n in m.incomplete && i in m.incomplete[n].have)
    && (n in m.incomplete ==>
        && m.incomplete[n].need == p.count && m.incomplete[n].keyframe == p.keyframe
        && forall i :: i in m.incomplete[n].have ==> i < p.count)
    && (m.newestComplete == n && p.keyframe ==>
        m.lastDecoded == Some(n) && exists t :: Deliver(t, n, true) in m.events)
  }

  lemma {:induction false} ProgressOlder(m: Model, trace: seq<Arrival>, a: Arrival, n: u32, p: Plan)
    requires Progress(m, trace, n, p) && m.newestComplete < n && a.frag.frameSeq < n
    ensures Progress(Step(m, a), trace + [a], n, p)
  {
    hide Step, Admit, Full, Gated;
    StepWindow(m, a);
    if n in m.incomplete {
      StepRetains(m, a, n);
    }
    SeenLess(trace, a, n);
  }

  lemma {:induction false} SeenLess(trace: seq<Arrival>, a: Arrival, n: u32)
    ensures forall i :: Seen(trace + [a], n, i) ==> Seen(trace, n, i) || (a.frag.frameSeq == n && i == a.frag.fragIndex)
  {
    forall i | Seen(trace + [a], n, i)
      ensures Seen(trace, n, i) || (a.frag.frameSeq == n && i == a.frag.fragIndex)
    {
      var k :| 0 <= k < |trace + [a]| && (trace + [a])[k].frag.frameSeq == n && (trace + [a])[k].frag.fragIndex == i;
      assert k < |trace| ==> (trace + [a])[k] == trace[k];
    }
  }

  lemma {:induction false} ProgressOwn(m: Model, trace: seq<Arrival>, a: Arrival, n: u32, p: Plan)
    requires Progress(m, trace, n, p) && m.newestComplete < n
    requires a.frag.frameSeq == n && a.frag.fragCount == p.count && a.frag.fragIndex < p.count && a.frag.keyframe == p.keyframe
    ensures Progress(Step(m, a), trace + [a], n, p)
  {
    hide Step, Admit, Full, Seen;
    NewestIsAdmitted(m, a.frag);
    StepWindow(m, a);
    SeenLess(trace, a, n);
    var m' := Step(m, a);
    if m'.newestComplete != m.newestComplete && p.keyframe {
      assert m'.events[|m'.events| - 1] == Deliver(a.t, n, true);
    }
  }

  lemma {:induction false} GroupProgress(m: Model, trace: seq<Arrival>, n: u32, p: Plan)
    requires Behind(m, n) && Group(trace, n, p)
    ensures Progress(RunFrom(m, trace), trace, n, p)
  {
    hide Step, Seen;
    if trace == [] {
      NothingSeen(n);
    } else {
      var init, a := trace[..|trace| - 1], trace[|trace| - 1];
      assert init + [a] == trace;
      GroupProgress(m, init, n, p);
      var m1 := RunFrom(m, init);
      if m1.newestComplete == n {
        StaleStep(m1, a);
      } else if a.frag.frameSeq < n {
        ProgressOlder(m1, init, a, n, p);
      } else {
        ProgressOwn(m1, init, a, n, p);
      }
    }
  }

  lemma {:induction false} NothingSeen(n: u32)
    ensures forall i :: !Seen([], n, i)
  {
  }

  lemma {:induction false} StaleStep(m: Model, a: Arrival)
    requires a.frag.frameSeq <= m.newestComplete
    ensures Step(m, a) == CountStale(m)
  {
  }

  /** A frame newer than everything seen completes once all its fragments are in, whatever older ones come between. */
  lemma {:induction false} CoveredFrameCompletes(m: Model, trace: seq<Arrival>, n: u32, p: Plan)
    requires Inv(m) && Behind(m, n) && Group(trace, n, p) && Covers(trace, n, p)
    ensures var m' := RunFrom(m, trace); m'.newestComplete == n && m'.incomplete == map[] && Progress(m', trace, n, p)
  {
    hide Seen, RunFrom, Ledger, LogOk, CountInv;
    GroupProgress(m, trace, n, p);
    RunKeeps(m, trace);
    var m' := RunFrom(m, trace);
    if m'.newestComplete < n {
      assert Seen(trace, n, 0);
      CoveredIsFull(m'.incomplete[n], p, trace, n);
      assert false;
    }
    assert m'.incomplete.Keys == {};
  }

  lemma {:induction false} CoveredIsFull(e: Incomplete, p: Plan, trace: seq<Arrival>, n: u32)
    requires Covers(trace, n, p) && e.need == p.count
    requires forall i :: Seen(trace, n, i) ==> i in e.have
    requires forall i :: i in e.have ==> i < p.count
    ensures Full(e)
  {
    hide Seen;
    assert e.have == Below(p.count);
  }

  /** Recovery from every reachable state. */
  lemma {:induction false} KeyframeRecovers(before: seq<Arrival>, trace: seq<Arrival>, n: u32, count: nat)
    requires forall i :: 0 <= i < |before| ==> before[i].frag.frameSeq < n
    requires Group(trace, n, Plan(count, true)) && Covers(trace, n, Plan(count, true))
    ensures var m := Run(before + trace);
      && (exists t :: Deliver(t, n, true) in m.events)
      && m.lastDecoded == Some(n) && m.newestComplete == n && m.incomplete == map[]
  {
    hide Group, Covers, Inv, Step;
    Reachable(before);
    OlderTraceIsBehind(before, n);
    CoveredFrameCompletes(Run(before), trace, n, Plan(count, true));
    RunSplit(Init(), before, trace);
  }

  // ---------------------------------------------------------------- the loss-free stream after it

  /** The decoder has just taken frame `n`, and nothing else is known. */
  ghost predicate InStep(m: Model, n: int) {
    0 <= n < TWO_32 && m.newestComplete == n && m.lastDecoded == Some(n) && m.incomplete == map[]
  }

  ghost predicate OnlyWaits(m0: Model, m: Model, n: int) {
    && SameLog(m0, m) && m.newestComplete == n - 1
    && m.counters.droppedIncomplete == m0.counters.droppedIncomplete
    && m.incomplete.Keys <= {n}
  }

  ghost predicate TookFrame(m0: Model, m: Model, n: int, keyframe: bool) {
    && 0 <= n < TWO_32 && InStep(m, n)
    && (exists t :: m.events == m0.events + [Deliver(t, n, keyframe)])
    && m.idrLast == m0.idrLast
    && m.counters.discardedGap == m0.counters.discardedGap
    && m.counters.droppedIncomplete == m0.counters.droppedIncomplete
  }

  lemma {:induction false} WaitingAdmits(m: Model, f: Fragment)
    requires m.newestComplete < f.frameSeq && m.incomplete.Keys <= {f.frameSeq}
    ensures Admit(m, f).Some?
    ensures var m1 := Admit(m, f).value;
      m1.counters == m.counters && m1.incomplete.Keys == {f.frameSeq} && m1.newestComplete == m.newestComplete
  {
    if f.frameSeq !in m.incomplete {
      assert m.incomplete.Keys == {};
      assert |m.incomplete| == |m.incomplete.Keys|;
    }
  }

  lemma {:induction false} FinishAlone(m: Model, t: int, n: u32, keyframe: bool)
    requires m.newestComplete < n && m.incomplete.Keys == {n}
    ensures var m' := Gate(Complete(m, n), t, n, keyframe);
      m'.counters.droppedIncomplete == m.counters.droppedIncomplete && m'.incomplete.Keys == {}
  {
    assert Stale(m.incomplete - {n}, n) == {};
  }

  lemma {:induction false} WaitingDropsNothing(m: Model, a: Arrival, n: u32)
    requires m.newestComplete == n - 1 && m.incomplete.Keys <= {n} && a.frag.frameSeq == n
    ensures var m' := Step(m, a);
      m'.counters.droppedIncomplete == m.counters.droppedIncomplete && m'.incomplete.Keys <= {n}
  {
    hide Admit, Complete, Gate, Full;
    WaitingAdmits(m, a.frag);
    var m2 := Fill(Admit(m, a.frag).value, a.frag);
    assert m2.incomplete.Keys == {n};
    FinishAlone(m2, a.t, n, m2.incomplete[n].keyframe);
  }

  lemma {:induction false} InOrderGroup(m: Model, trace: seq<Arrival>, n: u32, p: Plan)
    requires InStep(m, n - 1) && Group(trace, n, p)
    ensures var m' := RunFrom(m, trace); OnlyWaits(m, m', n) || TookFrame(m, m', n, p.keyframe)
  {
    hide Step, Delivers, Discards;
    if trace != [] {
      var init, a := trace[..|trace| - 1], trace[|trace| - 1];
      InOrderGroup(m, init, n, p);
      GroupProgress(m, init, n, p);
      InOrderStep(m, RunFrom(m, init), init, a, n, p);
    }
  }

  lemma {:induction false} InOrderStep(m0: Model, m: Model, trace: seq<Arrival>, a: Arrival, n: u32, p: Plan)
    requires InStep(m0, n - 1) && Group([a], n, p) && Progress(m, trace, n, p)
    requires OnlyWaits(m0, m, n) || TookFrame(m0, m, n, p.keyframe)
    ensures OnlyWaits(m0, Step(m, a), n) || TookFrame(m0, Step(m, a), n, p.keyframe)
  {
    hide Step, Admit, Full, Seen;
    assert [a][0] == a;
    if a.frag.frameSeq <= m.newestComplete {
      StaleStep(m, a);
    } else {
      assert a.frag.frameSeq == n && OnlyWaits(m0, m, n);
      StepWindow(m, a);
      WaitingDropsNothing(m, a, n);
      var m' := Step(m, a);
      if m'.newestComplete != m.newestComplete {
        assert m'.incomplete.Keys == {};
        assert Delivers(m, m', a, p.keyframe);
      }
    }
  }

  /** One more complete frame, in order: delivered, with no keyframe request, no discard and no drop. */
  lemma {:induction false} NextFrameFlows(m: Model, trace: seq<Arrival>, n: u32, p: Plan)
    requires Inv(m) && InStep(m, n - 1) && Group(trace, n, p) && Covers(trace, n, p)
    ensures TookFrame(m, RunFrom(m, trace), n, p.keyframe)
  {
    hide Inv, Group, Covers, RunFrom;
    InOrderGroup(m, trace, n, p);
    CoveredFrameCompletes(m, trace, n, p);
  }

  function Flatten(groups: seq<seq<Arrival>>): seq<Arrival> {
    if groups == [] then [] else Flatten(groups[..|groups| - 1]) + groups[|groups| - 1]
  }

  ghost predicate LossFree(groups: seq<seq<Arrival>>, plan: seq<Plan>, first: int) {
    && |plan| == |groups| && 0 <= first && first + |groups| <= TWO_32
    && forall i :: 0 <= i < |groups| ==> Group(groups[i], first + i, plan[i]) && Covers(groups[i], first + i, plan[i])
  }

  /** The deliveries of frames first, first+1, ..., each with its flag, at some times. */
  ghost predicate InOrder(events: seq<Event>, plan: seq<Plan>, first: int) {
    |events| == |plan| && forall i :: 0 <= i < |plan| ==>
      events[i].Deliver? && events[i].frameSeq == first + i && events[i].keyframe == plan[i].keyframe
  }

  lemma {:induction false} StreamFlows(m: Model, groups: seq<seq<Arrival>>, plan: seq<Plan>, first: int)
    requires Inv(m) && InStep(m, first - 1) && LossFree(groups, plan, first)
    ensures var m' := RunFrom(m, Flatten(groups));
      && InStep(m', first - 1 + |groups|) && Inv(m')
      && m.events <= m'.events && InOrder(m'.events[|m.events|..], plan, first)
      && m'.counters.discardedGap == m.counters.discardedGap
      && m'.counters.droppedIncomplete == m.counters.droppedIncomplete
  {
    hide Inv, Group, Covers, Step;
    if groups != [] {
      var k := |groups| - 1;
      var init, last := groups[..k], groups[k];
      StreamFlows(m, init, plan[..k], first);
      var m1 := RunFrom(m, Flatten(init));
      NextFrameFlows(m1, last, first + k, plan[k]);
      RunKeeps(m1, last);
      RunSplit(m, Flatten(init), last);
      var m' := RunFrom(m1, last);
      assert m'.events[|m.events|..] == m1.events[|m.events|..] + [m'.events[|m1.events|]];
    }
  }

  /** After recovery a loss-free stream is delivered frame by frame; nothing is requested, discarded or dropped. */
  lemma {:induction false} RecoveryThenFlow(
    before: seq<Arrival>, key: seq<Arrival>, n: u32, count: nat, groups: seq<seq<Arrival>>, plan: seq<Plan>)
    requires forall i :: 0 <= i < |before| ==> before[i].frag.frameSeq < n
    requires Group(key, n, Plan(count, true)) && Covers(key, n, Plan(count, true))
    requires LossFree(groups, plan, n + 1)
    ensures var m, m' := Run(before + key), Run(before + key + Flatten(groups));
      && (exists t :: Deliver(t, n, true) in m.events)
      && m.events <= m'.events && InOrder(m'.events[|m.events|..], plan, n + 1)
      && m'.counters.discardedGap == m.counters.discardedGap
      && m'.counters.droppedIncomplete == m.counters.droppedIncomplete
  {
    hide Inv, Group, Covers, LossFree, Step, InOrder;
    KeyframeRecovers(before, key, n, count);
    Reachable(before + key);
    StreamFlows(Run(before + key), groups, plan, n + 1);
    RunSplit(Init(), before + key, Flatten(groups));
  }
}
