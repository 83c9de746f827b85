/** The promises of the receive model over whole runs, read off the event log and the ledger. */
module ReassemblySafety {
  import opened Basics
  import opened Reassembly
  import opened ReassemblyRuns

  // ---------------------------------------------------------------- one fate per frame

  /** Conservation: every admitted frame is counted exactly once, whatever arrives. */
  lemma {:induction false} Conservation(trace: seq<Arrival>)
    ensures var m := Run(trace);
      && NoDuplicates(m.admitted)
      && |m.admitted|
        == |Deliveries(m.events)| + m.counters.discardedGap + m.counters.droppedIncomplete + |m.incomplete|
      && |With(m.fates, Delivered)| == |Deliveries(m.events)|
      && |With(m.fates, Discarded)| == m.counters.discardedGap
      && |With(m.fates, Evicted)| + |With(m.fates, Superseded)| == m.counters.droppedIncomplete
      && (forall s :: s in m.admitted <==> s in m.fates || s in m.incomplete)
      && m.fates.Keys !! m.incomplete.Keys
      && |m.incomplete| <= WINDOW_FRAMES
  {
    hide Run, Deliveries, With;
    Reachable(trace);
    var m := Run(trace);
    DistinctCount(m.admitted, m.fates.Keys + m.incomplete.Keys);
    DisjointSets(m);
    FatesPartition(m.fates);
    assert |m.fates.Keys + m.incomplete.Keys| == |m.fates.Keys| + |m.incomplete.Keys|;
  }

  ghost predicate Extends(m: Model, m': Model) {
    && m.admitted <= m'.admitted
    && (forall s :: s in m.fates ==> s in m'.fates && m'.fates[s] == m.fates[s])
    && m.events <= m'.events
    && m.newestComplete <= m'.newestComplete
    && m.counters.discardedGap <= m'.counters.discardedGap
    && m.counters.droppedIncomplete <= m'.counters.droppedIncomplete
  }

  lemma {:induction false} AdmitExtends(m: Model, f: Fragment)
    requires Inv(m) && Admit(m, f).Some?
    ensures Extends(m, Admit(m, f).value)
  {
    hide WellFormedLog, LastDelivered, LastRequest, Deliveries;
    if f.frameSeq !in m.incomplete && |m.incomplete| == WINDOW_FRAMES {
      DeadNotInWindow(m, Oldest(m.incomplete));
    }
  }

  ghost function Passed(m: Model, s: u32): set<u32> {
    set k | k in m.incomplete.Keys && k < s
  }

  lemma {:induction false} CompleteFates(m: Model, s: u32)
    requires m.newestComplete < s
    ensures Complete(m, s).fates == m.fates + Marked(Passed(m, s), Superseded)
  {
    hide Marked;
    StaleKeys(m.incomplete, s);
  }

  lemma {:induction false} CompleteGrows(m: Model, s: u32)
    requires m.newestComplete < s
    ensures var m' := Complete(m, s);
      && m'.admitted == m.admitted && m'.events == m.events && m.newestComplete <= m'.newestComplete
      && m'.counters.discardedGap == m.counters.discardedGap
      && m.counters.droppedIncomplete <= m'.counters.droppedIncomplete
  {
    hide Marked, Stale;
  }

  lemma {:induction false} CompleteExtends(m: Model, s: u32)
    requires m.fates.Keys !! m.incomplete.Keys && s in m.incomplete && m.newestComplete < s
    ensures Extends(m, Complete(m, s)) && s !in Complete(m, s).fates
  {
    hide Marked, Complete;
    CompleteGrows(m, s);
    CompleteFates(m, s);
    MarkedKeys(m.fates, Passed(m, s));
    MarkedKeeps(m.fates, Passed(m, s));
  }

  lemma {:induction false} GateExtends(m: Model, t: int, s: u32, keyframe: bool)
    requires s !in m.fates
    ensures Extends(m, Gate(m, t, s, keyframe))
  {
  }

  lemma {:induction false} MarkedKeeps(fates: map<u32, Fate>, stale: set<u32>)
    requires fates.Keys !! stale
    ensures forall k :: k in fates ==> k in fates + Marked(stale, Superseded) && (fates + Marked(stale, Superseded))[k] == fates[k]
  {
  }

  lemma {:induction false} FinishExtends(m: Model, t: int, s: u32, keyframe: bool)
    requires m.fates.Keys !! m.incomplete.Keys && s in m.incomplete && m.newestComplete < s
    ensures Extends(m, Gate(Complete(m, s), t, s, keyframe))
  {
    hide Gate, Complete;
    CompleteExtends(m, s);
    GateExtends(Complete(m, s), t, s, keyframe);
  }

  lemma {:induction false} StepExtends(m: Model, a: Arrival)
    requires Inv(m)
    ensures Extends(m, Step(m, a))
  {
    hide Admit, Gate, Complete, Ledger, LogOk, CountInv, WindowOk, Full;
    var r := Admit(m, a.frag);
    if r.Some? {
      AdmitKeeps(m, a.frag);
      AdmitExtends(m, a.frag);
      FillKeeps(r.value, a.frag);
      DisjointSets(r.value);
      var m2 := Fill(r.value, a.frag);
      FinishExtends(m2, a.t, a.frag.frameSeq, m2.incomplete[a.frag.frameSeq].keyframe);
    }
  }

  /** A fate is final: no later arrival changes it, and the events and admissions only grow. */
  lemma {:induction false} FatesAreFinal(m: Model, trace: seq<Arrival>)
    requires Inv(m)
    ensures Extends(m, RunFrom(m, trace))
  {
    hide Step, Inv;
    if trace != [] {
      var init := trace[..|trace| - 1];
      FatesAreFinal(m, init);
      RunKeeps(m, init);
      StepExtends(RunFrom(m, init), trace[|trace| - 1]);
    }
  }

  /** A frame that has met its fate is never admitted again, however many more fragments of it arrive. */
  lemma {:induction false} DeadStaysDead(before: seq<Arrival>, after: seq<Arrival>, s: u32)
    requires s in Run(before).fates
    ensures var m := Run(before + after);
      s in m.fates && m.fates[s] == Run(before).fates[s] && s !in m.incomplete && NoDuplicates(m.admitted)
  {
    Reachable(before);
    FatesAreFinal(Run(before), after);
    RunSplit(Init(), before, after);
    Conservation(before + after);
  }

  // ---------------------------------------------------------------- decode gating

  /** One more delivery that decode gating lets through. */
  lemma {:induction false} GatedOneMore(d: seq<Event>, e: Event)
    requires e.Deliver? && forall i :: 0 <= i < |d| ==> d[i].Deliver?
    requires forall i, j :: 0 <= i < j < |d| ==> d[i].frameSeq < d[j].frameSeq
    requires forall i :: 0 <= i < |d| && !d[i].keyframe ==> 0 < i && d[i - 1].frameSeq + 1 == d[i].frameSeq
    requires d != [] ==> d[|d| - 1].frameSeq < e.frameSeq
    requires !e.keyframe ==> d != [] && d[|d| - 1].frameSeq + 1 == e.frameSeq
    ensures var d' := d + [e];
      && (forall i :: 0 <= i < |d'| ==> d'[i].Deliver?)
      && (forall i, j :: 0 <= i < j < |d'| ==> d'[i].frameSeq < d'[j].frameSeq)
      && (forall i :: 0 <= i < |d'| && !d'[i].keyframe ==> 0 < i && d'[i - 1].frameSeq + 1 == d'[i].frameSeq)
  {
  }

  lemma {:induction false} NothingLogged()
    ensures Deliveries([]) == [] && LastDelivered([]) == None
  {
  }

  lemma {:induction false} LogGating(es: seq<Event>)
    requires WellFormedLog(es)
    ensures var d := Deliveries(es);
      && (forall i :: 0 <= i < |d| ==> d[i].Deliver?)
      && (LastDelivered(es) == if d == [] then None else Some(d[|d| - 1].frameSeq))
      && (forall i, j :: 0 <= i < j < |d| ==> d[i].frameSeq < d[j].frameSeq)
      && (forall i :: 0 <= i < |d| && !d[i].keyframe ==> 0 < i && d[i - 1].frameSeq + 1 == d[i].frameSeq)
  {
    hide WellFormedLog, Deliveries, LastDelivered;
    NothingLogged();
    if es != [] {
      var init, e := es[..|es| - 1], es[|es| - 1];
      assert es == init + [e];
      Append(init, e);
      LogGating(init);
      if e.Deliver? {
        GatedOneMore(Deliveries(init), e);
      }
    }
  }

  /** Deliveries strictly increase, and a delta frame comes right after its reference. */
  lemma {:induction false} NeverUndecodable(trace: seq<Arrival>)
    ensures var d := Deliveries(Run(trace).events);
      && (forall i :: 0 <= i < |d| ==> d[i].Deliver?)
      && (forall i, j :: 0 <= i < j < |d| ==> d[i].frameSeq < d[j].frameSeq)
      && (forall i :: 0 <= i < |d| && !d[i].keyframe ==> 0 < i && d[i - 1].frameSeq + 1 == d[i].frameSeq)
  {
    hide Run, Ledger, Deliveries;
    Reachable(trace);
    LogGating(Run(trace).events);
  }

  /** `i` is decodable back to a delivered keyframe without a gap. */
  ghost predicate ChainFrom(d: seq<Event>, k: int, i: int) {
    && 0 <= k <= i < |d| && (forall j :: 0 <= j < |d| ==> d[j].Deliver?)
    && d[k].keyframe
    && forall j :: k <= j <= i ==> d[j].frameSeq == d[k].frameSeq + (j - k)
  }

  lemma {:induction false} ChainExists(d: seq<Event>, i: nat)
    requires i < |d| && forall j :: 0 <= j < |d| ==> d[j].Deliver?
    requires forall j :: 0 <= j < |d| && !d[j].keyframe ==> 0 < j && d[j - 1].frameSeq + 1 == d[j].frameSeq
    ensures exists k :: ChainFrom(d, k, i)
  {
    if d[i].keyframe {
      assert ChainFrom(d, i, i);
    } else {
      ChainExists(d, i - 1);
      var k :| ChainFrom(d, k, i - 1);
      assert d[i - 1].frameSeq == d[k].frameSeq + (i - 1 - k);
      assert ChainFrom(d, k, i);
    }
  }

  /** Every delivered frame n has a delivered keyframe k with exactly k, k+1, ..., n delivered in between. */
  lemma {:induction false} DecodeChain(trace: seq<Arrival>, i: nat)
    requires i < |Deliveries(Run(trace).events)|
    ensures exists k :: ChainFrom(Deliveries(Run(trace).events), k, i)
  {
    NeverUndecodable(trace);
    ChainExists(Deliveries(Run(trace).events), i);
  }

  lemma {:induction false} DeliveriesSplit(a: seq<Event>, b: seq<Event>)
    ensures Deliveries(a + b) == Deliveries(a) + Deliveries(b)
  {
    if b == [] {
      assert a + b == a;
    } else {
      var init, e := b[..|b| - 1], b[|b| - 1];
      DeliveriesSplit(a, init);
      assert a + b == a + init + [e];
      Append(a + init, e);
    }
  }

  // What each part of a step does to the log, the decoder position and the gap counter.

  ghost predicate SameLog(m: Model, m': Model) {
    && m'.events == m.events && m'.lastDecoded == m.lastDecoded && m'.idrLast == m.idrLast
    && m'.counters.discardedGap == m.counters.discardedGap
  }

  ghost predicate Delivers(m: Model, m': Model, a: Arrival, keyframe: bool) {
    && m'.events == m.events + [Deliver(a.t, a.frag.frameSeq, keyframe)]
    && m'.lastDecoded == Some(a.frag.frameSeq) && m'.idrLast == m.idrLast
    && m'.counters.discardedGap == m.counters.discardedGap
    && (!keyframe ==> m.lastDecoded == Some(a.frag.frameSeq - 1))
  }

  ghost predicate Discards(m: Model, m': Model, a: Arrival) {
    && m'.counters.discardedGap == m.counters.discardedGap + 1
    && m'.lastDecoded == m.lastDecoded != Some(a.frag.frameSeq - 1)
    && if m.idrLast.Some? && a.t - m.idrLast.value < IDR_INTERVAL_MS then
         m'.events == m.events && m'.idrLast == m.idrLast
       else
         m'.events == m.events + [IdrRequest(a.t, LastGood(m.lastDecoded))] && m'.idrLast == Some(a.t)
  }

  lemma {:induction false} AdmitSameLog(m: Model, f: Fragment)
    requires Admit(m, f).Some?
    ensures SameLog(m, Admit(m, f).value) && Admit(m, f).value.newestComplete == m.newestComplete < f.frameSeq
  {
  }

  lemma {:induction false} GateOutcome(m: Model, a: Arrival, keyframe: bool)
    ensures var m' := Gate(m, a.t, a.frag.frameSeq, keyframe);
      m'.newestComplete == m.newestComplete && (Delivers(m, m', a, keyframe) || Discards(m, m', a))
  {
  }

  /** Every arrival leaves the log alone, or completes its frame, which is then delivered or discarded. */
  lemma {:induction false} StepOutcome(m: Model, a: Arrival)
    ensures var m' := Step(m, a);
      || (SameLog(m, m') && m'.newestComplete == m.newestComplete)
      || (m'.newestComplete == a.frag.frameSeq > m.newestComplete
          && ((exists k :: Delivers(m, m', a, k)) || Discards(m, m', a)))
  {
    hide Admit, Complete, Gate;
    var r := Admit(m, a.frag);
    if r.Some? {
      AdmitSameLog(m, a.frag);
      var m2 := Fill(r.value, a.frag);
      if Full(m2.incomplete[a.frag.frameSeq]) {
        CompleteSameLog(m2, a.frag.frameSeq);
        var keyframe := m2.incomplete[a.frag.frameSeq].keyframe;
        GateOutcome(Complete(m2, a.frag.frameSeq), a, keyframe);
        assert Delivers(m, Step(m, a), a, keyframe) || Discards(m, Step(m, a), a);
      }
    }
  }

  lemma {:induction false} CompleteSameLog(m: Model, s: u32)
    requires m.newestComplete < s
    ensures SameLog(m, Complete(m, s)) && Complete(m, s).newestComplete == s
  {
  }

  lemma {:induction false} GapHolds(m: Model, trace: seq<Arrival>)
    requires Inv(m) && (m.lastDecoded.Some? ==> m.lastDecoded.value + 1 < m.newestComplete)
    ensures var m' := RunFrom(m, trace);
      && m.events <= m'.events
      && var fresh' := Deliveries(m'.events[|m.events|..]);
        if fresh' == [] then m'.lastDecoded == m.lastDecoded else fresh'[0].Deliver? && fresh'[0].keyframe
  {
    hide Step, Inv;
    if trace == [] {
      assert m.events[|m.events|..] == [];
    } else {
      var init, a := trace[..|trace| - 1], trace[|trace| - 1];
      GapHolds(m, init);
      RunKeeps(m, init);
      FatesAreFinal(m, init);
      GapStep(m, RunFrom(m, init), a);
    }
  }

  lemma {:induction false} GapStep(m0: Model, m: Model, a: Arrival)
    requires Inv(m) && m0.events <= m.events && m0.newestComplete <= m.newestComplete
    requires m0.lastDecoded.Some? ==> m0.lastDecoded.value + 1 < m0.newestComplete
    requires var d := Deliveries(m.events[|m0.events|..]);
      if d == [] then m.lastDecoded == m0.lastDecoded else d[0].Deliver? && d[0].keyframe
    ensures var m' := Step(m, a);
      && m0.events <= m'.events
      && var d := Deliveries(m'.events[|m0.events|..]);
        if d == [] then m'.lastDecoded == m0.lastDecoded else d[0].Deliver? && d[0].keyframe
  {
    hide Step, Inv, Deliveries;
    StepOutcome(m, a);
    var m' := Step(m, a);
    if m'.events != m.events {
      var e := m'.events[|m.events|];
      assert m'.events[|m0.events|..] == m.events[|m0.events|..] + [e];
      Append(m.events[|m0.events|..], e);
    }
  }

  lemma {:induction false} DecodedBelow(m: Model)
    requires Inv(m)
    ensures m.lastDecoded.Some? ==> m.lastDecoded.value <= m.newestComplete
  {
  }

  /** After a gap discard the next delivery, if there is one, is a keyframe. */
  lemma {:induction false} GapThenKeyframe(before: seq<Arrival>, a: Arrival, after: seq<Arrival>)
    requires Step(Run(before), a).counters.discardedGap > Run(before).counters.discardedGap
    ensures var d, d' := Deliveries(Run(before).events), Deliveries(Run(before + [a] + after).events);
      d <= d' && (|d'| > |d| ==> d'[|d|].Deliver? && d'[|d|].keyframe)
  {
    hide Step, Inv, Deliveries;
    var m := Run(before);
    Reachable(before);
    StepOutcome(m, a);
    DecodedBelow(m);
    StepKeeps(m, a);
    RunPush(Init(), before, a);
    var m1 := Step(m, a);
    assert Discards(m, m1, a);
    Append(m.events, IdrRequest(a.t, LastGood(m.lastDecoded)));
    assert Deliveries(m1.events) == Deliveries(m.events);
    GapHolds(m1, after);
    RunSplit(Init(), before + [a], after);
    var es := Run(before + [a] + after).events;
    assert es == m1.events + es[|m1.events|..];
    DeliveriesSplit(m1.events, es[|m1.events|..]);
    assert RunFrom(m1, after).events == es;
  }

  // ---------------------------------------------------------------- stale fragments

  /** Nothing is done with the fragment: its frame is done with, or older than the two being put together. */
  ghost predicate TooOld(m: Model, f: Fragment) {
    || f.frameSeq <= m.newestComplete
    || (f.frameSeq !in m.incomplete && |m.incomplete| == 2 && forall k :: k in m.incomplete ==> f.frameSeq < k)
  }

  ghost function TooOldCount(trace: seq<Arrival>): nat {
    if trace == [] then 0
    else
      var init := trace[..|trace| - 1];
      TooOldCount(init) + if TooOld(Run(init), trace[|trace| - 1].frag) then 1 else 0
  }

  lemma {:induction false} AdmitIffYoung(m: Model, f: Fragment)
    requires |m.incomplete| <= WINDOW_FRAMES
    ensures Admit(m, f).None? <==> TooOld(m, f)
    ensures Admit(m, f).Some? ==> Admit(m, f).value.counters.staleFragments == m.counters.staleFragments
  {
  }

  lemma {:induction false} FinishCountsNoStale(m: Model, t: int, s: u32, keyframe: bool)
    ensures Gate(Complete(m, s), t, s, keyframe).counters.staleFragments == m.counters.staleFragments
  {
  }

  lemma {:induction false} StepCountsStale(m: Model, a: Arrival)
    requires Inv(m)
    ensures Step(m, a).counters.staleFragments == m.counters.staleFragments + if TooOld(m, a.frag) then 1 else 0
  {
    hide Admit, Complete, Gate, Full, LogOk, Ledger, CountInv;
    AdmitIffYoung(m, a.frag);
    var r := Admit(m, a.frag);
    if r.Some? {
      var m2 := Fill(r.value, a.frag);
      FinishCountsNoStale(m2, a.t, a.frag.frameSeq, m2.incomplete[a.frag.frameSeq].keyframe);
    }
  }

  /** The stale counter counts exactly the fragments that were too old. */
  lemma {:induction false} StaleIsCounted(trace: seq<Arrival>)
    ensures Run(trace).counters.staleFragments == TooOldCount(trace)
  {
    hide Step, Inv, TooOld;
    if trace != [] {
      StaleIsCounted(trace[..|trace| - 1]);
      Reachable(trace[..|trace| - 1]);
      StepCountsStale(Run(trace[..|trace| - 1]), trace[|trace| - 1]);
    }
  }
}
