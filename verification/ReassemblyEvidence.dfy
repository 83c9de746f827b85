/** What a delivery proves about the arrivals before it, and what arrivals suffice for a delivery. */
module ReassemblyEvidence {
  import opened Basics
  import opened Reassembly
  import opened ReassemblySafety

  /** What the sender put into the header of every fragment of one frame. */
  datatype Plan = Plan(count: nat, keyframe: bool)

  ghost predicate Conforms(plan: seq<Plan>, f: Fragment) {
    && f.frameSeq < |plan|
    && f.fragCount == plan[f.frameSeq].count && f.fragIndex < f.fragCount
    && f.keyframe == plan[f.frameSeq].keyframe
  }

  ghost predicate AllConform(plan: seq<Plan>, trace: seq<Arrival>) {
    forall i :: 0 <= i < |trace| ==> Conforms(plan, trace[i].frag)
  }

  ghost predicate Seen(trace: seq<Arrival>, s: int, index: int) {
    exists i :: 0 <= i < |trace| && trace[i].frag.frameSeq == s && trace[i].frag.fragIndex == index
  }

  /** The window entry of `f`'s frame with `f` in it. */
  ghost function EntryWith(m: Model, f: Fragment): Incomplete {
    var e := if f.frameSeq in m.incomplete then m.incomplete[f.frameSeq] else Incomplete(f.fragCount, {}, f.keyframe);
    e.(have := e.have + {f.fragIndex})
  }

  /** A completed frame is delivered exactly when it is a keyframe or follows the last delivery. */
  ghost predicate Gated(m: Model, m': Model, a: Arrival, keyframe: bool) {
    if keyframe || m.lastDecoded == Some(a.frag.frameSeq - 1) then Delivers(m, m', a, keyframe) else Discards(m, m', a)
  }

  lemma {:induction false} AdmitWindow(m: Model, f: Fragment)
    requires Admit(m, f).Some?
    ensures var m1 := Admit(m, f).value;
      && (forall k :: k in m1.incomplete && k != f.frameSeq ==> k in m.incomplete && m1.incomplete[k] == m.incomplete[k])
      && Fill(m1, f).incomplete[f.frameSeq] == EntryWith(m, f)
  {
  }

  lemma {:induction false} CompleteWindow(m: Model, s: u32)
    requires m.newestComplete < s
    ensures var m' := Complete(m, s);
      forall k :: k in m'.incomplete ==> k != s && k in m.incomplete && m'.incomplete[k] == m.incomplete[k]
  {
  }

  lemma {:induction false} GateWindow(m: Model, t: int, s: u32, keyframe: bool)
    ensures Gate(m, t, s, keyframe).incomplete == m.incomplete
  {
  }

  /** What one arrival does to the window, and why a frame completes. */
  lemma {:induction false} StepWindow(m: Model, a: Arrival)
    ensures var m', s := Step(m, a), a.frag.frameSeq;
      && (forall k :: k in m'.incomplete && k != s ==> k in m.incomplete && m'.incomplete[k] == m.incomplete[k])
      && (s in m'.incomplete ==>
          if Admit(m, a.frag).Some? then m'.incomplete[s] == EntryWith(m, a.frag) && !Full(m'.incomplete[s])
          else s in m.incomplete && m'.incomplete[s] == m.incomplete[s])
      && (m'.newestComplete != m.newestComplete ==>
          && Full(EntryWith(m, a.frag)) && m.newestComplete < s == m'.newestComplete && s !in m'.incomplete
          && Gated(m, m', a, EntryWith(m, a.frag).keyframe))
      && (m'.newestComplete == m.newestComplete ==>
          SameLog(m, m') && (Admit(m, a.frag).Some? ==> s in m'.incomplete))
  {
    hide Admit, Complete, Gate, Full, Gated;
    var s := a.frag.frameSeq;
    var r := Admit(m, a.frag);
    if r.Some? {
      AdmitSameLog(m, a.frag);
      AdmitWindow(m, a.frag);
      var m2 := Fill(r.value, a.frag);
      if Full(m2.incomplete[s]) {
        FinishWindow(m, m2, a);
      }
    }
  }

  lemma {:induction false} FinishWindow(m: Model, m2: Model, a: Arrival)
    requires a.frag.frameSeq in m2.incomplete && m2.newestComplete == m.newestComplete < a.frag.frameSeq
    requires SameLog(m, m2)
    ensures var m' := Gate(Complete(m2, a.frag.frameSeq), a.t, a.frag.frameSeq, m2.incomplete[a.frag.frameSeq].keyframe);
      && m'.newestComplete == a.frag.frameSeq
      && (forall k :: k in m'.incomplete ==>
          k != a.frag.frameSeq && k in m2.incomplete && m'.incomplete[k] == m2.incomplete[k])
      && Gated(m, m', a, m2.incomplete[a.frag.frameSeq].keyframe)
  {
    hide Complete, Gate;
    var s, keyframe := a.frag.frameSeq, m2.incomplete[a.frag.frameSeq].keyframe;
    CompleteSameLog(m2, s);
    CompleteWindow(m2, s);
    GateWindow(Complete(m2, s), a.t, s, keyframe);
    GateDelivers(Complete(m2, s), a, keyframe);
  }

  lemma {:induction false} GateDelivers(m: Model, a: Arrival, keyframe: bool)
    ensures var m' := Gate(m, a.t, a.frag.frameSeq, keyframe);
      m'.newestComplete == m.newestComplete && Gated(m, m', a, keyframe)
  {
  }

  // ---------------------------------------------------------------- deliveries are whole

  /** All of frame `s` has arrived, and `keyframe` is the flag it was sent with. */
  ghost predicate Whole(plan: seq<Plan>, trace: seq<Arrival>, s: int, keyframe: bool) {
    && 0 <= s < |plan| && keyframe == plan[s].keyframe
    && forall i :: 0 <= i < plan[s].count ==> Seen(trace, s, i)
  }

  ghost predicate EntryBacked(plan: seq<Plan>, trace: seq<Arrival>, s: u32, e: Incomplete) {
    && s < |plan| && e.need == plan[s].count && e.keyframe == plan[s].keyframe
    && forall i :: i in e.have ==> i < e.need && Seen(trace, s, i)
  }

  ghost predicate Backed(plan: seq<Plan>, trace: seq<Arrival>, m: Model) {
    && (forall s :: s in m.incomplete ==> EntryBacked(plan, trace, s, m.incomplete[s]))
    && (forall e :: e in m.events && e.Deliver? ==> Whole(plan, trace, e.frameSeq, e.keyframe))
  }

  lemma {:induction false} SeenMore(trace: seq<Arrival>, a: Arrival)
    ensures forall s, i :: Seen(trace, s, i) ==> Seen(trace + [a], s, i)
    ensures Seen(trace + [a], a.frag.frameSeq, a.frag.fragIndex)
  {
    assert (trace + [a])[|trace|] == a;
    forall s, i | Seen(trace, s, i)
      ensures Seen(trace + [a], s, i)
    {
      var k :| 0 <= k < |trace| && trace[k].frag.frameSeq == s && trace[k].frag.fragIndex == i;
      assert (trace + [a])[k] == trace[k];
    }
  }

  lemma {:induction false} BackedMore(plan: seq<Plan>, trace: seq<Arrival>, a: Arrival, m: Model)
    requires Backed(plan, trace, m)
    ensures Backed(plan, trace + [a], m)
  {
    hide Seen;
    SeenMore(trace, a);
  }

  lemma {:induction false} EntryStaysBacked(plan: seq<Plan>, trace: seq<Arrival>, m: Model, a: Arrival)
    requires Backed(plan, trace, m) && Conforms(plan, a.frag)
    ensures EntryBacked(plan, trace + [a], a.frag.frameSeq, EntryWith(m, a.frag))
  {
    hide Seen;
    SeenMore(trace, a);
  }

  /** Pigeonhole: a full entry whose indices are all in range holds every index. */
  lemma {:induction false} FullIsWhole(plan: seq<Plan>, trace: seq<Arrival>, s: u32, e: Incomplete)
    requires EntryBacked(plan, trace, s, e) && Full(e)
    ensures Whole(plan, trace, s, e.keyframe)
  {
    hide Seen;
    AllIndices(e.have, e.need);
  }

  lemma {:induction false} StepBacked(plan: seq<Plan>, trace: seq<Arrival>, m: Model, a: Arrival)
    requires Backed(plan, trace, m) && Conforms(plan, a.frag)
    ensures Backed(plan, trace + [a], Step(m, a))
  {
    hide Seen, Step, Full, EntryBacked, Whole, Admit;
    var m' := Step(m, a);
    BackedMore(plan, trace, a, m);
    EntryStaysBacked(plan, trace, m, a);
    StepWindow(m, a);
    if m'.newestComplete != m.newestComplete {
      FullIsWhole(plan, trace + [a], a.frag.frameSeq, EntryWith(m, a.frag));
    }
  }

  /** A frame is delivered only once every one of its fragments has arrived, and with the flag it was sent with. */
  lemma {:induction false} DeliveredIsWhole(plan: seq<Plan>, trace: seq<Arrival>)
    requires AllConform(plan, trace)
    ensures Backed(plan, trace, Run(trace))
  {
    hide Step, Conforms, EntryBacked, Whole;
    if trace != [] {
      var init, a := trace[..|trace| - 1], trace[|trace| - 1];
      DeliveredIsWhole(plan, init);
      StepBacked(plan, init, Run(init), a);
      assert init + [a] == trace;
    }
  }
}
