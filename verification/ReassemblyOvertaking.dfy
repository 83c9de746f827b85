/**
 How far a frame may be overtaken. A frame completes exactly when its own fragments would complete it and, up to there,
 fragments of at most one newer frame have arrived and have not completed that one.
 */
module ReassemblyOvertaking {
  import opened Basics
  import opened Reassembly
  import opened ReassemblyRuns
  import opened ReassemblySafety
  import opened ReassemblyEvidence
  import opened ReassemblyRecovery
  import opened ReassemblyEntries

  // ---------------------------------------------------------------- what the window makes of them

  ghost predicate Completed(m: Model, n: u32) {
    n in m.fates && (m.fates[n] == Delivered || m.fates[n] == Discarded)
  }

  ghost predicate Shown(m: Model, n: u32) {
    exists t, keyframe :: Deliver(t, n, keyframe) in m.events
  }

  ghost predicate Decoded(m: Model, n: u32) {
    exists t :: Deliver(t, n, true) in m.events
  }

  ghost predicate Waiting(m: Model, n: u32) {
    !Completed(m, n) && !Shown(m, n)
  }

  /** Completed, and decoded if it is a keyframe. */
  ghost predicate Through(m: Model, e: Option<Incomplete>, n: u32) {
    Completed(m, n) && e.Some? && (e.value.keyframe ==> Decoded(m, n))
  }

  ghost predicate Agrees(w: map<u32, Incomplete>, trace: seq<Arrival>, k: u32) {
    (k in w <==> EntryOf(trace, k).Some?) && (k in w ==> w[k] == EntryOf(trace, k).value)
  }

  /** The window holds what the fragments say of the one newer frame and, until it completes, of frame `n`. */
  ghost predicate Clear(m: Model, trace: seq<Arrival>, n: u32) {
    && |m.incomplete| <= WINDOW_FRAMES && m.newestComplete <= n
    && (forall k: u32 :: n < k ==> Agrees(m.incomplete, trace, k))
    && if Finished(trace, n) then
         && m.newestComplete == n && Through(m, EntryOf(trace, n), n) && (forall k :: k in m.incomplete ==> n < k)
         && (EntryOf(trace, n).value.keyframe ==> m.lastDecoded == Some(n))
       else
         m.newestComplete < n && Waiting(m, n) && Agrees(m.incomplete, trace, n)
  }

  /** Frame `n` can no longer enter: something newer has completed, or both places are taken by newer frames. */
  ghost predicate Barred(m: Model, n: u32) {
    && n !in m.incomplete && Waiting(m, n)
    && (m.newestComplete > n || (|m.incomplete| == WINDOW_FRAMES && forall k :: k in m.incomplete ==> n < k))
  }

  ghost predicate Track(m: Model, trace: seq<Arrival>, n: u32) {
    if Undisturbed(trace, n) then Clear(m, trace, n)
    else if Made(trace, n) then Through(m, EntryOf(trace, n), n)
    else Barred(m, n)
  }

  // ---------------------------------------------------------------- one arrival

  lemma {:induction false} GateFates(m: Model, t: int, s: u32, keyframe: bool)
    ensures var m' := Gate(m, t, s, keyframe);
      && (forall k :: k != s ==> (k in m'.fates <==> k in m.fates) && (k in m.fates ==> m'.fates[k] == m.fates[k]))
      && Completed(m', s)
  {
  }

  lemma {:induction false} AdmitFates(m: Model, f: Fragment)
    requires Admit(m, f).Some?
    ensures var m1 := Admit(m, f).value;
      forall k :: k in m1.fates ==> (k in m.fates && m1.fates[k] == m.fates[k]) || m1.fates[k] == Evicted
  {
  }

  lemma {:induction false} StaleFates(m: Model, s: u32)
    ensures var m' := Complete(m, s);
      forall k :: k in m'.fates ==> (k in m.fates && m'.fates[k] == m.fates[k]) || m'.fates[k] == Superseded
  {
  }

  /** Only the arriving frame can complete, and it does so exactly when it raises the newest one. */
  lemma {:induction false} FateOf(m: Model, a: Arrival, n: u32)
    requires Inv(m)
    ensures var m' := Step(m, a);
      Completed(m', n) <==> Completed(m, n) || (n == a.frag.frameSeq && m'.newestComplete != m.newestComplete)
  {
    hide Admit, Complete, Gate, Full, Inv;
    StepExtends(m, a);
    var r, s := Admit(m, a.frag), a.frag.frameSeq;
    if r.Some? {
      AdmitSameLog(m, a.frag);
      AdmitFates(m, a.frag);
      var m2 := Fill(r.value, a.frag);
      if Full(m2.incomplete[s]) {
        StaleFates(m2, s);
        CompleteSameLog(m2, s);
        GateFates(Complete(m2, s), a.t, s, m2.incomplete[s].keyframe);
        GateOutcome(Complete(m2, s), a, m2.incomplete[s].keyframe);
      }
    }
  }

  lemma {:induction false} ShownNext(m: Model, a: Arrival, n: u32)
    requires Inv(m)
    ensures var m' := Step(m, a);
      n != a.frag.frameSeq || m'.newestComplete == m.newestComplete ==> (Shown(m', n) <==> Shown(m, n))
    ensures Decoded(m, n) ==> Decoded(Step(m, a), n)
  {
    hide Step, Admit, Full, Inv;
    StepWindow(m, a);
    StepExtends(m, a);
  }

  lemma {:induction false} ThroughNext(m: Model, trace: seq<Arrival>, a: Arrival, n: u32)
    requires Inv(m) && Through(m, EntryOf(trace, n), n)
    ensures Through(Step(m, a), EntryOf(trace + [a], n), n)
  {
    hide Step, Inv, EntryOf, Completed, Decoded;
    FateOf(m, a, n);
    ShownNext(m, a, n);
    FinishedNext(trace, a, n);
  }

  lemma {:induction false} WaitingNext(m: Model, a: Arrival, n: u32)
    requires Inv(m) && (n != a.frag.frameSeq || Step(m, a).newestComplete == m.newestComplete)
    ensures Waiting(m, n) <==> Waiting(Step(m, a), n)
  {
    hide Step, Inv, Completed, Shown;
    FateOf(m, a, n);
    ShownNext(m, a, n);
  }

  /** The window goes on agreeing about another frame, unless that is thrown out. */
  lemma {:induction false} AgreesOn(m: Model, trace: seq<Arrival>, a: Arrival, k: u32)
    requires Agrees(m.incomplete, trace, k) && k != a.frag.frameSeq
    requires k in m.incomplete ==> k in Step(m, a).incomplete
    ensures Agrees(Step(m, a).incomplete, trace + [a], k)
  {
    hide Step, Admit, Full, Gated, EntryOf;
    StepWindow(m, a);
    EntryNext(trace, a, k);
  }

  /** An older fragment throws no newer frame out. */
  lemma {:induction false} AgreesOnNewer(m: Model, trace: seq<Arrival>, a: Arrival, k: u32)
    requires Inv(m) && Agrees(m.incomplete, trace, k) && a.frag.frameSeq < k
    ensures Agrees(Step(m, a).incomplete, trace + [a], k)
  {
    hide Step, Inv, EntryOf;
    WindowOf(m);
    if k in m.incomplete {
      StepRetains(m, a, k);
    }
    AgreesOn(m, trace, a, k);
  }

  /** The entry of the arriving frame: it stays in the window unless it is full, and then the frame completes. */
  lemma {:induction false} AgreesOnOwn(m: Model, trace: seq<Arrival>, a: Arrival)
    requires Agrees(m.incomplete, trace, a.frag.frameSeq) && !Finished(trace, a.frag.frameSeq) && Admit(m, a.frag).Some?
    ensures var s, m' := a.frag.frameSeq, Step(m, a);
      && EntryOf(trace + [a], s) == Some(EntryWith(m, a.frag))
      && if Finished(trace + [a], s) then
           m.newestComplete < m'.newestComplete == s && Gated(m, m', a, EntryWith(m, a.frag).keyframe)
         else
           m'.newestComplete == m.newestComplete && m'.lastDecoded == m.lastDecoded && Agrees(m'.incomplete, trace + [a], s)
  {
    hide Step, Admit, Full, Gated, Finished;
    EntryNext(trace, a, a.frag.frameSeq);
    FinishedNext(trace, a, a.frag.frameSeq);
    StepWindow(m, a);
  }

  lemma {:induction false} WindowOf(m: Model)
    requires Inv(m)
    ensures |m.incomplete| <= WINDOW_FRAMES && forall k :: k in m.incomplete ==> m.newestComplete < k
  {
  }

  /** Of two keys, one is not the given one. */
  lemma {:induction false} OtherKey(w: map<u32, Incomplete>, n: u32)
    requires |w| == WINDOW_FRAMES && n in w
    ensures exists k :: k in w && k != n
  {
    assert |w.Keys| == |w|;
    assert |w.Keys - {n}| == WINDOW_FRAMES - 1;
    var k :| k in w.Keys - {n};
  }

  /** A window with at most one newer frame has room for the fragment. */
  lemma {:induction false} HasRoom(m: Model, f: Fragment)
    requires |m.incomplete| <= WINDOW_FRAMES && m.newestComplete < f.frameSeq
    requires forall j, k :: j in m.incomplete && k in m.incomplete && f.frameSeq < j && f.frameSeq < k ==> j == k
    ensures Admit(m, f).Some?
  {
    if f.frameSeq !in m.incomplete && |m.incomplete| == WINDOW_FRAMES {
      var o := Oldest(m.incomplete);
      OtherKey(m.incomplete, o);
      var k :| k in m.incomplete && k != o;
    }
  }

  /** Beside older frames only, frame `n` is not the one evicted for a newer frame. */
  lemma {:induction false} AdmitSpares(m: Model, f: Fragment, n: u32)
    requires n in m.incomplete && |m.incomplete| <= WINDOW_FRAMES && Admit(m, f).Some?
    requires forall k :: k in m.incomplete ==> k <= n || k == f.frameSeq
    ensures n in Admit(m, f).value.incomplete
  {
    if f.frameSeq !in m.incomplete && |m.incomplete| == WINDOW_FRAMES {
      OtherKey(m.incomplete, n);
    }
  }

  lemma {:induction false} FillSpares(m: Model, a: Arrival, n: u32)
    requires n != a.frag.frameSeq && Admit(m, a.frag).Some? && n in Admit(m, a.frag).value.incomplete
    requires !Full(EntryWith(m, a.frag))
    ensures n in Step(m, a).incomplete
  {
    hide Admit, Full, Complete, Gate;
    AdmitWindow(m, a.frag);
  }

  lemma {:induction false} OlderFragment(m: Model, trace: seq<Arrival>, a: Arrival, n: u32)
    requires Inv(m) && Inv(Step(m, a)) && Clear(m, trace, n) && a.frag.frameSeq < n
    ensures Clear(Step(m, a), trace + [a], n)
  {
    hide Step, Admit, Full, Inv, EntryOf, Reached, Agrees, Through, Waiting;
    WindowOf(m);
    WindowOf(Step(m, a));
    forall k: u32 | n <= k && Agrees(m.incomplete, trace, k)
      ensures Agrees(Step(m, a).incomplete, trace + [a], k)
    {
      AgreesOnNewer(m, trace, a, k);
    }
    FinishedNext(trace, a, n);
    WaitingNext(m, a, n);
    OlderOutcome(m, a);
    if Finished(trace, n) {
      StaleStep(m, a);
      CountedOnly(m);
      ThroughNext(m, trace, a, n);
    }
  }

  lemma {:induction false} OlderOutcome(m: Model, a: Arrival)
    ensures var m' := Step(m, a);
      m'.newestComplete == m.newestComplete || m'.newestComplete == a.frag.frameSeq
  {
    hide Step, Admit, Full, Gated;
    StepWindow(m, a);
  }

  lemma {:induction false} CountedOnly(m: Model)
    ensures var m' := CountStale(m);
      m'.incomplete == m.incomplete && m'.newestComplete == m.newestComplete && m'.lastDecoded == m.lastDecoded
  {
  }

  lemma {:induction false} OwnFragmentArrives(m: Model, trace: seq<Arrival>, a: Arrival, n: u32)
    requires Inv(m) && Inv(Step(m, a)) && Clear(m, trace, n) && Undisturbed(trace, n) && a.frag.frameSeq == n
    ensures Clear(Step(m, a), trace + [a], n)
  {
    hide Step, Admit, Full, Gated, Inv, EntryOf, Finished, Agrees, Through, Waiting, EntryWith, Undisturbed;
    WindowOf(m);
    WindowOf(Step(m, a));
    forall k: u32 | n < k
      ensures Agrees(Step(m, a).incomplete, trace + [a], k)
    {
      AgreesOnNewer(m, trace, a, k);
    }
    FinishedNext(trace, a, n);
    if Finished(trace, n) {
      StaleStep(m, a);
      CountedOnly(m);
      ThroughNext(m, trace, a, n);
    } else {
      OneNewer(m, trace, n);
      HasRoom(m, a.frag);
      AgreesOnOwn(m, trace, a);
      if Finished(trace + [a], n) {
        GoesThrough(m, trace, a);
      } else {
        WaitingNext(m, a, n);
      }
    }
  }

  lemma {:induction false} GoesThrough(m: Model, trace: seq<Arrival>, a: Arrival)
    requires Inv(m) && EntryOf(trace + [a], a.frag.frameSeq) == Some(EntryWith(m, a.frag))
    requires Step(m, a).newestComplete != m.newestComplete && Gated(m, Step(m, a), a, EntryWith(m, a.frag).keyframe)
    ensures Through(Step(m, a), EntryOf(trace + [a], a.frag.frameSeq), a.frag.frameSeq)
    ensures EntryWith(m, a.frag).keyframe ==> Step(m, a).lastDecoded == Some(a.frag.frameSeq)
  {
    hide Step, Inv, Gated, EntryWith, EntryOf, Completed, Decoded;
    FateOf(m, a, a.frag.frameSeq);
    if EntryWith(m, a.frag).keyframe {
      KeyDecoded(m, Step(m, a), a, true);
    }
  }

  lemma {:induction false} KeyDecoded(m: Model, m': Model, a: Arrival, keyframe: bool)
    requires Gated(m, m', a, keyframe) && keyframe
    ensures Decoded(m', a.frag.frameSeq) && m'.lastDecoded == Some(a.frag.frameSeq)
  {
    assert m'.events[|m'.events| - 1] == Deliver(a.t, a.frag.frameSeq, true);
  }

  /** Undisturbed, the window has at most one newer frame, and that is not finished. */
  lemma {:induction false} OneNewer(m: Model, trace: seq<Arrival>, n: u32)
    requires Undisturbed(trace, n) && forall k: u32 :: n < k ==> Agrees(m.incomplete, trace, k)
    ensures forall j, k :: j in m.incomplete && k in m.incomplete && n < j && n < k ==> j == k
    ensures forall k: u32 :: n < k ==> !Finished(trace, k)
  {
    hide EntryOf, Finished;
    forall k | k in m.incomplete && n < k
      ensures EntryOf(trace, k).Some?
    {
      assert Agrees(m.incomplete, trace, k);
    }
  }

  /** When the newer frame has arrived and nothing is disturbed, it is the only one. */
  lemma {:induction false} OnlyNewer(m: Model, trace: seq<Arrival>, a: Arrival, n: u32)
    requires Undisturbed(trace + [a], n) && n < a.frag.frameSeq && forall k: u32 :: n < k ==> Agrees(m.incomplete, trace, k)
    ensures forall k :: k in m.incomplete ==> k <= n || k == a.frag.frameSeq
    ensures !Finished(trace + [a], a.frag.frameSeq)
  {
    hide EntryOf, Finished;
    FinishedNext(trace, a, a.frag.frameSeq);
    forall k | k in m.incomplete && n < k
      ensures k == a.frag.frameSeq
    {
      assert Agrees(m.incomplete, trace, k);
      FinishedNext(trace, a, k);
    }
  }

  lemma {:induction false} NewerFragmentArrives(m: Model, trace: seq<Arrival>, a: Arrival, n: u32)
    requires Inv(m) && Inv(Step(m, a)) && Clear(m, trace, n) && Undisturbed(trace + [a], n) && n < a.frag.frameSeq
    ensures Clear(Step(m, a), trace + [a], n)
  {
    hide Step, Admit, Full, Gated, Inv, EntryOf, Finished, Agrees, Through, Waiting, EntryWith, Undisturbed;
    var s := a.frag.frameSeq;
    WindowOf(m);
    WindowOf(Step(m, a));
    OnlyNewer(m, trace, a, n);
    FinishedNext(trace, a, s);
    FinishedNext(trace, a, n);
    SameFinished(trace, trace + [a], n);
    HasRoom(m, a.frag);
    AgreesOnOwn(m, trace, a);
    forall k: u32 | n < k && k != s
      ensures Agrees(Step(m, a).incomplete, trace + [a], k)
    {
      AgreesOn(m, trace, a, k);
    }
    WaitingNext(m, a, n);
    if Finished(trace, n) {
      ThroughNext(m, trace, a, n);
      OnlyOthersLeave(m, a);
    } else {
      if n in m.incomplete {
        AdmitSpares(m, a.frag, n);
        FillSpares(m, a, n);
      }
      AgreesOn(m, trace, a, n);
    }
  }

  lemma {:induction false} OnlyOthersLeave(m: Model, a: Arrival)
    ensures forall k :: k in Step(m, a).incomplete ==> k in m.incomplete || k == a.frag.frameSeq
  {
    hide Step, Admit, Full, Gated;
    StepWindow(m, a);
  }

  // ---------------------------------------------------------------- being overtaken for good

  lemma {:induction false} TwoKeys(w: map<u32, Incomplete>, n: u32, q: u32)
    requires |w| <= WINDOW_FRAMES && n in w && q in w && n != q
    ensures |w| == WINDOW_FRAMES && w.Keys == {n, q}
  {
    assert |w.Keys| == |w|;
    SmallerSubset({n, q}, w.Keys);
    if w.Keys != {n, q} {
      var k :| k in w.Keys && k !in {n, q};
      SmallerSubset({n, q, k}, w.Keys);
    }
  }

  /** A second newer frame opens: nothing at or below `n` is left. */
  lemma {:induction false} SecondNewerOpens(m: Model, f: Fragment, n: u32, q: u32)
    requires |m.incomplete| <= WINDOW_FRAMES && m.newestComplete <= n < f.frameSeq && f.frameSeq !in m.incomplete
    requires q in m.incomplete && n < q && forall k :: k in m.incomplete ==> k <= n || k == q
    ensures Admit(m, f).Some? && Admit(m, f).value.incomplete.Keys == {q, f.frameSeq}
  {
    if |m.incomplete| == WINDOW_FRAMES {
      OtherKey(m.incomplete, q);
      var k :| k in m.incomplete && k != q;
      TwoKeys(m.incomplete, k, q);
      assert Oldest(m.incomplete) == k;
    } else {
      assert m.incomplete.Keys == {q} by { OneKey(m.incomplete, q); }
    }
  }

  lemma {:induction false} OneKey(w: map<u32, Incomplete>, q: u32)
    requires |w| < WINDOW_FRAMES && q in w
    ensures w.Keys == {q}
  {
    assert |w.Keys| == |w|;
    if w.Keys != {q} {
      var k :| k in w.Keys && k != q;
      TwoKeys(w, k, q);
    }
  }

  /** The arrival that disturbs frame `n`, before it is finished, bars it. */
  lemma {:induction false} Disturbs(m: Model, trace: seq<Arrival>, a: Arrival, n: u32)
    requires Inv(m) && Inv(Step(m, a)) && Clear(m, trace, n) && Undisturbed(trace, n) && !Finished(trace, n)
    requires !Undisturbed(trace + [a], n)
    ensures Barred(Step(m, a), n)
  {
    hide Step, Admit, Full, Gated, Inv, EntryOf, Finished, Agrees, Waiting, EntryWith, Undisturbed;
    var s, m' := a.frag.frameSeq, Step(m, a);
    UndisturbedNext(trace, a, n);
    WaitingNext(m, a, n);
    WindowOf(m);
    WindowOf(m');
    OneNewer(m, trace, n);
    if q: u32 :| n < q && q in m.incomplete && q != s {
      NotOpen(m, trace, a, n, q);
      SecondNewerOpens(m, a.frag, n, q);
      AgreesOnOwn(m, trace, a);
      if m'.newestComplete == m.newestComplete {
        StaysAdmitted(m, a);
        TwoLeft(m', q, s);
      }
    } else {
      HasRoom(m, a.frag);
      LastStraw(m, trace, a, n);
      AgreesOnOwn(m, trace, a);
    }
  }

  lemma {:induction false} NotOpen(m: Model, trace: seq<Arrival>, a: Arrival, n: u32, q: u32)
    requires n < q && q in m.incomplete && q != a.frag.frameSeq && n < a.frag.frameSeq
    requires forall j, k :: j in m.incomplete && k in m.incomplete && n < j && n < k ==> j == k
    ensures a.frag.frameSeq !in m.incomplete && forall k :: k in m.incomplete ==> k <= n || k == q
  {
  }

  lemma {:induction false} TwoLeft(m: Model, q: u32, s: u32)
    requires m.incomplete.Keys == {q, s} && q != s
    ensures |m.incomplete| == WINDOW_FRAMES
  {
    assert |m.incomplete.Keys| == |m.incomplete|;
  }

  /** With no second newer frame, the disturbance is that the newer one is finished. */
  lemma {:induction false} LastStraw(m: Model, trace: seq<Arrival>, a: Arrival, n: u32)
    requires Undisturbed(trace, n) && !Undisturbed(trace + [a], n) && n < a.frag.frameSeq
    requires forall k: u32 :: n < k ==> Agrees(m.incomplete, trace, k)
    requires forall q: u32 :: n < q && q in m.incomplete ==> q == a.frag.frameSeq
    ensures Finished(trace + [a], a.frag.frameSeq)
  {
    hide Finished, EntryOf;
    forall q: u32
      ensures a.frag.frameSeq != q ==> EntryOf(trace + [a], q) == EntryOf(trace, q)
      ensures a.frag.frameSeq != q ==> (Finished(trace + [a], q) <==> Finished(trace, q))
      ensures n < q && EntryOf(trace, q).Some? ==> q == a.frag.frameSeq
    {
      FinishedNext(trace, a, q);
      SameFinished(trace, trace + [a], q);
      assert n < q ==> Agrees(m.incomplete, trace, q);
    }
  }

  lemma {:induction false} StaysAdmitted(m: Model, a: Arrival)
    requires Admit(m, a.frag).Some? && Step(m, a).newestComplete == m.newestComplete
    ensures Step(m, a).incomplete.Keys == Admit(m, a.frag).value.incomplete.Keys
    ensures |Step(m, a).incomplete| == |Admit(m, a.frag).value.incomplete|
  {
    StepWindow(m, a);
    hide Admit, Full, Complete, Gate;
    AdmitWindow(m, a.frag);
    FillKeeps(Admit(m, a.frag).value, a.frag);
  }

  lemma {:induction false} BarredAdmits(m: Model, f: Fragment, n: u32)
    requires |m.incomplete| == WINDOW_FRAMES && (forall k :: k in m.incomplete ==> n < k) && Admit(m, f).Some?
    ensures var w := Admit(m, f).value.incomplete;
      n < f.frameSeq && |w| == WINDOW_FRAMES && forall k :: k in w ==> n < k
  {
    if f.frameSeq !in m.incomplete {
      var o := Oldest(m.incomplete);
      assert |m.incomplete - {o}| == 1 by {
        assert (m.incomplete - {o}).Keys == m.incomplete.Keys - {o};
        assert |(m.incomplete - {o}).Keys| == |m.incomplete - {o}| && |m.incomplete.Keys| == |m.incomplete|;
      }
    }
  }

  lemma {:induction false} BarredNext(m: Model, a: Arrival, n: u32)
    requires Inv(m) && Inv(Step(m, a)) && Barred(m, n)
    ensures Barred(Step(m, a), n)
  {
    hide Step, Admit, Full, Gated, LogOk, Ledger, CountInv, Waiting, EntryWith;
    StepWindow(m, a);
    StepExtends(m, a);
    if a.frag.frameSeq <= m.newestComplete {
      StaleStep(m, a);
      CountedOnly(m);
      WaitingNext(m, a, n);
    } else if Admit(m, a.frag).None? {
      NotAdmitted(m, a);
      CountedOnly(m);
      WaitingNext(m, a, n);
    } else {
      if m.newestComplete <= n {
        BarredAdmits(m, a.frag, n);
      }
      WaitingNext(m, a, n);
      if Step(m, a).newestComplete == m.newestComplete {
        StaysAdmitted(m, a);
      }
    }
  }

  lemma {:induction false} NotAdmitted(m: Model, a: Arrival)
    requires Admit(m, a.frag).None?
    ensures Step(m, a) == CountStale(m)
  {
  }

  // ---------------------------------------------------------------- whole runs

  lemma {:induction false} TrackNext(m: Model, trace: seq<Arrival>, a: Arrival, n: u32)
    requires Inv(m) && Inv(Step(m, a)) && Track(m, trace, n)
    ensures Track(Step(m, a), trace + [a], n)
  {
    hide Step, Inv, Finished, Undisturbed, Made, Through;
    UndisturbedNext(trace, a, n);
    MadeNext(trace, a, n);
    MadeIsFinished(trace, n);
    if Undisturbed(trace + [a], n) {
      if a.frag.frameSeq < n {
        OlderFragment(m, trace, a, n);
      } else if a.frag.frameSeq == n {
        OwnFragmentArrives(m, trace, a, n);
      } else {
        NewerFragmentArrives(m, trace, a, n);
      }
    } else if !Undisturbed(trace, n) {
      if Made(trace, n) {
        ThroughNext(m, trace, a, n);
      } else {
        BarredNext(m, a, n);
      }
    } else if Finished(trace, n) {
      MadeNow(trace, n);
      ThroughNext(m, trace, a, n);
    } else {
      Disturbs(m, trace, a, n);
    }
  }

  lemma {:induction false} MadeNow(trace: seq<Arrival>, n: u32)
    requires Finished(trace, n) && Undisturbed(trace, n)
    ensures Made(trace, n)
  {
    assert trace[..|trace|] == trace;
  }

  lemma {:induction false} RunTracks(trace: seq<Arrival>, n: u32)
    ensures Track(Run(trace), trace, n)
  {
    hide Step, Inv;
    if trace == [] {
      FreshTracks(n);
    } else {
      var init, a := trace[..|trace| - 1], trace[|trace| - 1];
      assert init + [a] == trace;
      RunTracks(init, n);
      Reachable(init);
      Reachable(trace);
      TrackNext(Run(init), init, a, n);
    }
  }

  lemma {:induction false} FreshTracks(n: u32)
    ensures Track(Run([]), [], n)
  {
  }

  /**
   For every trace and every frame: the frame completes if and only if there is a moment at which its own fragments
   finish it and, up to then, at most one newer frame has arrived and has not been finished.
   */
  lemma {:induction false} CompletesIff(trace: seq<Arrival>, n: u32)
    ensures Completed(Run(trace), n) <==>
      exists t :: 0 <= t <= |trace| && Finished(trace[..t], n) && Undisturbed(trace[..t], n)
  {
    hide Run, Finished, Undisturbed;
    RunTracks(trace, n);
    MadeIsFinished(trace, n);
    if Undisturbed(trace, n) && Finished(trace, n) {
      MadeNow(trace, n);
    }
    assert Made(trace, n) <==> exists t :: 0 <= t <= |trace| && Finished(trace[..t], n) && Undisturbed(trace[..t], n);
  }

  /**
   A keyframe, as it was sent, is decoded if and only if its last missing fragment comes in while at most one newer
   frame has arrived, and that one is not finished.
   */
  lemma {:induction false} KeyframeArrivesIff(trace: seq<Arrival>, n: u32, count: nat)
    requires AsSent(trace, n, Plan(count, true))
    ensures (exists u :: Deliver(u, n, true) in Run(trace).events) <==>
      exists t :: 0 <= t <= |trace| && Covers(trace[..t], n, Plan(count, true)) && Undisturbed(trace[..t], n)
  {
    hide Run, Finished, Undisturbed, Covers, AsSent, EntryOf, Completed;
    var p := Plan(count, true);
    RunTracks(trace, n);
    EntryIsKey(trace, n, p);
    MadeIsFinished(trace, n);
    if Undisturbed(trace, n) && Finished(trace, n) {
      MadeNow(trace, n);
    }
    assert Decoded(Run(trace), n) ==> Shown(Run(trace), n);
    assert Decoded(Run(trace), n) <==> Made(trace, n);
    forall t | 0 <= t <= |trace|
      ensures Finished(trace[..t], n) <==> Covers(trace[..t], n, p)
    {
      SentPrefix(trace, t, n, p);
      FinishedIsCovered(trace[..t], n, p);
    }
  }

  // ---------------------------------------------------------------- two instances

  /** A newer frame `q` of `count` fragments, one of which never arrives. */
  datatype Newer = Newer(q: u32, count: u16, miss: nat)

  ghost predicate NewerFragment(f: Fragment, x: Newer) {
    f.frameSeq == x.q && f.fragCount == x.count && f.fragIndex < x.count && f.fragIndex != x.miss
  }

  /** Fragments of frame `n`, of anything older, and of the unfinished newer frame, in any order. */
  ghost predicate Overtaken(trace: seq<Arrival>, n: u32, p: Plan, x: Newer) {
    && n < x.q && x.miss < x.count
    && forall i :: 0 <= i < |trace| ==>
        var f := trace[i].frag;
        f.frameSeq < n || OwnFragment(f, n, p) || NewerFragment(f, x)
  }

  lemma {:induction false} OvertakenEntries(trace: seq<Arrival>, n: u32, p: Plan, x: Newer)
    requires Overtaken(trace, n, p, x)
    ensures AsSent(trace, n, p)
    ensures forall q: u32 :: n < q && q != x.q ==> EntryOf(trace, q).None?
    ensures EntryOf(trace, x.q).Some? ==>
      var e := EntryOf(trace, x.q).value;
      e.need == x.count && forall i :: i in e.have ==> i < x.count && i != x.miss
  {
    if trace != [] {
      var init, a := trace[..|trace| - 1], trace[|trace| - 1];
      assert init + [a] == trace;
      OvertakenEntries(init, n, p, x);
      forall q: u32 | n < q
        ensures EntryOf(trace, q) == if a.frag.frameSeq != q then EntryOf(init, q) else EntryOf(trace, q)
      {
        EntryNext(init, a, q);
      }
      EntryNext(init, a, x.q);
    }
  }

  lemma {:induction false} NeverReached(e: Incomplete, x: Newer)
    requires x.miss < x.count && e.need == x.count && forall i :: i in e.have ==> i < x.count && i != x.miss
    ensures !Reached(e)
  {
    var rest := Below(x.count) - {x.miss};
    var have: set<int> := e.have;
    SmallerSubset(have, rest);
  }

  lemma {:induction false} OvertakenIsUndisturbed(trace: seq<Arrival>, n: u32, p: Plan, x: Newer)
    requires Overtaken(trace, n, p, x)
    ensures Undisturbed(trace, n) && AsSent(trace, n, p)
  {
    hide EntryOf, Reached;
    OvertakenEntries(trace, n, p, x);
    if EntryOf(trace, x.q).Some? {
      NeverReached(EntryOf(trace, x.q).value, x);
    }
  }

  /**
   A keyframe whose fragments all arrive is decoded, whatever older fragments and whatever fragments of one newer,
   unfinished frame come before, between and after them, in any order.
   */
  lemma {:induction false} OvertakenKeyframeRecovers(trace: seq<Arrival>, n: u32, count: nat, x: Newer)
    requires Overtaken(trace, n, Plan(count, true), x) && Covers(trace, n, Plan(count, true))
    ensures var m := Run(trace);
      && (exists t :: Deliver(t, n, true) in m.events)
      && m.lastDecoded == Some(n) && m.newestComplete == n && m.incomplete.Keys <= {x.q}
  {
    hide Run, Finished, Undisturbed, Covers, AsSent, EntryOf, Completed, Shown;
    var p := Plan(count, true);
    OvertakenIsUndisturbed(trace, n, p, x);
    OvertakenEntries(trace, n, p, x);
    FinishedIsCovered(trace, n, p);
    EntryIsKey(trace, n, p);
    RunTracks(trace, n);
    var w := Run(trace).incomplete;
    assert forall k :: k in w ==> n < k && Agrees(w, trace, k);
  }

  /** Two newer frames are too many: the second one to open evicts the frame, and an evicted frame never comes back. */
  lemma {:induction false} TwoNewerEvict(before: seq<Arrival>, a: Arrival, after: seq<Arrival>, n: u32, q: u32)
    requires n in Run(before).incomplete && q in Run(before).incomplete && n < q < a.frag.frameSeq
    ensures var m := Run(before + [a] + after);
      n in m.fates && m.fates[n] == Evicted && n !in m.incomplete
  {
    var m := Run(before);
    Reachable(before);
    RunPush(Init(), before, a);
    EvictedAtOnce(m, a, n, q);
    DeadStaysDead(before + [a], after, n);
  }

  lemma {:induction false} AdmitEvicts(m: Model, f: Fragment, n: u32, q: u32)
    requires |m.incomplete| == WINDOW_FRAMES && m.incomplete.Keys == {n, q} && n < q < f.frameSeq
    requires m.newestComplete < f.frameSeq
    ensures Admit(m, f).Some? && n in Admit(m, f).value.fates && Admit(m, f).value.fates[n] == Evicted
  {
  }

  lemma {:induction false} EvictedAtOnce(m: Model, a: Arrival, n: u32, q: u32)
    requires Inv(m) && n in m.incomplete && q in m.incomplete && n < q < a.frag.frameSeq
    ensures n in Step(m, a).fates && Step(m, a).fates[n] == Evicted
  {
    hide Admit, Gate, Complete, Ledger, LogOk, CountInv, Full;
    TwoKeys(m.incomplete, n, q);
    AdmitEvicts(m, a.frag, n, q);
    AdmitKeeps(m, a.frag);
    var m1 := Admit(m, a.frag).value;
    FillKeeps(m1, a.frag);
    DisjointSets(m1);
    var m2 := Fill(m1, a.frag);
    FinishExtends(m2, a.t, a.frag.frameSeq, m2.incomplete[a.frag.frameSeq].keyframe);
  }
}
