/** What every run of the reassembler keeps: gating of the event log, one fate per frame, conservation of frames. */
module ReassemblyRuns {
  import opened Basics
  import opened Reassembly

  // ---------------------------------------------------------------- reading the event log

  function LastDelivered(es: seq<Event>): Option<int> {
    if es == [] then None
    else
      match es[|es| - 1]
      case Deliver(_, s, _) => Some(s)
      case IdrRequest(_, _) => LastDelivered(es[..|es| - 1])
  }

  function LastRequest(es: seq<Event>): Option<int> {
    if es == [] then None
    else
      match es[|es| - 1]
      case Deliver(_, _, _) => LastRequest(es[..|es| - 1])
      case IdrRequest(t, _) => Some(t)
  }

  function Deliveries(es: seq<Event>): seq<Event> {
    if es == [] then []
    else Deliveries(es[..|es| - 1]) + if es[|es| - 1].Deliver? then [es[|es| - 1]] else []
  }

  function Requests(es: seq<Event>): seq<Event> {
    if es == [] then []
    else Requests(es[..|es| - 1]) + if es[|es| - 1].IdrRequest? then [es[|es| - 1]] else []
  }

  /** `e` may follow the log `before`: gating for deliveries; rate limit and `last_good` for requests. */
  predicate MayFollow(before: seq<Event>, e: Event) {
    match e
    case Deliver(_, s, keyframe) =>
      && (LastDelivered(before).Some? ==> LastDelivered(before).value < s)
      && (!keyframe ==> LastDelivered(before) == Some(s - 1))
    case IdrRequest(t, good) =>
      && (LastRequest(before).Some? ==> t - LastRequest(before).value >= IDR_INTERVAL_MS)
      && good == (if LastDelivered(before).Some? then LastDelivered(before).value else 0)
  }

  predicate WellFormedLog(es: seq<Event>) {
    es == [] || (WellFormedLog(es[..|es| - 1]) && MayFollow(es[..|es| - 1], es[|es| - 1]))
  }

  lemma {:induction false} Append(es: seq<Event>, e: Event)
    ensures LastDelivered(es + [e]) == if e.Deliver? then Some(e.frameSeq) else LastDelivered(es)
    ensures LastRequest(es + [e]) == if e.IdrRequest? then Some(e.t) else LastRequest(es)
    ensures Deliveries(es + [e]) == Deliveries(es) + if e.Deliver? then [e] else []
    ensures Requests(es + [e]) == Requests(es) + if e.IdrRequest? then [e] else []
    ensures WellFormedLog(es + [e]) == (WellFormedLog(es) && MayFollow(es, e))
  {
    assert (es + [e])[..|es|] == es;
  }

  // ---------------------------------------------------------------- the invariant

  ghost predicate WindowOk(window: map<u32, Incomplete>, newest: int) {
    && |window| <= WINDOW_FRAMES
    && -1 <= newest
    && forall s :: s in window ==> newest < s && !Full(window[s])
  }

  ghost predicate LogOk(events: seq<Event>, lastDecoded: Option<int>, idrLast: Option<int>) {
    && WellFormedLog(events)
    && lastDecoded == LastDelivered(events)
    && idrLast == LastRequest(events)
    && (lastDecoded.Some? ==> 0 <= lastDecoded.value < TWO_32)
  }

  /**
   Every admitted frame is either dead or in the window, never both, and a dead frame can never re-enter:
   rule 1 stops it, or the window is full of newer frames.
   */
  ghost predicate Ledger(admitted: seq<u32>, dead: set<u32>, window: set<u32>, newest: int) {
    && NoDuplicates(admitted)
    && (forall s :: s in admitted <==> s in dead || s in window)
    && (forall s :: s in dead ==> s !in window)
    && (forall d :: d in dead ==> d <= newest || (|window| == WINDOW_FRAMES && forall k :: k in window ==> d < k))
  }

  ghost function With(fates: map<u32, Fate>, fate: Fate): set<u32> {
    set s | s in fates && fates[s] == fate
  }

  /** The counters count the fates: gap discards, drops by eviction or cleanup, and deliveries. */
  ghost predicate CountInv(m: Model) {
    && |With(m.fates, Delivered)| == |Deliveries(m.events)|
    && |With(m.fates, Discarded)| == m.counters.discardedGap
    && |With(m.fates, Evicted)| + |With(m.fates, Superseded)| == m.counters.droppedIncomplete
  }

  lemma {:induction false} WithOneMoreOf(fates: map<u32, Fate>, s: u32, fate: Fate, f: Fate)
    requires s !in fates
    ensures |With(fates[s := fate], f)| == |With(fates, f)| + if f == fate then 1 else 0
  {
    WithInserted(fates, s, fate, f);
    NotWith(fates, s, f);
  }

  lemma {:induction false} NotWith(fates: map<u32, Fate>, s: u32, f: Fate)
    requires s !in fates
    ensures s !in With(fates, f)
  {
  }

  lemma {:induction false} WithInserted(fates: map<u32, Fate>, s: u32, fate: Fate, f: Fate)
    requires s !in fates
    ensures With(fates[s := fate], f) == With(fates, f) + if f == fate then {s} else {}
  {
    var w, w' := With(fates, f), With(fates[s := fate], f);
    forall k
      ensures k in w' <==> k in w || (f == fate && k == s)
    {
    }
  }

  lemma {:induction false} WithOneMore(fates: map<u32, Fate>, s: u32, fate: Fate)
    requires s !in fates
    ensures forall f :: |With(fates[s := fate], f)| == |With(fates, f)| + if f == fate then 1 else 0
  {
    hide With;
    forall f
      ensures |With(fates[s := fate], f)| == |With(fates, f)| + if f == fate then 1 else 0
    {
      WithOneMoreOf(fates, s, fate, f);
    }
  }

  lemma {:induction false} WithMarked(fates: map<u32, Fate>, stale: set<u32>)
    requires fates.Keys !! stale
    ensures forall f :: |With(fates + Marked(stale, Superseded), f)| == |With(fates, f)| + if f == Superseded then |stale| else 0
  {
    forall f
      ensures |With(fates + Marked(stale, Superseded), f)| == |With(fates, f)| + if f == Superseded then |stale| else 0
    {
      assert With(fates + Marked(stale, Superseded), f) == With(fates, f) + if f == Superseded then stale else {};
    }
  }

  lemma {:induction false} FatesPartition(fates: map<u32, Fate>)
    ensures |fates| == |With(fates, Delivered)| + |With(fates, Discarded)| + |With(fates, Evicted)| + |With(fates, Superseded)|
  {
    var d, c, e, p := With(fates, Delivered), With(fates, Discarded), With(fates, Evicted), With(fates, Superseded);
    DisjointFates(fates);
    assert |d + c| == |d| + |c| && |e + p| == |e| + |p|;
    assert |(d + c) + (e + p)| == |d + c| + |e + p|;
    assert |fates.Keys| == |fates|;
  }

  lemma {:induction false} DisjointFates(fates: map<u32, Fate>)
    ensures var d, c, e, p := With(fates, Delivered), With(fates, Discarded), With(fates, Evicted), With(fates, Superseded);
      d !! c && e !! p && d + c !! e + p && fates.Keys == (d + c) + (e + p)
  {
  }

  ghost predicate LogInv(m: Model) {
    && LogOk(m.events, m.lastDecoded, m.idrLast)
    && (m.lastDecoded.Some? ==> m.lastDecoded.value <= m.newestComplete)
  }

  ghost predicate Inv(m: Model) {
    && WindowOk(m.incomplete, m.newestComplete)
    && LogInv(m)
    && Ledger(m.admitted, m.fates.Keys, m.incomplete.Keys, m.newestComplete)
    && CountInv(m)
  }

  lemma {:induction false} LedgerOpen(admitted: seq<u32>, dead: set<u32>, window: set<u32>, newest: int, s: u32)
    requires Ledger(admitted, dead, window, newest)
    requires newest < s && s !in window && |window| < WINDOW_FRAMES
    ensures Ledger(admitted + [s], dead, window + {s}, newest)
  {
  }

  lemma {:induction false} LedgerEvict(admitted: seq<u32>, dead: set<u32>, window: set<u32>, newest: int, oldest: u32, s: u32)
    requires Ledger(admitted, dead, window, newest)
    requires newest < s && s !in window && |window| == WINDOW_FRAMES
    requires oldest in window && (forall k :: k in window ==> oldest <= k) && oldest < s
    ensures Ledger(admitted + [s], dead + {oldest}, window - {oldest} + {s}, newest)
    ensures |window - {oldest} + {s}| == WINDOW_FRAMES
  {
  }

  lemma {:induction false} LedgerLeave(admitted: seq<u32>, dead: set<u32>, window: set<u32>, newest: int, s: u32, stale: set<u32>)
    requires Ledger(admitted, dead, window, newest)
    requires newest < s && s in window && stale == set k | k in window && k < s
    ensures Ledger(admitted, dead + stale + {s}, window - {s} - stale, s)
  {
  }

  lemma {:induction false} OpenKeeps(m: Model, f: Fragment)
    requires m.newestComplete < f.frameSeq && f.frameSeq !in m.incomplete && |m.incomplete| < WINDOW_FRAMES
    requires Ledger(m.admitted, m.fates.Keys, m.incomplete.Keys, m.newestComplete)
    ensures var m' := Open(m, f);
      Ledger(m'.admitted, m'.fates.Keys, m'.incomplete.Keys, m'.newestComplete) && |m'.incomplete| <= WINDOW_FRAMES
  {
    hide Ledger;
    var m' := Open(m, f);
    assert |m.incomplete.Keys| == |m.incomplete|;
    LedgerOpen(m.admitted, m.fates.Keys, m.incomplete.Keys, m.newestComplete, f.frameSeq);
    assert m'.incomplete.Keys == m.incomplete.Keys + {f.frameSeq};
  }

  lemma {:induction false} EvictAndOpenKeeps(m: Model, f: Fragment)
    requires m.newestComplete < f.frameSeq && f.frameSeq !in m.incomplete && |m.incomplete| == WINDOW_FRAMES
    requires Ledger(m.admitted, m.fates.Keys, m.incomplete.Keys, m.newestComplete)
    requires Oldest(m.incomplete) < f.frameSeq
    ensures var m' := Open(Evict(m, Oldest(m.incomplete)), f);
      Ledger(m'.admitted, m'.fates.Keys, m'.incomplete.Keys, m'.newestComplete) && |m'.incomplete| == WINDOW_FRAMES
  {
    hide Ledger;
    var oldest := Oldest(m.incomplete);
    var m' := Open(Evict(m, oldest), f);
    assert |m.incomplete.Keys| == |m.incomplete|;
    LedgerEvict(m.admitted, m.fates.Keys, m.incomplete.Keys, m.newestComplete, oldest, f.frameSeq);
    assert m'.incomplete.Keys == m.incomplete.Keys - {oldest} + {f.frameSeq};
    assert m'.fates.Keys == m.fates.Keys + {oldest};
  }

  lemma {:induction false} EvictCounts(m: Model, s: u32)
    requires Ledger(m.admitted, m.fates.Keys, m.incomplete.Keys, m.newestComplete) && CountInv(m) && s in m.incomplete
    ensures CountInv(Evict(m, s))
  {
    hide Ledger, With, Deliveries;
    DeadNotInWindow(m, s);
    WithOneMore(m.fates, s, Evicted);
  }

  lemma {:induction false} DeadNotInWindow(m: Model, s: u32)
    requires Ledger(m.admitted, m.fates.Keys, m.incomplete.Keys, m.newestComplete) && s in m.incomplete
    ensures s !in m.fates
  {
  }

  lemma {:induction false} AdmitKeeps(m: Model, f: Fragment)
    requires Inv(m) && Admit(m, f).Some?
    ensures var m1 := Admit(m, f).value;
      && LogInv(m1) && Ledger(m1.admitted, m1.fates.Keys, m1.incomplete.Keys, m1.newestComplete) && CountInv(m1)
      && |m1.incomplete| <= WINDOW_FRAMES && m1.newestComplete == m.newestComplete < f.frameSeq
      && (forall s :: s in m1.incomplete && s != f.frameSeq ==> s in m.incomplete && m1.incomplete[s] == m.incomplete[s])
      && (m1 == m || (f.frameSeq !in m.incomplete && m1.incomplete[f.frameSeq] == Incomplete(f.fragCount, {}, f.keyframe)))
  {
    hide Ledger, Oldest, WellFormedLog, LastDelivered, LastRequest, Deliveries, With;
    if f.frameSeq !in m.incomplete {
      if |m.incomplete| < WINDOW_FRAMES {
        OpenKeeps(m, f);
      } else {
        EvictAndOpenKeeps(m, f);
        EvictCounts(m, Oldest(m.incomplete));
      }
    }
  }

  lemma {:induction false} SmallerWindow(w: map<u32, Incomplete>, rest: map<u32, Incomplete>)
    requires rest.Keys <= w.Keys
    ensures |rest| <= |w|
  {
    SmallerSubset(rest.Keys, w.Keys);
    assert |rest.Keys| == |rest| && |w.Keys| == |w|;
  }

  lemma {:induction false} WithoutKeys(w: map<u32, Incomplete>, gone: set<u32>)
    ensures (w - gone).Keys == w.Keys - gone
  {
  }

  lemma {:induction false} StaleKeys(w: map<u32, Incomplete>, s: u32)
    ensures Stale(w - {s}, s) == set k | k in w.Keys && k < s
  {
    WithoutKeys(w, {s});
  }

  lemma {:induction false} MarkedKeys(fates: map<u32, Fate>, gone: set<u32>)
    ensures (fates + Marked(gone, Superseded)).Keys == fates.Keys + gone
  {
  }

  lemma {:induction false} RestIsNewer(w: map<u32, Incomplete>, s: u32)
    ensures var rest := w - {s} - Stale(w - {s}, s);
      |rest| <= |w| && forall k :: k in rest ==> k in w && s < k && rest[k] == w[k]
  {
    var stale := Stale(w - {s}, s);
    WithoutKeys(w, {s});
    WithoutKeys(w - {s}, stale);
    SmallerWindow(w, w - {s} - stale);
  }

  lemma {:induction false} CompleteKeepsWindow(m: Model, s: u32)
    requires s in m.incomplete && -1 <= m.newestComplete < s && |m.incomplete| <= WINDOW_FRAMES
    requires forall k :: k in m.incomplete && k != s ==> !Full(m.incomplete[k])
    ensures var m' := Complete(m, s); WindowOk(m'.incomplete, m'.newestComplete)
  {
    hide Marked, Full, Stale;
    RestIsNewer(m.incomplete, s);
  }

  lemma {:induction false} CompleteKeys(m: Model, s: u32)
    requires s in m.incomplete && m.newestComplete < s
    ensures var m', stale := Complete(m, s), set k | k in m.incomplete.Keys && k < s;
      && Stale(m.incomplete - {s}, s) == stale
      && m'.incomplete.Keys == m.incomplete.Keys - {s} - stale
      && m'.fates.Keys == m.fates.Keys + stale
  {
    hide Stale, Marked;
    StaleKeys(m.incomplete, s);
    var stale := set k | k in m.incomplete.Keys && k < s;
    WithoutKeys(m.incomplete, {s});
    WithoutKeys(m.incomplete - {s}, stale);
    MarkedKeys(m.fates, stale);
  }

  lemma {:induction false} CompleteKeepsLedger(m: Model, s: u32)
    requires s in m.incomplete && m.newestComplete < s
    requires Ledger(m.admitted, m.fates.Keys, m.incomplete.Keys, m.newestComplete)
    ensures var m' := Complete(m, s);
      s !in m'.fates && Ledger(m'.admitted, m'.fates.Keys + {s}, m'.incomplete.Keys, m'.newestComplete)
  {
    hide Ledger, Marked;
    CompleteKeys(m, s);
    DisjointSets(m);
    LedgerLeave(m.admitted, m.fates.Keys, m.incomplete.Keys, m.newestComplete, s, set k | k in m.incomplete.Keys && k < s);
  }

  lemma {:induction false} CompleteKeepsCount(m: Model, s: u32)
    requires CountInv(m) && s in m.incomplete && m.newestComplete < s
    requires m.fates.Keys !! m.incomplete.Keys
    ensures CountInv(Complete(m, s))
  {
    hide Deliveries, Marked, With;
    var stale := Stale(m.incomplete - {s}, s);
    assert stale <= m.incomplete.Keys;
    WithMarked(m.fates, stale);
  }

  lemma {:induction false} DisjointSets(m: Model)
    requires Ledger(m.admitted, m.fates.Keys, m.incomplete.Keys, m.newestComplete)
    ensures m.fates.Keys !! m.incomplete.Keys
  {
  }

  lemma {:induction false} DeliverKeeps(m: Model, t: int, s: u32, keyframe: bool)
    requires LogInv(m) && CountInv(m) && s !in m.fates && m.newestComplete == s
    requires if m.lastDecoded.Some? then m.lastDecoded.value < s && (keyframe || m.lastDecoded.value == s - 1) else keyframe
    ensures LogInv(DeliverFrame(m, t, s, keyframe)) && CountInv(DeliverFrame(m, t, s, keyframe))
  {
    hide WellFormedLog, LastDelivered, LastRequest, Deliveries, Requests, With;
    Append(m.events, Deliver(t, s, keyframe));
    WithOneMore(m.fates, s, Delivered);
  }

  lemma {:induction false} DiscardKeeps(m: Model, t: int, s: u32)
    requires LogInv(m) && CountInv(m) && s !in m.fates && m.newestComplete == s
    requires m.lastDecoded != Some(s - 1)
    ensures LogInv(Gate(m, t, s, false)) && CountInv(Gate(m, t, s, false))
  {
    hide WellFormedLog, LastDelivered, LastRequest, Deliveries, Requests, With;
    Append(m.events, IdrRequest(t, LastGood(m.lastDecoded)));
    WithOneMore(m.fates, s, Discarded);
  }

  lemma {:induction false} GateKeeps(m: Model, t: int, s: u32, keyframe: bool)
    requires WindowOk(m.incomplete, m.newestComplete) && LogInv(m) && CountInv(m) && s !in m.fates && m.newestComplete == s
    requires Ledger(m.admitted, m.fates.Keys + {s}, m.incomplete.Keys, m.newestComplete)
    requires m.lastDecoded.Some? ==> m.lastDecoded.value < s
    ensures Inv(Gate(m, t, s, keyframe))
  {
    hide Ledger, LogOk, WindowOk, CountInv, With;
    var m' := Gate(m, t, s, keyframe);
    assert m'.fates.Keys == m.fates.Keys + {s};
    if keyframe || m.lastDecoded == Some(s - 1) {
      DeliverKeeps(m, t, s, keyframe);
    } else {
      DiscardKeeps(m, t, s);
    }
  }

  lemma {:induction false} FinishKeeps(m: Model, t: int, s: u32, keyframe: bool)
    requires LogInv(m) && CountInv(m) && |m.incomplete| <= WINDOW_FRAMES
    requires Ledger(m.admitted, m.fates.Keys, m.incomplete.Keys, m.newestComplete)
    requires s in m.incomplete && -1 <= m.newestComplete < s
    requires forall k :: k in m.incomplete && k != s ==> !Full(m.incomplete[k])
    ensures Inv(Gate(Complete(m, s), t, s, keyframe))
  {
    hide Gate, Ledger, LogOk, CountInv, WindowOk, Marked, With;
    CompleteKeepsWindow(m, s);
    CompleteKeepsLedger(m, s);
    DisjointSets(m);
    CompleteKeepsCount(m, s);
    GateKeeps(Complete(m, s), t, s, keyframe);
  }

  lemma {:induction false} FillKeeps(m: Model, f: Fragment)
    requires f.frameSeq in m.incomplete
    ensures var m' := Fill(m, f); m'.incomplete.Keys == m.incomplete.Keys && |m'.incomplete| == |m.incomplete|
  {
    var m' := Fill(m, f);
    assert m'.incomplete.Keys == m.incomplete.Keys;
    assert |m'.incomplete.Keys| == |m'.incomplete| && |m.incomplete.Keys| == |m.incomplete|;
  }

  lemma {:induction false} StepKeeps(m: Model, a: Arrival)
    requires Inv(m)
    ensures Inv(Step(m, a))
  {
    hide Admit, Inv;
    var r := Admit(m, a.frag);
    if r.Some? {
      AdmittedKeeps(m, a);
    } else {
      StaleKeeps(m);
    }
  }

  lemma {:induction false} WindowFloor(m: Model)
    requires WindowOk(m.incomplete, m.newestComplete)
    ensures -1 <= m.newestComplete
  {
  }

  lemma {:induction false} StaleKeeps(m: Model)
    requires Inv(m)
    ensures Inv(CountStale(m))
  {
    hide Ledger, LogOk, Deliveries, Full, With;
  }

  /** The entry that received the fragment is the only one that can be full. */
  lemma {:induction false} FilledKeeps(w: map<u32, Incomplete>, m: Model, f: Fragment)
    requires WindowOk(w, m.newestComplete) && m.newestComplete < f.frameSeq && f.frameSeq in m.incomplete
    requires LogInv(m) && Ledger(m.admitted, m.fates.Keys, m.incomplete.Keys, m.newestComplete) && CountInv(m)
    requires |m.incomplete| <= WINDOW_FRAMES
    requires forall k :: k in m.incomplete && k != f.frameSeq ==> k in w && m.incomplete[k] == w[k]
    ensures var m' := Fill(m, f);
      && LogInv(m') && Ledger(m'.admitted, m'.fates.Keys, m'.incomplete.Keys, m'.newestComplete) && CountInv(m')
      && |m'.incomplete| <= WINDOW_FRAMES && m'.newestComplete == m.newestComplete
      && (forall k :: k in m'.incomplete && k != f.frameSeq ==> !Full(m'.incomplete[k]))
      && (!Full(m'.incomplete[f.frameSeq]) ==> Inv(m'))
  {
    hide Ledger, LogOk, Deliveries, Full, With;
    FillKeeps(m, f);
  }

  lemma {:induction false} AdmittedKeeps(m: Model, a: Arrival)
    requires Inv(m) && Admit(m, a.frag).Some?
    ensures Inv(Step(m, a))
  {
    hide Admit, Fill, Gate, Complete, Ledger, LogOk, CountInv, WindowOk, Full;
    var s := a.frag.frameSeq;
    var m1 := Admit(m, a.frag).value;
    AdmitKeeps(m, a.frag);
    WindowFloor(m);
    FilledKeeps(m.incomplete, m1, a.frag);
    var m2 := Fill(m1, a.frag);
    if Full(m2.incomplete[s]) {
      FinishKeeps(m2, a.t, s, m2.incomplete[s].keyframe);
    }
  }

  lemma {:induction false} RunKeeps(m: Model, trace: seq<Arrival>)
    requires Inv(m)
    ensures Inv(RunFrom(m, trace))
  {
    hide Step, Inv;
    if trace != [] {
      RunKeeps(m, trace[..|trace| - 1]);
      StepKeeps(RunFrom(m, trace[..|trace| - 1]), trace[|trace| - 1]);
    }
  }

  lemma {:induction false} EmptyIsFine()
    ensures Inv(Init())
  {
    forall f
      ensures With(map[], f) == {}
    {
    }
  }

  lemma {:induction false} Reachable(trace: seq<Arrival>)
    ensures Inv(Run(trace))
  {
    EmptyIsFine();
    RunKeeps(Init(), trace);
  }
}
