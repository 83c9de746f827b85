/**
 The client's receive model: fragment reassembly in a two-frame window, decode gating and rate-limited
 keyframe requests. `Step` says what one arrival does; `Reassembler.Push` is the in-place machine, proved
 equal to it. The model also keeps a history of admitted frames and of the fate of each.
 */
module Reassembly {
  import opened Basics

  datatype Fragment = Fragment(frameSeq: u32, fragIndex: u16, fragCount: u16, keyframe: bool)

  datatype Arrival = Arrival(t: int, frag: Fragment)

  datatype Event =
    | Deliver(t: int, frameSeq: u32, keyframe: bool)
    | IdrRequest(t: int, lastGood: u32)

  datatype Counters = Counters(droppedIncomplete: nat, discardedGap: nat, staleFragments: nat)

  datatype Incomplete = Incomplete(need: u16, have: set<u16>, keyframe: bool)

  /** How a frame left the window. */
  datatype Fate = Evicted | Superseded | Discarded | Delivered

  datatype Model = Model(
    newestComplete: int,
    lastDecoded: Option<int>,
    incomplete: map<u32, Incomplete>,
    events: seq<Event>,
    counters: Counters,
    idrLast: Option<int>,
    admitted: seq<u32>,
    fates: map<u32, Fate>)

  const IDR_INTERVAL_MS: int := 250
  const WINDOW_FRAMES: int := 2

  function Init(): Model {
    Model(-1, None, map[], [], Counters(0, 0, 0), None, [], map[])
  }

  ghost predicate IsOldest(w: map<u32, Incomplete>, s: u32) {
    s in w && forall k :: k in w ==> s <= k
  }

  lemma {:induction false} OldestExists(w: map<u32, Incomplete>)
    requires w != map[]
    ensures exists s :: IsOldest(w, s)
    decreases |w|
  {
    var k :| k in w;
    var rest := w - {k};
    if rest == map[] {
      assert w.Keys == {k} by {
        assert forall j :: j in w ==> j == k || j in rest;
      }
      assert IsOldest(w, k);
    } else {
      assert rest.Keys == w.Keys - {k};
      OldestExists(rest);
      var s :| IsOldest(rest, s);
      assert forall j :: j in w ==> j == k || j in rest;
      assert IsOldest(w, if s < k then s else k);
    }
  }

  ghost function Oldest(w: map<u32, Incomplete>): (s: u32)
    requires w != map[]
    ensures IsOldest(w, s)
  {
    OldestExists(w);
    var s: u32 :| IsOldest(w, s);
    s
  }

  // ---------------------------------------------------------------- one arrival

  ghost function Evict(m: Model, s: u32): Model {
    m.(incomplete := m.incomplete - {s},
       counters := m.counters.(droppedIncomplete := m.counters.droppedIncomplete + 1),
       fates := m.fates[s := Evicted])
  }

  ghost function Open(m: Model, f: Fragment): Model {
    m.(incomplete := m.incomplete[f.frameSeq := Incomplete(f.fragCount, {}, f.keyframe)],
       admitted := m.admitted + [f.frameSeq])
  }

  /** Rules 1 and 2: the model with a window entry for `f`, or None when `f` is stale. */
  ghost function Admit(m: Model, f: Fragment): (r: Option<Model>)
    ensures r.Some? ==> f.frameSeq in r.value.incomplete
  {
    if f.frameSeq <= m.newestComplete then None
    else if f.frameSeq in m.incomplete then Some(m)
    else if |m.incomplete| < WINDOW_FRAMES then Some(Open(m, f))
    else
      assert m.incomplete != map[];
      var oldest := Oldest(m.incomplete);
      if f.frameSeq > oldest then Some(Open(Evict(m, oldest), f)) else None
  }

  ghost function Stale(w: map<u32, Incomplete>, newest: int): set<u32> {
    set s | s in w && s <= newest
  }

  ghost function Marked(s: set<u32>, fate: Fate): map<u32, Fate> {
    map k | k in s :: fate
  }

  /** Frame `s` completes: it leaves the window, and rule 1 removes every frame at or below it. */
  ghost function Complete(m: Model, s: u32): Model {
    var newest := if m.newestComplete < s then s else m.newestComplete;
    var rest := m.incomplete - {s};
    var stale := Stale(rest, newest);
    m.(newestComplete := newest,
       incomplete := rest - stale,
       counters := m.counters.(droppedIncomplete := m.counters.droppedIncomplete + |stale|),
       fates := m.fates + Marked(stale, Superseded))
  }

  ghost function DeliverFrame(m: Model, t: int, s: u32, keyframe: bool): Model {
    m.(events := m.events + [Deliver(t, s, keyframe)], lastDecoded := Some(s), fates := m.fates[s := Delivered])
  }

  ghost function LastGood(lastDecoded: Option<int>): u32 {
    match lastDecoded
    case None => 0
    case Some(d) => d % TWO_32
  }

  ghost function MaybeIdr(m: Model, t: int): Model {
    if m.idrLast.Some? && t - m.idrLast.value < IDR_INTERVAL_MS then m
    else m.(events := m.events + [IdrRequest(t, LastGood(m.lastDecoded))], idrLast := Some(t))
  }

  /** Rule 3: a delta frame reaches the decoder only right after its predecessor. */
  ghost function Gate(m: Model, t: int, s: u32, keyframe: bool): Model {
    if keyframe then DeliverFrame(m, t, s, true)
    else if m.lastDecoded == Some(s - 1) then DeliverFrame(m, t, s, false)
    else
      MaybeIdr(
        m.(counters := m.counters.(discardedGap := m.counters.discardedGap + 1), fates := m.fates[s := Discarded]),
        t)
  }

  ghost function CountStale(m: Model): Model {
    m.(counters := m.counters.(staleFragments := m.counters.staleFragments + 1))
  }

  /** The entry of the fragment's frame takes the fragment; duplicates change nothing. */
  ghost function Fill(m: Model, f: Fragment): (r: Model)
    requires f.frameSeq in m.incomplete
    ensures f.frameSeq in r.incomplete
  {
    var entry := m.incomplete[f.frameSeq];
    m.(incomplete := m.incomplete[f.frameSeq := entry.(have := entry.have + {f.fragIndex})])
  }

  ghost predicate Full(e: Incomplete) {
    |e.have| == e.need
  }

  ghost function Step(m: Model, a: Arrival): Model {
    var s := a.frag.frameSeq;
    match Admit(m, a.frag)
    case None => CountStale(m)
    case Some(m1) =>
      var m2 := Fill(m1, a.frag);
      if !Full(m2.incomplete[s]) then m2 else Gate(Complete(m2, s), a.t, s, m2.incomplete[s].keyframe)
  }

  ghost function RunFrom(m: Model, trace: seq<Arrival>): Model {
    if trace == [] then m else Step(RunFrom(m, trace[..|trace| - 1]), trace[|trace| - 1])
  }

  ghost function Run(trace: seq<Arrival>): Model {
    RunFrom(Init(), trace)
  }

  lemma {:induction false} RunPush(m: Model, trace: seq<Arrival>, a: Arrival)
    ensures RunFrom(m, trace + [a]) == Step(RunFrom(m, trace), a)
  {
    assert (trace + [a])[..|trace|] == trace;
  }

  lemma {:induction false} RunSplit(m: Model, a: seq<Arrival>, b: seq<Arrival>)
    ensures RunFrom(m, a + b) == RunFrom(RunFrom(m, a), b)
  {
    hide Step;
    if b == [] {
      assert a + b == a;
    } else {
      var init, last := b[..|b| - 1], b[|b| - 1];
      RunSplit(m, a, init);
      assert a + b == a + init + [last];
      RunPush(m, a + init, last);
    }
  }

  lemma {:induction false} RemoveOne(w: map<u32, Incomplete>, marks: map<u32, Fate>, all: set<u32>, left: set<u32>, k: u32)
    requires k in left && left <= all
    ensures w - (all - left) - {k} == w - (all - (left - {k}))
    ensures (marks + Marked(all - left, Superseded))[k := Superseded] == marks + Marked(all - (left - {k}), Superseded)
  {
    assert all - (left - {k}) == (all - left) + {k};
  }

  // ---------------------------------------------------------------- the in-place machine

  class Reassembler {
    var newestComplete: int
    var lastDecoded: Option<int>
    var incomplete: map<u32, Incomplete>
    var events: seq<Event>
    var counters: Counters
    var idrLast: Option<int>
    ghost var admitted: seq<u32>
    ghost var fates: map<u32, Fate>
    ghost var pushed: seq<Arrival>

    ghost function View(): Model
      reads this
    {
      Model(newestComplete, lastDecoded, incomplete, events, counters, idrLast, admitted, fates)
    }

    /** The fields are what the arrivals pushed so far make of a fresh reassembler. */
    ghost predicate Valid()
      reads this
    {
      View() == Run(pushed)
    }

    constructor ()
      ensures Valid() && pushed == []
    {
      newestComplete, lastDecoded, incomplete, events := -1, None, map[], [];
      counters, idrLast := Counters(0, 0, 0), None;
      admitted, fates, pushed := [], map[], [];
    }

    method Push(t: int, frag: Fragment)
      requires Valid()
      modifies this
      ensures Valid() && pushed == old(pushed) + [Arrival(t, frag)]
      ensures View() == Step(old(View()), Arrival(t, frag))
    {
      hide RunFrom, Admit, Complete, Gate;
      RunPush(Init(), pushed, Arrival(t, frag));
      pushed := pushed + [Arrival(t, frag)];
      var live := Enter(frag);
      if !live {
        return;
      }
      var s := frag.frameSeq;
      var entry := incomplete[s];
      entry := entry.(have := entry.have + {frag.fragIndex});
      incomplete := incomplete[s := entry];
      if |entry.have| != entry.need {
        return;
      }
      Leave(s);
      GateDecode(t, s, entry.keyframe);
    }

    /** Rules 1 and 2: make sure the fragment's frame has a window entry, or count the fragment as stale. */
    method Enter(frag: Fragment) returns (live: bool)
      modifies `incomplete, `counters, `fates, `admitted
      ensures live == Admit(old(View()), frag).Some?
      ensures live ==> View() == Admit(old(View()), frag).value
      ensures !live ==>
        View() == old(View()).(counters := old(counters).(staleFragments := old(counters).staleFragments + 1))
    {
      var s := frag.frameSeq;
      if s <= newestComplete {
        counters := counters.(staleFragments := counters.staleFragments + 1);
        return false;
      }
      if s !in incomplete {
        if |incomplete| >= WINDOW_FRAMES {
          OldestExists(incomplete);
          var oldest :| oldest in incomplete && forall k :: k in incomplete ==> oldest <= k;
          assert oldest == Oldest(incomplete);
          if s > oldest {
            incomplete := incomplete - {oldest};
            counters := counters.(droppedIncomplete := counters.droppedIncomplete + 1);
            fates := fates[oldest := Evicted];
          } else {
            counters := counters.(staleFragments := counters.staleFragments + 1);
            return false;
          }
        }
        incomplete := incomplete[s := Incomplete(frag.fragCount, {}, frag.keyframe)];
        admitted := admitted + [s];
      }
      return true;
    }

    /** A completed frame leaves the window, and takes every frame at or below it along. */
    method Leave(s: u32)
      modifies `newestComplete, `incomplete, `counters, `fates
      ensures View() == Complete(old(View()), s)
    {
      incomplete := incomplete - {s};
      newestComplete := if newestComplete < s then s else newestComplete;
      DropStale();
    }

    /** Rule-1 cleanup: the stale keys are collected first and then removed one by one. */
    method DropStale()
      modifies `incomplete, `counters, `fates
      ensures var stale := Stale(old(incomplete), newestComplete);
        && incomplete == old(incomplete) - stale
        && counters == old(counters).(droppedIncomplete := old(counters).droppedIncomplete + |stale|)
        && fates == old(fates) + Marked(stale, Superseded)
    {
      var stale := set k | k in incomplete && k <= newestComplete;
      ghost var all := stale;
      while stale != {}
        invariant stale <= all
        invariant incomplete == old(incomplete) - (all - stale)
        invariant counters == old(counters).(droppedIncomplete := old(counters).droppedIncomplete + |all| - |stale|)
        invariant fates == old(fates) + Marked(all - stale, Superseded)
        decreases |stale|
      {
        var k :| k in stale;
        RemoveOne(old(incomplete), old(fates), all, stale, k);
        incomplete := incomplete - {k};
        counters := counters.(droppedIncomplete := counters.droppedIncomplete + 1);
        fates := fates[k := Superseded];
        stale := stale - {k};
      }
      assert all - stale == all;
    }

    /** Rule 3. */
    method GateDecode(t: int, s: u32, keyframe: bool)
      modifies `events, `lastDecoded, `fates, `counters, `idrLast
      ensures View() == Gate(old(View()), t, s, keyframe)
    {
      if keyframe {
        DeliverNow(t, s, true);
      } else if lastDecoded == Some(s - 1) {
        DeliverNow(t, s, false);
      } else {
        counters := counters.(discardedGap := counters.discardedGap + 1);
        fates := fates[s := Discarded];
        RequestIdr(t);
      }
    }

    method DeliverNow(t: int, s: u32, keyframe: bool)
      modifies `events, `lastDecoded, `fates
      ensures View() == DeliverFrame(old(View()), t, s, keyframe)
    {
      events := events + [Deliver(t, s, keyframe)];
      lastDecoded := Some(s);
      fates := fates[s := Delivered];
    }

    method RequestIdr(t: int)
      modifies `events, `idrLast
      ensures View() == MaybeIdr(old(View()), t)
    {
      if idrLast.Some? && t - idrLast.value < IDR_INTERVAL_MS {
        return;
      }
      var lastGood := if lastDecoded.Some? then lastDecoded.value else 0;
      events := events + [IdrRequest(t, lastGood % TWO_32)];
      idrLast := Some(t);
    }
  }
}
