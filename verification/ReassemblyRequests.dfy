/** Keyframe requests over whole runs: their spacing, their `last_good` and that a stuck client always has a recent one. */
module ReassemblyRequests {
  import opened Basics
  import opened Reassembly
  import opened ReassemblyRuns
  import opened ReassemblySafety

  predicate Spaced(r: seq<Event>) {
    && (forall i :: 0 <= i < |r| ==> r[i].IdrRequest?)
    && (forall i, j :: 0 <= i <= j < |r| ==> r[j].t - r[i].t >= IDR_INTERVAL_MS * (j - i))
  }

  lemma {:induction false} SpacedSnoc(r: seq<Event>, e: Event)
    requires Spaced(r) && e.IdrRequest? && (r != [] ==> e.t - r[|r| - 1].t >= IDR_INTERVAL_MS)
    ensures Spaced(r + [e])
  {
    var all, n := r + [e], |r|;
    forall i, j | 0 <= i <= j < |all|
      ensures all[j].t - all[i].t >= IDR_INTERVAL_MS * (j - i)
    {
      if i < j == n {
        assert r[n - 1].t - r[i].t >= IDR_INTERVAL_MS * (n - 1 - i);
      }
    }
  }

  lemma {:induction false} LogSpacing(es: seq<Event>)
    requires WellFormedLog(es)
    ensures var r := Requests(es);
      Spaced(r) && LastRequest(es) == if r == [] then None else Some(r[|r| - 1].t)
  {
    hide Spaced, LastDelivered, WellFormedLog, Requests, LastRequest;
    NothingSpaced();
    if es != [] {
      var init, e := es[..|es| - 1], es[|es| - 1];
      assert es == init + [e];
      Append(init, e);
      LogSpacing(init);
      if e.IdrRequest? {
        RequestsAreTimed(Requests(init));
        SpacedSnoc(Requests(init), e);
      } else {
        assert Requests(es) == Requests(init);
      }
    }
  }

  lemma {:induction false} RequestsAreTimed(r: seq<Event>)
    requires Spaced(r)
    ensures r != [] ==> r[|r| - 1].IdrRequest?
  {
  }

  lemma {:induction false} NothingSpaced()
    ensures Spaced([]) && Requests([]) == [] && LastRequest([]) == None
  {
  }

  /** Any n requests of a run span at least 250 (n - 1) ms, whatever clock the arrivals carry. */
  lemma {:induction false} RequestsAreSpaced(trace: seq<Arrival>)
    ensures var r := Requests(Run(trace).events);
      && (forall i :: 0 <= i < |r| ==> r[i].IdrRequest?)
      && (forall i, j :: 0 <= i <= j < |r| ==> r[j].t - r[i].t >= 250 * (j - i))
  {
    hide Run, Ledger, Requests;
    Reachable(trace);
    LogSpacing(Run(trace).events);
  }

  lemma {:induction false} LogGood(es: seq<Event>, i: nat)
    requires WellFormedLog(es) && i < |es| && es[i].IdrRequest?
    ensures var d := Deliveries(es[..i]);
      && (d != [] ==> d[|d| - 1].Deliver?)
      && es[i].lastGood == if d == [] then 0 else d[|d| - 1].frameSeq
  {
    var init := es[..|es| - 1];
    if i == |es| - 1 {
      LogGating(init);
    } else {
      LogGood(init, i);
      assert init[..i] == es[..i];
    }
  }

  /** Every request names the latest frame delivered before it, or 0 when there is none. */
  lemma {:induction false} LastGoodIsLatest(trace: seq<Arrival>, i: nat)
    requires i < |Run(trace).events| && Run(trace).events[i].IdrRequest?
    ensures var es := Run(trace).events; var d := Deliveries(es[..i]);
      && (d != [] ==> d[|d| - 1].Deliver?)
      && es[i].lastGood == if d == [] then 0 else d[|d| - 1].frameSeq
  {
    hide Run, Ledger, Deliveries;
    Reachable(trace);
    LogGood(Run(trace).events, i);
  }

  ghost predicate Chronological(trace: seq<Arrival>) {
    forall i, j :: 0 <= i <= j < |trace| ==> trace[i].t <= trace[j].t
  }

  lemma {:induction false} RequestTimes(trace: seq<Arrival>)
    requires Chronological(trace)
    ensures Run(trace).idrLast.Some? ==> trace != [] && Run(trace).idrLast.value <= trace[|trace| - 1].t
  {
    hide Step, Inv;
    if trace != [] {
      var init := trace[..|trace| - 1];
      RequestTimes(init);
      StepOutcome(Run(init), trace[|trace| - 1]);
    }
  }

  lemma {:induction false} RequestInLog(es: seq<Event>)
    requires LastRequest(es).Some?
    ensures exists g :: IdrRequest(LastRequest(es).value, g) in es
  {
    var e := es[|es| - 1];
    if e.IdrRequest? {
      assert IdrRequest(e.t, e.lastGood) in es;
    } else {
      RequestInLog(es[..|es| - 1]);
      var g :| IdrRequest(LastRequest(es).value, g) in es[..|es| - 1];
      assert IdrRequest(LastRequest(es).value, g) in es;
    }
  }

  /** With a clock that never runs backwards, every gap discard at t has a request in (t - 250, t]. */
  lemma {:induction false} StuckClientKeepsAsking(trace: seq<Arrival>, a: Arrival)
    requires Chronological(trace + [a])
    requires Step(Run(trace), a).counters.discardedGap > Run(trace).counters.discardedGap
    ensures exists t, g :: a.t - 250 < t <= a.t && IdrRequest(t, g) in Run(trace + [a]).events
  {
    hide Step, Inv;
    var m := Run(trace);
    var m' := Run(trace + [a]);
    RunPush(Init(), trace, a);
    StepOutcome(m, a);
    forall i, j | 0 <= i <= j < |trace|
      ensures trace[i].t <= trace[j].t
    {
      assert (trace + [a])[i].t <= (trace + [a])[j].t;
    }
    RequestTimes(trace);
    if trace != [] {
      assert (trace + [a])[|trace| - 1].t <= (trace + [a])[|trace|].t;
    }
    Reachable(trace + [a]);
    LastRequestIsNewest(m');
    RequestInLog(m'.events);
  }

  lemma {:induction false} LastRequestIsNewest(m: Model)
    requires Inv(m)
    ensures LastRequest(m.events) == m.idrLast
  {
  }
}
