/** What a trace says of each frame on its own: the entry its fragments build up, and whether they finish it. */
module ReassemblyEntries {
  import opened Basics
  import opened Reassembly
  import opened ReassemblyEvidence
  import opened ReassemblyRecovery

  // ---------------------------------------------------------------- frames looked at one by one

  function Base(before: Option<Incomplete>, f: Fragment): Incomplete {
    if before.Some? then before.value else Incomplete(f.fragCount, {}, f.keyframe)
  }

  /** The entry frame `s` would have if nothing else had ever arrived; its first fragment's header counts. */
  ghost function EntryOf(trace: seq<Arrival>, s: u32): Option<Incomplete> {
    if trace == [] then None
    else
      var before := EntryOf(trace[..|trace| - 1], s);
      var f := trace[|trace| - 1].frag;
      if f.frameSeq != s then before
      else
        var e := Base(before, f);
        Some(e.(have := e.have + {f.fragIndex}))
  }

  ghost predicate Reached(e: Incomplete) {
    0 < e.need <= |e.have|
  }

  /** Alone, frame `s` would be complete. */
  ghost predicate Finished(trace: seq<Arrival>, s: u32) {
    EntryOf(trace, s).Some? && Reached(EntryOf(trace, s).value)
  }

  /** At most one frame newer than `n` has arrived, and none is finished. */
  ghost predicate Undisturbed(trace: seq<Arrival>, n: u32) {
    && (forall q: u32, r: u32 :: n < q && n < r && EntryOf(trace, q).Some? && EntryOf(trace, r).Some? ==> q == r)
    && forall q: u32 :: n < q ==> !Finished(trace, q)
  }

  /** At some moment frame `n` is finished and still undisturbed. */
  ghost predicate Made(trace: seq<Arrival>, n: u32) {
    exists t :: 0 <= t <= |trace| && Finished(trace[..t], n) && Undisturbed(trace[..t], n)
  }

  lemma {:induction false} EntryNext(trace: seq<Arrival>, a: Arrival, s: u32)
    ensures EntryOf(trace + [a], s) ==
      if a.frag.frameSeq != s then EntryOf(trace, s)
      else
        var e := Base(EntryOf(trace, s), a.frag);
        Some(e.(have := e.have + {a.frag.fragIndex}))
  {
    assert (trace + [a])[..|trace|] == trace;
  }

  lemma {:induction false} EntryHolds(trace: seq<Arrival>, s: u32)
    ensures EntryOf(trace, s).Some? ==> EntryOf(trace, s).value.have != {}
  {
    if trace != [] {
      var init, a := trace[..|trace| - 1], trace[|trace| - 1];
      assert init + [a] == trace;
      EntryHolds(init, s);
      EntryNext(init, a, s);
    }
  }

  lemma {:induction false} AddIndex(have: set<u16>, x: u16)
    ensures |have| <= |have + {x}| <= |have| + 1 && |have + {x}| > 0
  {
    assert x in have + {x};
    assert x in have ==> have + {x} == have;
  }

  /** Frame by frame: a finished one stays so, and the fragment that finishes one makes its entry full. */
  lemma {:induction false} FinishedNext(trace: seq<Arrival>, a: Arrival, s: u32)
    ensures Finished(trace, s) ==> EntryOf(trace, s).Some? && Finished(trace + [a], s)
    ensures EntryOf(trace, s).Some? ==>
      EntryOf(trace + [a], s).Some? && EntryOf(trace + [a], s).value.keyframe == EntryOf(trace, s).value.keyframe
    ensures a.frag.frameSeq != s ==> EntryOf(trace + [a], s) == EntryOf(trace, s)
    ensures a.frag.frameSeq == s ==> EntryOf(trace + [a], s).Some?
    ensures a.frag.frameSeq == s && !Finished(trace, s) ==>
      (Full(EntryOf(trace + [a], s).value) <==> Finished(trace + [a], s))
  {
    EntryNext(trace, a, s);
    var e := Base(EntryOf(trace, s), a.frag);
    AddIndex(e.have, a.frag.fragIndex);
  }

  lemma {:induction false} UndisturbedNext(trace: seq<Arrival>, a: Arrival, n: u32)
    ensures Undisturbed(trace + [a], n) ==> Undisturbed(trace, n)
    ensures a.frag.frameSeq <= n ==> (Undisturbed(trace + [a], n) <==> Undisturbed(trace, n))
  {
    hide Finished;
    forall q: u32
      ensures Finished(trace, q) ==> Finished(trace + [a], q)
      ensures EntryOf(trace, q).Some? ==> EntryOf(trace + [a], q).Some?
      ensures a.frag.frameSeq != q ==> EntryOf(trace + [a], q) == EntryOf(trace, q)
      ensures a.frag.frameSeq != q ==> (Finished(trace + [a], q) <==> Finished(trace, q))
    {
      FinishedNext(trace, a, q);
      SameFinished(trace, trace + [a], q);
    }
  }

  lemma {:induction false} SameFinished(trace: seq<Arrival>, trace': seq<Arrival>, q: u32)
    ensures EntryOf(trace, q) == EntryOf(trace', q) ==> (Finished(trace, q) <==> Finished(trace', q))
  {
  }

  lemma {:induction false} MadeNext(trace: seq<Arrival>, a: Arrival, n: u32)
    ensures Made(trace + [a], n) <==> Made(trace, n) || (Finished(trace + [a], n) && Undisturbed(trace + [a], n))
  {
    hide Finished, Undisturbed;
    var all := trace + [a];
    assert all[..|all|] == all;
    assert forall t :: 0 <= t <= |trace| ==> all[..t] == trace[..t];
    if Made(trace, n) {
      var t :| 0 <= t <= |trace| && Finished(trace[..t], n) && Undisturbed(trace[..t], n);
      assert Finished(all[..t], n) && Undisturbed(all[..t], n);
    }
    if Made(all, n) {
      var t :| 0 <= t <= |all| && Finished(all[..t], n) && Undisturbed(all[..t], n);
      assert t <= |trace| ==> Finished(trace[..t], n) && Undisturbed(trace[..t], n);
    }
  }

  lemma {:induction false} MadeIsFinished(trace: seq<Arrival>, n: u32)
    ensures Made(trace, n) ==> Finished(trace, n)
  {
    hide Finished, Undisturbed;
    if trace == [] {
      assert forall t :: 0 <= t <= 0 ==> trace[..t] == [];
    } else {
      var init, a := trace[..|trace| - 1], trace[|trace| - 1];
      assert init + [a] == trace;
      MadeIsFinished(init, n);
      MadeNext(init, a, n);
      FinishedNext(init, a, n);
    }
  }

  // ---------------------------------------------------------------- frames as they were sent

  ghost predicate OwnFragment(f: Fragment, n: u32, p: Plan) {
    f.frameSeq == n && f.fragCount == p.count && f.fragIndex < p.count && f.keyframe == p.keyframe
  }

  /** Fragments of frame `n` carry the header it was sent with. */
  ghost predicate AsSent(trace: seq<Arrival>, n: u32, p: Plan) {
    forall i :: 0 <= i < |trace| && trace[i].frag.frameSeq == n ==> OwnFragment(trace[i].frag, n, p)
  }

  lemma {:induction false} EntryAsSent(trace: seq<Arrival>, n: u32, p: Plan)
    requires AsSent(trace, n, p)
    ensures forall i :: Seen(trace, n, i) <==> EntryOf(trace, n).Some? && i in EntryOf(trace, n).value.have
    ensures EntryOf(trace, n).Some? ==>
      var e := EntryOf(trace, n).value;
      e.need == p.count && e.keyframe == p.keyframe && forall i :: i in e.have ==> i < p.count
  {
    hide Seen;
    if trace == [] {
      NothingSeen(n);
    } else {
      var init, a := trace[..|trace| - 1], trace[|trace| - 1];
      assert init + [a] == trace;
      EntryAsSent(init, n, p);
      EntryNext(init, a, n);
      SeenLess(init, a, n);
      SeenMore(init, a);
    }
  }

  lemma {:induction false} FinishedIsCovered(trace: seq<Arrival>, n: u32, p: Plan)
    requires AsSent(trace, n, p)
    ensures Finished(trace, n) <==> Covers(trace, n, p)
  {
    hide Seen;
    EntryAsSent(trace, n, p);
    if Covers(trace, n, p) {
      assert Seen(trace, n, 0);
      CoveredIsFull(EntryOf(trace, n).value, p, trace, n);
    }
    if Finished(trace, n) {
      var e := EntryOf(trace, n).value;
      var have: set<int> := e.have;
      SmallerSubset(have, Below(p.count));
      AllIndices(have, p.count);
    }
  }

  lemma {:induction false} SentPrefix(trace: seq<Arrival>, t: nat, n: u32, p: Plan)
    requires AsSent(trace, n, p) && t <= |trace|
    ensures AsSent(trace[..t], n, p)
  {
  }

  lemma {:induction false} EntryIsKey(trace: seq<Arrival>, n: u32, p: Plan)
    requires AsSent(trace, n, p)
    ensures EntryOf(trace, n).Some? ==> EntryOf(trace, n).value.keyframe == p.keyframe
  {
    hide Seen, EntryOf;
    EntryAsSent(trace, n, p);
  }
}
