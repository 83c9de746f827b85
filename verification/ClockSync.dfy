/** The clock-offset filter: minimum round trip over the last 16 samples, and how far its estimate can be off. */
module ClockSync {
  const WINDOW: nat := 16

  /** Ping sent and pong received on the client's clock (t0, t3); received and answered on the host's (t1, t2). */
  datatype Sample = Sample(t0: int, t1: int, t2: int, t3: int)

  datatype Estimate = Estimate(rtt: int, offset: int)

  /** The division floors. */
  function Measure(s: Sample): Estimate {
    Estimate((s.t3 - s.t0) - (s.t2 - s.t1), ((s.t1 - s.t0) + (s.t2 - s.t3)) / 2)
  }

  function Measures(history: seq<Sample>): (m: seq<Estimate>)
    ensures |m| == |history|
  {
    seq(|history|, i requires 0 <= i < |history| => Measure(history[i]))
  }

  function Oldest(n: nat): nat {
    if n > WINDOW then n - WINDOW else 0
  }

  /** Sample `i` is the estimate: no smaller round trip among the last 16, and a larger one in every later sample. */
  ghost predicate Chosen(m: seq<Estimate>, i: nat) {
    && Oldest(|m|) <= i < |m|
    && forall j :: Oldest(|m|) <= j < |m| ==> m[j].rtt >= m[i].rtt && (j > i ==> m[j].rtt > m[i].rtt)
  }

  class ClockFilter {
    var window: seq<Estimate>
    ghost var history: seq<Sample>

    /** The window is the last 16 measurements of everything pushed so far. */
    ghost predicate Valid()
      reads this
    {
      window == Measures(history)[Oldest(|history|)..]
    }

    constructor ()
      ensures Valid() && history == []
    {
      window, history := [], [];
    }

    method Push(t0: int, t1: int, t2: int, t3: int) returns (best: Estimate)
      requires Valid()
      modifies this
      ensures Valid() && history == old(history) + [Sample(t0, t1, t2, t3)]
      ensures exists i: nat :: Chosen(Measures(history), i) && best == Measures(history)[i]
    {
      hide Picked, Chosen, Measures, Oldest;
      var rtt := (t3 - t0) - (t2 - t1);
      var offset := ((t1 - t0) + (t2 - t3)) / 2;
      history := history + [Sample(t0, t1, t2, t3)];
      window := window + [Estimate(rtt, offset)];
      WindowShifts(old(history), Sample(t0, t1, t2, t3));
      if |window| > WINDOW {
        window := window[1..];
      }
      best := MinRtt(window);
      PickIsChosen(Measures(history), window, best);
    }
  }

  ghost predicate IsMinRtt(window: seq<Estimate>, at: nat)
    requires at < |window|
  {
    forall j :: 0 <= j < |window| ==> window[j].rtt >= window[at].rtt && (j > at ==> window[j].rtt > window[at].rtt)
  }

  /** `best` is the newest of the samples with the smallest round trip. */
  ghost predicate Picked(window: seq<Estimate>, best: Estimate) {
    exists at: nat :: at < |window| && IsMinRtt(window, at) && best == window[at]
  }

  /** Scan oldest to newest; on a tie the newer sample wins. */
  method MinRtt(window: seq<Estimate>) returns (best: Estimate)
    requires window != []
    ensures Picked(window, best)
  {
    best := window[0];
    ghost var at := 0;
    for k := 1 to |window|
      invariant 0 <= at < k && best == window[at]
      invariant forall j :: 0 <= j < k ==> window[j].rtt >= best.rtt && (j > at ==> window[j].rtt > best.rtt)
    {
      if window[k].rtt <= best.rtt {
        best := window[k];
        at := k;
      }
    }
    assert IsMinRtt(window, at);
  }

  lemma {:induction false} WindowShifts(history: seq<Sample>, s: Sample)
    ensures var w := Measures(history)[Oldest(|history|)..] + [Measure(s)];
      Measures(history + [s])[Oldest(|history| + 1)..] == if |w| > WINDOW then w[1..] else w
  {
    assert Measures(history + [s]) == Measures(history) + [Measure(s)];
  }

  lemma {:induction false} PickIsChosen(m: seq<Estimate>, window: seq<Estimate>, best: Estimate)
    requires window == m[Oldest(|m|)..] && Picked(window, best)
    ensures exists i: nat :: Chosen(m, i) && best == m[i]
  {
    hide IsMinRtt, Chosen;
    var at: nat :| at < |window| && IsMinRtt(window, at) && best == window[at];
    ChosenInWindow(m, window, at);
  }

  lemma {:induction false} ChosenInWindow(m: seq<Estimate>, window: seq<Estimate>, at: nat)
    requires window == m[Oldest(|m|)..] && at < |window| && IsMinRtt(window, at)
    ensures Chosen(m, Oldest(|m|) + at) && m[Oldest(|m|) + at] == window[at]
  {
    forall j | Oldest(|m|) <= j < |m|
      ensures m[j] == window[j - Oldest(|m|)]
    {
    }
  }

  lemma {:induction false} ChoiceIsUnique(m: seq<Estimate>, i: nat, k: nat)
    requires Chosen(m, i) && Chosen(m, k)
    ensures i == k
  {
    assert m[k].rtt >= m[i].rtt && m[i].rtt >= m[k].rtt;
  }

  /** The host's clock is the client's plus `theta`; the two directions take `there` and `back` microseconds. */
  predicate Exchange(s: Sample, theta: int, there: int, back: int) {
    there >= 0 && back >= 0 && s.t1 == s.t0 + theta + there && s.t3 == s.t2 - theta + back
  }

  predicate Truthful(s: Sample, theta: int) {
    s.t1 - s.t0 - theta >= 0 && s.t3 - s.t2 + theta >= 0
  }

  predicate AllTruthful(history: seq<Sample>, theta: int) {
    forall i :: 0 <= i < |history| ==> Truthful(history[i], theta)
  }

  function Abs(x: int): nat {
    if x < 0 then -x else x
  }

  /** Twice the worst offset error of a round trip: the round trip itself, rounded up to an even number. */
  function Bound(rtt: int): int {
    rtt + rtt % 2
  }

  /** One exchange: the round trip is the sum of the delays, the offset errs by half their difference, rounded down. */
  lemma {:induction false} OneExchange(s: Sample, theta: int, there: int, back: int)
    requires Exchange(s, theta, there, back)
    ensures var e := Measure(s);
      e.rtt == there + back && e.offset == theta + (there - back) / 2 && 2 * Abs(e.offset - theta) <= Bound(e.rtt)
  {
    assert (2 * theta + (there - back)) / 2 == theta + (there - back) / 2;
  }

  /**
   Over any history of truthful samples: the estimate is within half its bound of the true offset, and no sample in
   the window has a smaller bound.
   */
  lemma {:induction false} EstimateIsTight(history: seq<Sample>, theta: int, i: nat)
    requires AllTruthful(history, theta) && Chosen(Measures(history), i)
    ensures var e := Measures(history)[i];
      && 2 * Abs(e.offset - theta) <= Bound(e.rtt)
      && forall j :: Oldest(|history|) <= j < |history| ==> Bound(e.rtt) <= Bound(Measures(history)[j].rtt)
  {
    var s := history[i];
    assert Truthful(s, theta);
    OneExchange(s, theta, s.t1 - s.t0 - theta, s.t3 - s.t2 + theta);
  }

  /** The bound cannot be improved: for every round trip and every true offset some truthful exchange reaches it. */
  lemma {:induction false} BoundIsReached(theta: int, rtt: nat) returns (s: Sample)
    ensures Truthful(s, theta) && Measure(s).rtt == rtt && 2 * Abs(Measure(s).offset - theta) == Bound(rtt)
  {
    s := Sample(0, theta, theta, rtt);
    assert Exchange(s, theta, 0, rtt);
    OneExchange(s, theta, 0, rtt);
  }

  /** In numbers: the chosen sample is one of the last sixteen, with the smallest round trip, and the newest of those. */
  lemma {:induction false} ChosenAmongSixteen(m: seq<Estimate>, i: nat)
    ensures Chosen(m, i) <==>
      && i < |m| && |m| - 16 <= i
      && forall j :: 0 <= j < |m| && |m| - 16 <= j ==> m[i].rtt <= m[j].rtt && (i < j ==> m[i].rtt < m[j].rtt)
  {
  }
}
