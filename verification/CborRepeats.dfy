/**
 When the order of map entries shows: the encoder's sort is stable, so it shows exactly where a key is given twice
 with different values.
 */
module CborRepeats {
  import opened Basics
  import opened Cbor
  import opened CborOrder
  import opened CborReading
  import opened CborCanonical

  // ---------------------------------------------------------------- the sort is stable

  function ValueAt(e: Entry, key: Value): seq<Value> {
    if e.key == key then [e.val] else []
  }

  /** The values under a key, in entry order. */
  function Under(es: seq<Entry>, key: Value): seq<Value> {
    if es == [] then [] else ValueAt(es[0], key) + Under(es[1..], key)
  }

  lemma {:induction false} UnderSplit(a: seq<Entry>, b: seq<Entry>, key: Value)
    ensures Under(a + b, key) == Under(a, key) + Under(b, key)
  {
    hide ValueAt;
    if a == [] {
      assert a + b == b;
    } else {
      assert (a + b)[0] == a[0] && (a + b)[1..] == a[1..] + b;
      UnderSplit(a[1..], b, key);
      var h, t, u := ValueAt(a[0], key), Under(a[1..], key), Under(b, key);
      assert h + (t + u) == h + t + u;
    }
  }

  lemma {:induction false} UnderOne(e: Entry, key: Value)
    ensures Under([e], key) == ValueAt(e, key)
  {
    assert [e][1..] == [];
  }

  lemma {:induction false} KeysDiffer(a: Entry, b: Entry, key: Value)
    requires a.key != b.key
    ensures ValueAt(a, key) + ValueAt(b, key) == ValueAt(b, key) + ValueAt(a, key)
  {
  }

  /** Insertion passes only larger keys, so it keeps the order of equal ones. */
  lemma {:induction false} InsertUnder(es: seq<Entry>, x: Entry, key: Value)
    ensures Under(InsertEntry(es, x), key) == Under(es, key) + ValueAt(x, key)
  {
    hide ValueAt, Under;
    UnderOne(x, key);
    if es == [] || LexAtMost(Encode(es[|es| - 1].key), Encode(x.key)) {
      UnderSplit(es, [x], key);
    } else {
      var init, last := es[..|es| - 1], es[|es| - 1];
      LexTotal(Encode(x.key), Encode(x.key));
      KeysDiffer(x, last, key);
      InsertUnder(init, x, key);
      UnderSplit(InsertEntry(init, x), [last], key);
      UnderSplit(init, [last], key);
      UnderOne(last, key);
      assert es == init + [last];
      var u, v, w := Under(init, key), ValueAt(x, key), ValueAt(last, key);
      assert u + v + w == u + (v + w) && u + w + v == u + (w + v);
    }
  }

  /** The sort keeps the order of the values under every key. */
  lemma {:induction false} SortUnder(es: seq<Entry>, key: Value)
    ensures Under(SortEntries(es), key) == Under(es, key)
  {
    hide InsertEntry, Under;
    if es == [] {
    } else {
      var init, last := es[..|es| - 1], es[|es| - 1];
      SortUnder(init, key);
      InsertUnder(SortEntries(init), last, key);
      UnderSplit(init, [last], key);
      UnderOne(last, key);
      assert es == init + [last];
    }
  }

  // ---------------------------------------------------------------- where the order shows

  lemma {:induction false} SameCanon(v: Value, w: Value)
    requires InRange(v) && InRange(w)
    ensures Encode(v) == Encode(w) <==> Canon(v) == Canon(w)
  {
    hide Encode, Decode, Canon, InRange;
    if Encode(v) == Encode(w) {
      RoundTrip(v);
      RoundTrip(w);
      assert Decode(Encode(v) + []) == Some(Read(Canon(v), []));
      assert Decode(Encode(w) + []) == Some(Read(Canon(w), []));
    }
    CanonKeepsBytes(v);
    CanonKeepsBytes(w);
  }

  lemma {:induction false} SameAsItself(v: Value)
    ensures SameUpToOrder(v, v)
  {
    CanonIsReordering(v);
    AgreeThrough(v, v, Canon(v));
  }

  lemma {:induction false} EntrySameAsItself(e: Entry)
    ensures SameEntry(e, e)
  {
    SameAsItself(e.key);
    SameAsItself(e.val);
  }

  /** A reordering inside one element of an array shows. */
  lemma {:induction false} ArrayShows(items: seq<Value>, i: nat, w: Value)
    requires i < |items| && InRange(Array(items)) && InRange(w)
    requires SameUpToOrder(items[i], w) && Encode(items[i]) != Encode(w)
    ensures var r := Array(items[i := w]);
      InRange(r) && SameUpToOrder(Array(items), r) && Encode(r) != Encode(Array(items))
  {
    hide Encode;
    var r := Array(items[i := w]);
    forall k | 0 <= k < |items|
      ensures SameUpToOrder(items[k], r.items[k])
    {
      SameAsItself(items[k]);
    }
    SameCanon(Array(items), r);
    SameCanon(items[i], w);
    assert CanonAll(items)[i] == Canon(items[i]) && CanonAll(r.items)[i] == Canon(w);
  }

  lemma {:induction false} MapInRange(es: seq<Entry>, i: nat, f: Entry)
    requires i < |es| && InRange(Map(es)) && EntryInRange(f)
    ensures InRange(Map(es[i := f]))
  {
    var fs := es[i := f];
    forall k | 0 <= k < |fs|
      ensures EntryInRange(fs[k])
    {
      assert EntryInRange(es[k]);
    }
  }

  lemma {:induction false} EntryReorders(es: seq<Entry>, i: nat, f: Entry)
    requires i < |es| && SameEntry(es[i], f)
    ensures SameUpToOrder(Map(es), Map(es[i := f]))
  {
    hide SameEntry;
    var fs := es[i := f];
    var p: seq<nat> := seq(|es|, k requires 0 <= k => k);
    forall k | 0 <= k < |es|
      ensures SameEntry(es[k], fs[p[k]])
    {
      EntrySameAsItself(es[k]);
    }
    assert Permutation(p, |es|) && Matched(es, fs, p);
  }

  lemma {:induction false} CanonMembers(es: seq<Entry>, fs: seq<Entry>)
    requires Canon(Map(es)) == Canon(Map(fs))
    ensures multiset(CanonEach(es)) == multiset(CanonEach(fs))
  {
    hide SortEntries;
    SortKeepsMembers(CanonEach(es));
    SortKeepsMembers(CanonEach(fs));
  }

  /** A reordering inside one entry of a map shows. */
  lemma {:induction false} EntryShows(es: seq<Entry>, i: nat, f: Entry)
    requires i < |es| && InRange(Map(es)) && EntryInRange(f)
    requires SameEntry(es[i], f) && CanonEntry(es[i]) != CanonEntry(f)
    ensures var r := Map(es[i := f]);
      InRange(r) && SameUpToOrder(Map(es), r) && Encode(r) != Encode(Map(es))
  {
    hide Encode, InRange, SameEntry, CanonEntry, Canon, SameUpToOrder, EntryInRange;
    var fs := es[i := f];
    MapInRange(es, i, f);
    EntryReorders(es, i, f);
    SameCanon(Map(es), Map(fs));
    assert CanonEach(fs) == CanonEach(es)[i := CanonEntry(f)];
    OneDiffers(CanonEach(es), i, CanonEntry(f));
    if Canon(Map(es)) == Canon(Map(fs)) {
      CanonMembers(es, fs);
    }
  }

  lemma {:induction false} OneDiffers(s: seq<Entry>, i: nat, x: Entry)
    requires i < |s| && s[i] != x
    ensures multiset(s[i := x]) != multiset(s)
  {
    assert multiset(s[i := x])[x] == multiset(s)[x] + 1;
  }

  function Swapped(es: seq<Entry>, i: nat, j: nat): (r: seq<Entry>)
    requires i < j < |es|
    ensures |r| == |es|
  {
    es[i := es[j]][j := es[i]]
  }

  lemma {:induction false} SwapReorders(es: seq<Entry>, i: nat, j: nat)
    requires i < j < |es|
    ensures SameUpToOrder(Map(es), Map(Swapped(es, i, j)))
  {
    hide SameEntry;
    var fs := Swapped(es, i, j);
    var p: seq<nat> := seq(|es|, k requires 0 <= k => if k == i then j else if k == j then i else k);
    forall k | 0 <= k < |es|
      ensures SameEntry(es[k], fs[p[k]])
    {
      EntrySameAsItself(es[k]);
    }
    assert Permutation(p, |es|) && Matched(es, fs, p);
  }

  /** Swapping two different values under one key changes the list of its values. */
  lemma {:induction false} SwapChangesUnder(a: seq<Entry>, i: nat, j: nat)
    requires i < j < |a| && a[i].key == a[j].key && a[i].val != a[j].val
    ensures Under(Swapped(a, i, j), a[i].key) != Under(a, a[i].key)
  {
    hide Under;
    var b, key := Swapped(a, i, j), a[i].key;
    assert a == a[..i] + ([a[i]] + a[i + 1..]) && b == a[..i] + ([a[j]] + b[i + 1..]);
    UnderSplit(a[..i], [a[i]] + a[i + 1..], key);
    UnderSplit(a[..i], [a[j]] + b[i + 1..], key);
    UnderSplit([a[i]], a[i + 1..], key);
    UnderSplit([a[j]], b[i + 1..], key);
    UnderOne(a[i], key);
    UnderOne(a[j], key);
    assert Under(a, key)[|Under(a[..i], key)|] == a[i].val && Under(b, key)[|Under(a[..i], key)|] == a[j].val;
  }

  lemma {:induction false} CanonUnder(es: seq<Entry>, fs: seq<Entry>, key: Value)
    requires Canon(Map(es)) == Canon(Map(fs))
    ensures Under(CanonEach(es), key) == Under(CanonEach(fs), key)
  {
    hide SortEntries, Under;
    SortUnder(CanonEach(es), key);
    SortUnder(CanonEach(fs), key);
  }

  lemma {:induction false} SwapInRange(es: seq<Entry>, i: nat, j: nat)
    requires i < j < |es| && InRange(Map(es))
    ensures EntryInRange(es[i]) && EntryInRange(es[j]) && InRange(Map(Swapped(es, i, j)))
  {
    assert EntryInRange(es[i]) && EntryInRange(es[j]);
    MapInRange(es, i, es[j]);
    MapInRange(es[i := es[j]], j, es[i]);
  }

  /** Two entries with one key and different values: swapping them shows. */
  lemma {:induction false} SwapShows(es: seq<Entry>, i: nat, j: nat)
    requires i < j < |es| && InRange(Map(es))
    requires Encode(es[i].key) == Encode(es[j].key) && Encode(es[i].val) != Encode(es[j].val)
    ensures var r := Map(Swapped(es, i, j));
      InRange(r) && SameUpToOrder(Map(es), r) && Encode(r) != Encode(Map(es))
  {
    hide Encode, Under, Canon, InRange, SameUpToOrder;
    var fs, a := Swapped(es, i, j), CanonEach(es);
    SwapReorders(es, i, j);
    SwapInRange(es, i, j);
    SameCanon(es[i].key, es[j].key);
    SameCanon(es[i].val, es[j].val);
    SameCanon(Map(es), Map(fs));
    SwapChangesUnder(a, i, j);
    assert CanonEach(fs) == Swapped(a, i, j);
    if Canon(Map(es)) == Canon(Map(fs)) {
      CanonUnder(es, fs, a[i].key);
    }
  }

  /** A key with two values, anywhere in a value, gives a reordering with different bytes. */
  lemma {:induction false} RepeatShows(v: Value) returns (w: Value)
    requires InRange(v) && !RepeatsAgree(v)
    ensures InRange(w) && SameUpToOrder(v, w) && Encode(w) != Encode(v)
    decreases v
  {
    hide Encode, SameUpToOrder;
    match v
    case Array(items) =>
      var i :| 0 <= i < |items| && !RepeatsAgree(items[i]);
      var x := RepeatShows(items[i]);
      ArrayShows(items, i, x);
      w := Array(items[i := x]);
    case Map(es) =>
      if i, j :| 0 <= i < j < |es| && Encode(es[i].key) == Encode(es[j].key) && Encode(es[i].val) != Encode(es[j].val) {
        SwapShows(es, i, j);
        w := Map(Swapped(es, i, j));
      } else {
        assert KeysAgree(es);
        var i :| 0 <= i < |es| && !EntryAgrees(es[i]);
        w := EntryRepeatShows(v, i);
      }
  }

  lemma {:induction false} EntryRepeatShows(v: Value, i: nat) returns (w: Value)
    requires v.Map? && i < |v.entries| && InRange(v) && !EntryAgrees(v.entries[i])
    ensures InRange(w) && SameUpToOrder(v, w) && Encode(w) != Encode(v)
    decreases v, 0
  {
    hide Encode, SameUpToOrder;
    var es := v.entries;
    var e := es[i];
    assert e < v && EntryInRange(e);
    var f: Entry;
    if !RepeatsAgree(e.key) {
      var x := RepeatShows(e.key);
      SameCanon(e.key, x);
      SameAsItself(e.val);
      f := Entry(x, e.val);
    } else {
      var x := RepeatShows(e.val);
      SameCanon(e.val, x);
      SameAsItself(e.key);
      f := Entry(e.key, x);
    }
    EntryShows(es, i, f);
    w := Map(es[i := f]);
  }

  /**
   The order of map entries, at any depth, is irrelevant to the bytes if and only if no map gives one key two
   different values.
   */
  lemma {:induction false} OrderIsIrrelevantIff(v: Value)
    requires InRange(v)
    ensures (forall w :: SameUpToOrder(v, w) ==> Encode(w) == Encode(v)) <==> RepeatsAgree(v)
  {
    hide Encode, SameUpToOrder, RepeatsAgree, InRange;
    if RepeatsAgree(v) {
      forall w | SameUpToOrder(v, w)
        ensures Encode(w) == Encode(v)
      {
        OrderIsIrrelevant(v, w);
      }
    } else {
      var w := RepeatShows(v);
    }
  }

  /** Such maps exist: one key, two values. */
  lemma {:induction false} RepeatedKeyShows()
    ensures var a, b := Entry(Int(0), Int(1)), Entry(Int(0), Int(2));
      SameUpToOrder(Map([a, b]), Map([b, a])) && Encode(Map([a, b])) != Encode(Map([b, a]))
  {
    var a, b := Entry(Int(0), Int(1)), Entry(Int(0), Int(2));
    assert EntryInRange(a) && EntryInRange(b);
    SameCanon(Int(1), Int(2));
    SwapShows([a, b], 0, 1);
    assert Swapped([a, b], 0, 1) == [b, a];
  }
}
