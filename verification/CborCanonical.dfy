/** What the canonical encoding promises: unique readability, shortest heads, and independence of map-entry order. */
module CborCanonical {
  import opened Basics
  import opened Cbor
  import opened CborOrder
  import opened CborReading

  // ---------------------------------------------------------------- equality up to the order of map entries

  ghost predicate Permutation(p: seq<nat>, n: nat) {
    |p| == n && NoDuplicates(p) && forall i :: 0 <= i < n ==> p[i] < n
  }

  ghost predicate SameUpToOrder(v: Value, w: Value)
    decreases v, 1
  {
    match (v, w)
    case (Array(a), Array(b)) => |a| == |b| && forall i :: 0 <= i < |a| ==> SameUpToOrder(a[i], b[i])
    case (Map(a), Map(b)) => |a| == |b| && exists p :: Permutation(p, |a|) && Matched(a, b, p)
    case _ => v == w
  }

  ghost predicate Matched(a: seq<Entry>, b: seq<Entry>, p: seq<nat>)
    requires Permutation(p, |a|) && |a| == |b|
    decreases a, 0
  {
    forall i :: 0 <= i < |a| ==> SameEntry(a[i], b[p[i]])
  }

  ghost predicate SameEntry(e: Entry, f: Entry)
    decreases e, 0
  {
    SameUpToOrder(e.key, f.key) && SameUpToOrder(e.val, f.val)
  }

  lemma {:induction false} Onto(p: seq<nat>, n: nat, k: nat)
    requires Permutation(p, n) && k < n
    ensures exists i :: 0 <= i < n && p[i] == k
  {
    var hit: set<nat> := set x | x in p;
    DistinctCount(p, hit);
    AllIndices(hit, n);
    assert k in p;
  }

  /** The permutation that undoes `q` after doing `p`. */
  lemma {:induction false} MatchThrough(p: seq<nat>, q: seq<nat>, n: nat) returns (r: seq<nat>)
    requires Permutation(p, n) && Permutation(q, n)
    ensures Permutation(r, n) && forall i :: 0 <= i < n ==> q[r[i]] == p[i]
  {
    forall i | 0 <= i < n
      ensures exists j :: 0 <= j < n && q[j] == p[i]
    {
      Onto(q, n, p[i]);
    }
    r := seq(n, i requires 0 <= i < n => var j: nat :| j < n && q[j] == p[i]; j);
  }

  /** Two values that agree with a third up to order agree with each other. */
  lemma {:induction false} AgreeThrough(v: Value, w: Value, c: Value)
    requires SameUpToOrder(v, c) && SameUpToOrder(w, c)
    ensures SameUpToOrder(v, w)
    decreases v
  {
    match v
    case Array(a) =>
      forall i | 0 <= i < |a|
        ensures SameUpToOrder(a[i], w.items[i])
      {
        AgreeThrough(a[i], w.items[i], c.items[i]);
      }
    case Map(a) =>
      var b, es := w.entries, c.entries;
      var p :| Permutation(p, |a|) && Matched(a, es, p);
      var q :| Permutation(q, |b|) && Matched(b, es, q);
      var r := MatchThrough(p, q, |a|);
      forall i | 0 <= i < |a|
        ensures SameEntry(a[i], b[r[i]])
      {
        assert a[i] < v;
        assert SameEntry(a[i], es[p[i]]) && SameEntry(b[r[i]], es[q[r[i]]]);
        AgreeThrough(a[i].key, b[r[i]].key, es[p[i]].key);
        AgreeThrough(a[i].val, b[r[i]].val, es[p[i]].val);
      }
      assert Matched(a, b, r);
    case _ =>
  }

  // ---------------------------------------------------------------- canonical order is a reordering

  /** Where the insertion of `x` puts the old elements and `x` itself. */
  lemma {:induction false} InsertMoves(es: seq<Entry>, x: Entry) returns (k: nat)
    ensures k <= |es| && InsertEntry(es, x) == es[..k] + [x] + es[k..]
  {
    hide LexLess;
    if es == [] || LexAtMost(Encode(es[|es| - 1].key), Encode(x.key)) {
      k := |es|;
    } else {
      k := InsertMoves(es[..|es| - 1], x);
      assert es[k..] == es[..|es| - 1][k..] + [es[|es| - 1]];
    }
  }

  lemma {:induction false} InsertKeepsMembers(s: seq<Entry>, e: Entry)
    ensures multiset(InsertEntry(s, e)) == multiset(s) + multiset{e}
  {
    hide InsertEntry;
    var k := InsertMoves(s, e);
    assert s == s[..k] + s[k..];
  }

  lemma {:induction false} SortKeepsMembers(es: seq<Entry>)
    ensures multiset(SortEntries(es)) == multiset(es)
  {
    hide InsertEntry;
    if es != [] {
      var init, last := es[..|es| - 1], es[|es| - 1];
      SortKeepsMembers(init);
      InsertKeepsMembers(SortEntries(init), last);
      assert es == init + [last];
      assert multiset(es) == multiset(init) + multiset{last};
    }
  }

  function Shifted(q: seq<nat>, k: nat): (p: seq<nat>) {
    seq(|q|, i requires 0 <= i < |q| => if q[i] < k then q[i] else q[i] + 1) + [k]
  }

  lemma {:induction false} ShiftedPermutes(q: seq<nat>, n: nat, k: nat)
    requires Permutation(q, n) && k <= n
    ensures Permutation(Shifted(q, k), n + 1)
  {
  }

  lemma {:induction false} SortMoves(es: seq<Entry>) returns (p: seq<nat>)
    ensures Permutation(p, |es|) && forall i :: 0 <= i < |es| ==> SortEntries(es)[p[i]] == es[i]
  {
    hide InsertEntry, NoDuplicates;
    if es == [] {
      p := [];
      EmptyPermutes();
    } else {
      var n := |es| - 1;
      var q := SortMoves(es[..n]);
      var k := InsertMoves(SortEntries(es[..n]), es[n]);
      p := Shifted(q, k);
      ShiftedPermutes(q, n, k);
      forall i | 0 <= i < |es|
        ensures SortEntries(es)[p[i]] == es[i]
      {
        assert i < n ==> SortEntries(es[..n])[q[i]] == es[i];
      }
    }
  }

  lemma {:induction false} EmptyPermutes()
    ensures Permutation([], 0)
  {
  }

  lemma {:induction false} CanonIsReordering(v: Value)
    ensures SameUpToOrder(v, Canon(v))
    decreases v
  {
    match v
    case Array(items) =>
      forall i | 0 <= i < |items|
        ensures SameUpToOrder(items[i], Canon(items[i]))
      {
        CanonIsReordering(items[i]);
      }
    case Map(entries) =>
      forall i | 0 <= i < |entries|
        ensures SameEntry(entries[i], CanonEntry(entries[i]))
      {
        assert entries[i] < v;
        CanonIsReordering(entries[i].key);
        CanonIsReordering(entries[i].val);
      }
      var p := SortMoves(CanonEach(entries));
      assert Matched(entries, SortEntries(CanonEach(entries)), p);
    case _ =>
  }

  // ---------------------------------------------------------------- unique readability

  /**
   Two encodings, each followed by anything, are equal only if the values are equal up to map-entry order and
   so is what follows: the encoding is prefix-free and injective.
   */
  lemma {:induction false} UniquelyReadable(v: Value, w: Value, x: seq<byte>, y: seq<byte>)
    requires InRange(v) && InRange(w) && Encode(v) + x == Encode(w) + y
    ensures x == y && Encode(v) == Encode(w) && SameUpToOrder(v, w)
  {
    hide Encode, Decode, Canon, SameUpToOrder, InRange;
    RoundTrip(v);
    RoundTrip(w);
    assert Decode(Encode(v) + x) == Some(Read(Canon(v), x));
    assert Decode(Encode(w) + y) == Some(Read(Canon(w), y));
    PrefixesOfSum(Encode(v), x, Encode(w), y) by {
      assert |Encode(v) + x| == |Encode(w) + y|;
    }
    CanonIsReordering(v);
    CanonIsReordering(w);
    AgreeThrough(v, w, Canon(v));
  }

  /** The integer that is actually written: the argument of either sign is cast to 64 bits. */
  function Wrapped(i: int): int {
    if i >= 0 then i % TWO_64 else -1 - (-1 - i) % TWO_64
  }

  lemma {:induction false} WrappedModulo(x: nat)
    ensures x % TWO_64 % TWO_64 == x % TWO_64 && (x < TWO_64 <==> x % TWO_64 == x)
  {
    if x < TWO_64 {
      Remainder(x, TWO_64, 0, x);
    }
    Remainder(x % TWO_64, TWO_64, 0, x % TWO_64);
  }

  /** An integer is read back from its encoding exactly when it is in range; any other reads back wrapped. */
  lemma {:induction false} IntegerReadsBackIff(i: int, x: seq<byte>)
    ensures Decode(Encode(Int(i)) + x) == Some(Read(Int(Wrapped(i)), x))
    ensures Wrapped(i) == i <==> InRange(Int(i))
  {
    hide Head, Decode;
    WrappedModulo(if i >= 0 then i else -1 - i);
    var w := Wrapped(i);
    assert InRange(Int(w)) && EncodeInteger(i) == EncodeInteger(w);
    assert Encode(Int(i)) == Encode(Int(w));
    RoundTrip(Int(w));
    assert Canon(Int(w)) == Int(w);
    assert Decode(Encode(Int(w)) + x) == Some(Read(Canon(Int(w)), x));
  }

  // ---------------------------------------------------------------- the order of entries does not matter

  /** At every depth, entries of one map with the same encoded key have the same encoded value. */
  ghost predicate RepeatsAgree(v: Value)
    decreases v, 1
  {
    match v
    case Array(items) => forall i :: 0 <= i < |items| ==> RepeatsAgree(items[i])
    case Map(entries) => KeysAgree(entries) && forall i :: 0 <= i < |entries| ==> EntryAgrees(entries[i])
    case _ => true
  }

  ghost predicate EntryAgrees(e: Entry)
    decreases e, 0
  {
    RepeatsAgree(e.key) && RepeatsAgree(e.val)
  }

  ghost predicate KeysAgree(es: seq<Entry>) {
    forall i, j :: 0 <= i < j < |es| && Encode(es[i].key) == Encode(es[j].key) ==>
      Encode(es[i].val) == Encode(es[j].val)
  }

  lemma {:induction false} PermutedMembers(a: seq<Item>, b: seq<Item>, p: seq<nat>)
    requires |a| == |b| && Permutation(p, |a|) && forall i :: 0 <= i < |a| ==> a[i] == b[p[i]]
    ensures multiset(a) == multiset(b)
  {
    if a != [] {
      var n := |a| - 1;
      var k := p[n];
      var a', b' := a[..n], b[..k] + b[k + 1..];
      var p' := seq(n, i requires 0 <= i < n => if p[i] < k then p[i] else p[i] - 1);
      forall i | 0 <= i < n
        ensures p[i] != k && p'[i] < n && a'[i] == b'[p'[i]]
      {
      }
      assert Permutation(p', n);
      PermutedMembers(a', b', p');
      assert a == a' + [a[n]];
      assert b == b[..k] + [b[k]] + b[k + 1..];
    }
  }

  lemma {:induction false} AgreeAt(es: seq<Entry>, i: nat, j: nat)
    requires KeysAgree(es) && i < |es| && j < |es| && Encode(es[i].key) == Encode(es[j].key)
    ensures EncodeEntry(es[i]) == EncodeEntry(es[j])
  {
    hide Encode;
    if i < j {
      assert Encode(es[i].val) == Encode(es[j].val);
    } else if j < i {
      assert Encode(es[j].val) == Encode(es[i].val);
    }
  }

  lemma {:induction false} AgreeingItems(es: seq<Entry>)
    requires KeysAgree(es)
    ensures SingleValued(EncodeEntries(es))
  {
    hide Encode, KeysAgree;
    var items := EncodeEntries(es);
    forall x, y | x in items && y in items && x.kb == y.kb
      ensures x == y
    {
      var i :| 0 <= i < |items| && items[i] == x;
      var j :| 0 <= j < |items| && items[j] == y;
      AgreeAt(es, i, j);
    }
  }

  lemma {:induction false} ArrayOrder(a: seq<Value>, b: seq<Value>)
    requires |a| == |b| && forall i :: 0 <= i < |a| ==> Encode(a[i]) == Encode(b[i])
    ensures EncodeAll(a) == EncodeAll(b)
  {
    hide Encode;
    if a != [] {
      ArrayOrder(a[1..], b[1..]);
    }
  }

  /** Reordering the entries of maps, at any depth, leaves the bytes unchanged unless a key has two values. */
  lemma {:induction false} OrderIsIrrelevant(v: Value, w: Value)
    requires RepeatsAgree(v) && SameUpToOrder(v, w)
    ensures Encode(v) == Encode(w)
    decreases v
  {
    hide Encode, KeysAgree;
    match v
    case Array(a) =>
      forall i | 0 <= i < |a|
        ensures Encode(a[i]) == Encode(w.items[i])
      {
        OrderIsIrrelevant(a[i], w.items[i]);
      }
      ArrayBytes(a, w.items);
    case Map(a) =>
      var b := w.entries;
      var p :| Permutation(p, |a|) && Matched(a, b, p);
      forall i | 0 <= i < |a|
        ensures EncodeEntry(a[i]) == EncodeEntry(b[p[i]])
      {
        assert a[i] < v && EntryAgrees(a[i]) && SameEntry(a[i], b[p[i]]);
        OrderIsIrrelevant(a[i].key, b[p[i]].key);
        OrderIsIrrelevant(a[i].val, b[p[i]].val);
      }
      PermutedMembers(EncodeEntries(a), EncodeEntries(b), p);
      AgreeingItems(a);
      SortForgetsOrder(EncodeEntries(a), EncodeEntries(b));
      MapBytes(a, b);
    case _ =>
  }

  lemma {:induction false} ArrayBytes(a: seq<Value>, b: seq<Value>)
    requires |a| == |b| && forall i :: 0 <= i < |a| ==> Encode(a[i]) == Encode(b[i])
    ensures Encode(Array(a)) == Encode(Array(b))
  {
    ArrayOrder(a, b);
  }

  lemma {:induction false} MapBytes(a: seq<Entry>, b: seq<Entry>)
    requires |a| == |b| && SortItems(EncodeEntries(a)) == SortItems(EncodeEntries(b))
    ensures Encode(Map(a)) == Encode(Map(b))
  {
  }

  /** Where no key has two values, the encoding identifies exactly the values that differ in entry order only. */
  lemma {:induction false} CanonicalForm(v: Value, w: Value)
    requires InRange(v) && InRange(w) && RepeatsAgree(v)
    ensures Encode(v) == Encode(w) <==> SameUpToOrder(v, w)
  {
    hide Encode, SameUpToOrder, InRange, RepeatsAgree;
    if Encode(v) == Encode(w) {
      UniquelyReadable(v, w, [], []);
    }
    if SameUpToOrder(v, w) {
      OrderIsIrrelevant(v, w);
    }
  }

  /** At every depth, no two keys of one map are equal up to order. */
  ghost predicate DistinctKeys(v: Value)
    decreases v, 1
  {
    match v
    case Array(items) => forall i :: 0 <= i < |items| ==> DistinctKeys(items[i])
    case Map(entries) =>
      && (forall i, j :: 0 <= i < j < |entries| ==> !SameUpToOrder(entries[i].key, entries[j].key))
      && (forall i :: 0 <= i < |entries| ==> DistinctInEntry(entries[i]))
    case _ => true
  }

  ghost predicate DistinctInEntry(e: Entry)
    decreases e, 0
  {
    DistinctKeys(e.key) && DistinctKeys(e.val)
  }

  /** Maps with distinct keys, the only ones the protocol builds, are among those whose order does not matter. */
  lemma {:induction false} DistinctKeysAgree(v: Value)
    requires InRange(v) && DistinctKeys(v)
    ensures RepeatsAgree(v)
    decreases v
  {
    hide Encode;
    match v
    case Array(items) =>
      forall i | 0 <= i < |items|
        ensures RepeatsAgree(items[i])
      {
        DistinctKeysAgree(items[i]);
      }
    case Map(entries) =>
      forall i | 0 <= i < |entries|
        ensures EntryAgrees(entries[i])
      {
        assert entries[i] < v && EntryInRange(entries[i]) && DistinctInEntry(entries[i]);
        DistinctKeysAgree(entries[i].key);
        DistinctKeysAgree(entries[i].val);
      }
      DistinctKeyBytes(entries);
    case _ =>
  }

  lemma {:induction false} DistinctKeyBytes(es: seq<Entry>)
    requires EntriesInRange(es)
    requires forall i, j :: 0 <= i < j < |es| ==> !SameUpToOrder(es[i].key, es[j].key)
    ensures KeysAgree(es)
  {
    hide Encode, SameUpToOrder;
    forall i, j | 0 <= i < j < |es|
      ensures Encode(es[i].key) != Encode(es[j].key)
    {
      assert EntryInRange(es[i]) && EntryInRange(es[j]);
      if Encode(es[i].key) == Encode(es[j].key) {
        UniquelyReadable(es[i].key, es[j].key, [], []);
      }
    }
  }

  // ---------------------------------------------------------------- shortest heads

  /** Any head with this major type and argument, in any width, is at least as long as the one the encoder writes. */
  lemma {:induction false} HeadIsShortest(b: seq<byte>)
    requires ReadHead(b).Some?
    ensures var h := ReadHead(b).value;
      h.arg < TWO_64 && |Head(h.major, h.arg)| <= |b| - |h.rest|
  {
    var h := ReadHead(b).value;
    Pow256Values();
    HeadShape(h.major, h.arg);
  }
}
