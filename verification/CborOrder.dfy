/** Bytewise order: a total order, heads ordered as their arguments, and what the stable key sort does. */
module CborOrder {
  import opened Basics
  import opened Cbor

  // ---------------------------------------------------------------- a total order

  lemma {:induction false} LexTotal(a: seq<byte>, b: seq<byte>)
    ensures LexLess(a, b) || LexLess(b, a) || a == b
    ensures !(LexLess(a, b) && LexLess(b, a)) && !LexLess(a, a)
  {
    if a != [] {
      LexTotal(a[1..], a[1..]);
      if b != [] && a[0] == b[0] {
        LexTotal(a[1..], b[1..]);
        assert a == [a[0]] + a[1..] && b == [b[0]] + b[1..];
      }
    }
  }

  lemma {:induction false} LexTransitive(a: seq<byte>, b: seq<byte>, c: seq<byte>)
    requires LexLess(a, b) && LexLess(b, c)
    ensures LexLess(a, c)
  {
    if a != [] && a[0] == b[0] == c[0] {
      LexTransitive(a[1..], b[1..], c[1..]);
    }
  }

  lemma {:induction false} AtMostTransitive(a: seq<byte>, b: seq<byte>, c: seq<byte>)
    requires LexAtMost(a, b) && LexAtMost(b, c)
    ensures LexAtMost(a, c)
  {
    LexTotal(a, b);
    LexTotal(b, c);
    if LexLess(c, a) {
      if a == b || b == c {
      } else {
        LexTransitive(a, b, c);
        LexTotal(a, c);
      }
    }
  }

  /** Big-endian numbers of one width are ordered as their values. */
  lemma {:induction false} BigEndianOrder(n: nat, a: nat, b: nat)
    requires a < Pow256(n) && b < Pow256(n)
    ensures LexLess(BigEndian(n, a), BigEndian(n, b)) <==> a < b
  {
    if n > 0 {
      var p := Pow256(n - 1);
      assert a / 256 < p && b / 256 < p;
      BigEndianOrder(n - 1, a / 256, b / 256);
      LexSnoc(BigEndian(n - 1, a / 256), a % 256, BigEndian(n - 1, b / 256), b % 256);
      if BigEndian(n - 1, a / 256) == BigEndian(n - 1, b / 256) {
        ReadBackExact(n - 1, a / 256);
        ReadBackExact(n - 1, b / 256);
      } else {
        LexTotal(BigEndian(n - 1, a / 256), BigEndian(n - 1, b / 256));
      }
    } else {
      assert Pow256(0) == 1;
    }
  }

  lemma {:induction false} LexSnoc(a: seq<byte>, x: byte, b: seq<byte>, y: byte)
    requires |a| == |b|
    ensures LexLess(a + [x], b + [y]) <==> LexLess(a, b) || (a == b && x < y)
  {
    if a == [] {
      assert (a + [x])[1..] == [] && (b + [y])[1..] == [];
    } else {
      assert (a + [x])[1..] == a[1..] + [x] && (b + [y])[1..] == b[1..] + [y];
      LexSnoc(a[1..], x, b[1..], y);
      assert a[0] == b[0] && a[1..] == b[1..] ==> a == [a[0]] + a[1..] == b;
    }
  }

  function Width(arg: nat): nat {
    if arg < 24 then 0 else if arg < 256 then 1 else if arg < TWO_16 then 2 else if arg < TWO_32 then 4 else 8
  }

  function LeadByte(major: nat, arg: nat): byte
    requires major < 8
  {
    major * 32 + if arg < 24 then arg else if arg < 256 then 24 else if arg < TWO_16 then 25 else if arg < TWO_32 then 26 else 27
  }

  lemma {:induction false} HeadShape(major: nat, arg: nat)
    requires major < 8 && arg < TWO_64
    ensures Head(major, arg) == [LeadByte(major, arg)] + BigEndian(Width(arg), arg)
    ensures arg >= 24 ==> arg < Pow256(Width(arg))
  {
    Pow256Values();
  }

  /** Heads of one major type are ordered as their arguments, across all five widths. */
  lemma {:induction false} HeadOrder(major: nat, a: nat, b: nat)
    requires major < 8 && a < TWO_64 && b < TWO_64
    ensures LexLess(Head(major, a), Head(major, b)) <==> a < b
  {
    hide Head;
    HeadShape(major, a);
    HeadShape(major, b);
    assert Head(major, a)[1..] == BigEndian(Width(a), a) && Head(major, b)[1..] == BigEndian(Width(b), b);
    if LeadByte(major, a) == LeadByte(major, b) && a >= 24 {
      BigEndianOrder(Width(a), a, b);
    }
  }

  // ---------------------------------------------------------------- the key sort

  lemma {:induction false} InsertSorted(items: seq<Item>, x: Item)
    requires SortedByKey(items)
    ensures SortedByKey(InsertItem(items, x))
    ensures multiset(InsertItem(items, x)) == multiset(items) + multiset{x}
  {
    hide LexLess;
    if items == [] || LexAtMost(items[|items| - 1].kb, x.kb) {
      forall i | 0 <= i < |items|
        ensures LexAtMost(items[i].kb, x.kb)
      {
        if i < |items| - 1 {
          AtMostTransitive(items[i].kb, items[|items| - 1].kb, x.kb);
        }
      }
    } else {
      var init, last := items[..|items| - 1], items[|items| - 1];
      InsertSorted(init, x);
      assert items == init + [last];
      var r := InsertItem(init, x);
      forall i | 0 <= i < |r|
        ensures LexAtMost(r[i].kb, last.kb)
      {
        assert r[i] in multiset(r);
        LexTotal(x.kb, last.kb);
      }
    }
  }

  /** The emitted keys are bytewise sorted, and nothing is lost or invented. */
  lemma {:induction false} SortSorts(items: seq<Item>)
    ensures SortedByKey(SortItems(items)) && multiset(SortItems(items)) == multiset(items)
  {
    if items != [] {
      var init, last := items[..|items| - 1], items[|items| - 1];
      SortSorts(init);
      InsertSorted(SortItems(init), last);
      assert items == init + [last];
    }
  }

  /** What a map's encoding looks like: a head and all its entries, ordered by their key bytes. */
  lemma {:induction false} MapIsSorted(entries: seq<Entry>)
    ensures exists items ::
      && Encode(Map(entries)) == Head(5, |entries| % TWO_64) + Emit(items)
      && SortedByKey(items) && multiset(items) == multiset(EncodeEntries(entries))
  {
    SortSorts(EncodeEntries(entries));
    var items := SortItems(EncodeEntries(entries));
    assert Encode(Map(entries)) == Head(5, |entries| % TWO_64) + Emit(items);
  }

  /** Items that share their key bytes are the same item. */
  ghost predicate SingleValued(items: seq<Item>) {
    forall x, y :: x in items && y in items && x.kb == y.kb ==> x == y
  }

  lemma {:induction false} SameMembers(a: seq<Item>, b: seq<Item>)
    requires multiset(a) == multiset(b)
    ensures forall x :: x in a <==> x in b
  {
    forall x
      ensures x in a <==> x in b
    {
      assert x in multiset(a) <==> x in multiset(b);
    }
  }

  lemma {:induction false} TailMembers(a: seq<Item>)
    requires a != []
    ensures multiset(a[1..]) == multiset(a) - multiset{a[0]}
  {
    assert a == [a[0]] + a[1..];
  }

  /** Two sorted lists of the same items are the same list when no key has two values. */
  lemma {:induction false} SortedIsUnique(a: seq<Item>, b: seq<Item>)
    requires SortedByKey(a) && SortedByKey(b) && multiset(a) == multiset(b) && SingleValued(a)
    ensures a == b
  {
    hide LexAtMost;
    assert |multiset(a)| == |multiset(b)|;
    if a == [] {
    } else {
      SameMembers(a, b);
      FirstKeys(a, b);
      assert a[0] in a && b[0] in a;
      TailMembers(a);
      TailMembers(b);
      SortedIsUnique(a[1..], b[1..]);
    }
  }

  lemma {:induction false} FirstKeys(a: seq<Item>, b: seq<Item>)
    requires a != [] && b != [] && SortedByKey(a) && SortedByKey(b) && forall x :: x in a <==> x in b
    ensures a[0].kb == b[0].kb
  {
    assert a[0] in b && b[0] in a;
    LexTotal(a[0].kb, b[0].kb);
  }

  /** The sort forgets the original order when no key has two values. */
  lemma {:induction false} SortForgetsOrder(a: seq<Item>, b: seq<Item>)
    requires multiset(a) == multiset(b) && SingleValued(a)
    ensures SortItems(a) == SortItems(b)
  {
    SortSorts(a);
    SortSorts(b);
    SameMembers(a, SortItems(a));
    SortedIsUnique(SortItems(a), SortItems(b));
  }
}
