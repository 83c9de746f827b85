/** Truncation is always noticed: what the decoder accepts it accepts with more bytes after it, so no cut encoding decodes. */
module CborTruncation {
  import opened Basics
  import opened Cbor
  import opened CborReading

  lemma {:induction false} HeadExtends(b: seq<byte>, x: seq<byte>)
    requires ReadHead(b).Some?
    ensures ReadHead(b + x).Some?
    ensures var h, e := ReadHead(b).value, ReadHead(b + x).value;
      && e == h.(rest := h.rest + x)
      && (b + x)[1..|b + x| - |e.rest|] == b[1..|b| - |h.rest|]
  {
    var w := ArgumentWidth(b[0] % 32).value;
    assert (b + x)[1..1 + w] == b[1..1 + w];
    assert (b + x)[1 + w..] == b[1 + w..] + x;
  }

  /** A successful read does not look past what it consumes. */
  lemma {:induction false} DecodeExtends(b: seq<byte>, x: seq<byte>)
    requires Decode(b).Some?
    ensures Decode(b + x) == Some(Read(Decode(b).value.value, Decode(b).value.rest + x))
    decreases |b|, 0
  {
    hide ReadHead, DecodeItems, DecodePairs, Simple;
    var h := ReadHead(b).value;
    HeadExtends(b, x);
    if h.major == 2 || h.major == 3 {
      assert (h.rest + x)[..h.arg] == h.rest[..h.arg];
      assert (h.rest + x)[h.arg..] == h.rest[h.arg..] + x;
    } else if h.major == 4 {
      ItemsExtend(h.arg, h.rest, x);
    } else if h.major == 5 {
      PairsExtend(h.arg, h.rest, x);
    } else if h.major == 6 {
      DecodeExtends(h.rest, x);
    }
  }

  lemma {:induction false} ItemsExtend(n: nat, b: seq<byte>, x: seq<byte>)
    requires DecodeItems(n, b).Some?
    ensures DecodeItems(n, b + x) == Some(ReadMany(DecodeItems(n, b).value.values, DecodeItems(n, b).value.rest + x))
    decreases |b|, n + 1
  {
    hide Decode;
    if n > 0 {
      DecodeExtends(b, x);
      ItemsExtend(n - 1, Decode(b).value.rest, x);
    }
  }

  lemma {:induction false} PairsExtend(n: nat, b: seq<byte>, x: seq<byte>)
    requires DecodePairs(n, b).Some?
    ensures DecodePairs(n, b + x)
      == Some(ReadPairs(DecodePairs(n, b).value.entries, DecodePairs(n, b).value.rest + x))
    decreases |b|, n + 1
  {
    hide Decode;
    if n > 0 {
      DecodeExtends(b, x);
      var k := Decode(b).value;
      DecodeExtends(k.rest, x);
      PairsExtend(n - 1, Decode(k.rest).value.rest, x);
    }
  }

  /** No proper prefix of a canonical encoding decodes. */
  lemma {:induction false} NoProperPrefix(v: Value, n: nat)
    requires InRange(v) && n < |Encode(v)|
    ensures Decode(Encode(v)[..n]) == None
  {
    hide Encode, Decode, Canon, InRange;
    var p, tail := Encode(v)[..n], Encode(v)[n..];
    RoundTrip(v);
    assert Decode(Encode(v) + []) == Some(Read(Canon(v), []));
    assert p + tail == Encode(v) + [];
    if Decode(p).Some? {
      DecodeExtends(p, tail);
    }
  }
}
