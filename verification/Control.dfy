/** Control-stream framing: length-prefixed canonical CBOR `[msg_type, body]`, the message registry, and `read_frame`. */
module Control {
  import opened Basics
  import opened Cbor
  import CborReading

  const MAX_FRAME_BODY: nat := 65536

  const HELLO: nat := 0x01
  const WELCOME: nat := 0x02
  const CONFIG: nat := 0x03
  const CONFIG_ACK: nat := 0x04
  const START: nat := 0x05
  const INPUT: nat := 0x10
  const IDR_REQUEST: nat := 0x20
  const STATS: nat := 0x21
  const VIEWPORT: nat := 0x22
  const CLOCK_PING: nat := 0x30
  const CLOCK_PONG: nat := 0x31
  const ERROR: nat := 0x40
  const BYE: nat := 0x41
  const PAIR_A: nat := 0x50
  const PAIR_B: nat := 0x51
  const PAIR_C: nat := 0x52
  const PAIR_RESULT: nat := 0x53

  /** The body keys defined for a message type; None for an unregistered type. */
  function KnownKeys(msgType: nat): Option<seq<int>> {
    if msgType == HELLO then Some([0, 1, 2, 3, 4, 5])
    else if msgType == WELCOME then Some([0, 1, 2, 3])
    else if msgType == CONFIG then Some([0, 1, 2, 3, 4, 5, 6])
    else if msgType == STATS then Some([0, 1, 2, 3, 4, 5, 6, 7])
    else if msgType == CLOCK_PONG then Some([0, 1, 2])
    else if msgType == START then Some([])
    else if msgType in [INPUT, IDR_REQUEST, ERROR, PAIR_B, PAIR_RESULT] then Some([0, 1])
    else if msgType in [CONFIG_ACK, VIEWPORT, CLOCK_PING, BYE, PAIR_A, PAIR_C] then Some([0])
    else None
  }

  datatype Decoded = Message(msgType: nat, body: seq<Entry>) | Ignored

  datatype Result<+T> = Ok(value: T) | ProtocolViolation

  function Envelope(msgType: nat, body: seq<Entry>): Value {
    Array([Int(msgType), Map(body)])
  }

  /** The length field is a 32-bit cast of the body length. */
  function Frame(msgType: nat, body: seq<Entry>): seq<byte> {
    var cbor := Encode(Envelope(msgType, body));
    BigEndian(4, |cbor| % TWO_32) + cbor
  }

  method EncodeFrame(msgType: nat, body: seq<Entry>) returns (frame: seq<byte>)
    ensures frame == Frame(msgType, body)
  {
    var cbor := ToCanonical(Envelope(msgType, body));
    var out := new ByteVec();
    out.Extend(BigEndian(4, |cbor| % TWO_32));
    out.Extend(cbor);
    frame := out.bytes;
  }

  predicate Kept(e: Entry, keys: seq<int>) {
    e.key.Int? && e.key.i in keys
  }

  function KeepKnown(es: seq<Entry>, keys: seq<int>): seq<Entry> {
    if es == [] then []
    else KeepKnown(es[..|es| - 1], keys) + if Kept(es[|es| - 1], keys) then [es[|es| - 1]] else []
  }

  /** What the decoded CBOR value of a frame body means. */
  function OpenEnvelope(v: Value): Result<Decoded> {
    if !v.Array? || |v.items| != 2 then ProtocolViolation
    else if !v.items[0].Int? || v.items[0].i < 0 || !v.items[1].Map? then ProtocolViolation
    else
      match KnownKeys(v.items[0].i % TWO_64)
      case None => Ok(Ignored)
      case Some(keys) => Ok(Message(v.items[0].i % TWO_64, KeepKnown(v.items[1].entries, keys)))
  }

  function Unframe(bytes: seq<byte>): Result<Decoded> {
    if |bytes| < 4 then ProtocolViolation
    else
      var len := FromBigEndian(bytes[..4]);
      if len > MAX_FRAME_BODY || |bytes| < 4 + len then ProtocolViolation
      else
        match CborReading.Decode(bytes[4..4 + len])
        case None => ProtocolViolation
        case Some(read) => OpenEnvelope(read.value)
  }

  lemma {:induction false} KeepNext(es: seq<Entry>, keys: seq<int>, i: nat)
    requires i < |es|
    ensures KeepKnown([], keys) == [] && es[..0] == []
    ensures KeepKnown(es[..i + 1], keys) == KeepKnown(es[..i], keys) + if Kept(es[i], keys) then [es[i]] else []
  {
    assert es[..i + 1][..i] == es[..i];
  }

  method DecodeFrame(bytes: seq<byte>) returns (r: Result<Decoded>)
    ensures r == Unframe(bytes)
  {
    if |bytes| < 4 {
      return ProtocolViolation;
    }
    var len := FromBigEndian(bytes[..4]);
    if len > MAX_FRAME_BODY || |bytes| < 4 + len {
      return ProtocolViolation;
    }
    var read := CborReading.Decode(bytes[4..4 + len]);
    if read.None? || !read.value.value.Array? || |read.value.value.items| != 2 {
      return ProtocolViolation;
    }
    var items := read.value.value.items;
    if !items[0].Int? || items[0].i < 0 || !items[1].Map? {
      return ProtocolViolation;
    }
    var msgType := items[0].i % TWO_64;
    var allowed := KnownKeys(msgType);
    if allowed.None? {
      return Ok(Ignored);
    }
    var entries := items[1].entries;
    var filtered := [];
    for i := 0 to |entries|
      invariant filtered == KeepKnown(entries[..i], allowed.value)
    {
      KeepNext(entries, allowed.value, i);
      if entries[i].key.Int? && entries[i].key.i in allowed.value {
        filtered := filtered + [entries[i]];
      }
    }
    assert entries[..|entries|] == entries;
    return Ok(Message(msgType, filtered));
  }

  // ---------------------------------------------------------------- reading frames off the stream

  /** One read: a whole frame, the end of the stream between frames, or a transport error. */
  datatype FrameRead = FrameBytes(bytes: seq<byte>) | Eof | Broken

  datatype Taken = Taken(frame: FrameRead, rest: seq<byte>)

  function TakeFrame(stream: seq<byte>): (t: Taken)
    ensures t.frame.FrameBytes? ==> stream == t.frame.bytes + t.rest && t.frame.bytes != []
  {
    if stream == [] then Taken(Eof, [])
    else if |stream| < 4 then Taken(Broken, [])
    else
      var len := FromBigEndian(stream[..4]);
      if len > MAX_FRAME_BODY then Taken(Broken, stream[4..])
      else if |stream| < 4 + len then Taken(Broken, [])
      else Taken(FrameBytes(stream[..4 + len]), stream[4 + len..])
  }

  /** The receive half of the control stream: all bytes the peer will ever send, minus those read. */
  class RecvStream {
    var pending: seq<byte>

    constructor (bytes: seq<byte>)
      ensures pending == bytes
    {
      pending := bytes;
    }

    /** `read_exact`: fills `n` bytes, or consumes what is left and reports how many there were. */
    method ReadExact(n: nat) returns (ok: bool, got: seq<byte>)
      modifies this
      ensures ok == (n <= |old(pending)|)
      ensures got == if ok then old(pending)[..n] else old(pending)
      ensures pending == if ok then old(pending)[n..] else []
    {
      ok := n <= |pending|;
      if ok {
        got, pending := pending[..n], pending[n..];
      } else {
        got, pending := pending, [];
      }
    }

    method ReadFrame() returns (frame: FrameRead)
      modifies this
      ensures Taken(frame, pending) == TakeFrame(old(pending))
    {
      var ok, lenBuf := ReadExact(4);
      if !ok {
        return if lenBuf == [] then Eof else Broken;
      }
      var len := FromBigEndian(lenBuf);
      if len > MAX_FRAME_BODY {
        return Broken;
      }
      var full, body := ReadExact(len);
      if !full {
        return Broken;
      }
      assert old(pending)[..4 + len] == lenBuf + body;
      return FrameBytes(lenBuf + body);
    }
  }
}
