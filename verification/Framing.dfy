/**
 The wire format of both directions of the connection: a 4-byte big-endian length followed by
 that many payload bytes.  The payloads themselves (MessagePack maps) stay abstract byte strings.
 */
module Framing {
  import opened Prelude

  type Byte = b: int | 0 <= b < 256
  type Bytes = seq<Byte>

  const PREFIX_LENGTH := 4
  const LENGTH_LIMIT := 0x1_0000_0000

  /** Big-endian encoding of a length; the server's cast to u32 drops what does not fit. */
  function EncodeLength(n: nat): (b: Bytes)
    ensures |b| == PREFIX_LENGTH
  {
    var m := n % LENGTH_LIMIT;
    [m / 0x100_0000, m / 0x1_0000 % 256, m / 256 % 256, m % 256]
  }

  function DecodeLength(b: Bytes): (n: nat)
    requires |b| == PREFIX_LENGTH
    ensures n < LENGTH_LIMIT
  {
    (b[0] as int) * 0x100_0000 + (b[1] as int) * 0x1_0000 + (b[2] as int) * 256 + b[3] as int
  }

  lemma DecodeEncodeLength(n: nat)
    ensures DecodeLength(EncodeLength(n)) == n % LENGTH_LIMIT
  {
    var m := n % LENGTH_LIMIT;
    assert m / 256 == (m / 0x1_0000) * 256 + m / 256 % 256;
    assert m / 0x1_0000 == (m / 0x100_0000) * 256 + m / 0x1_0000 % 256;
  }

  lemma EncodeDecodeLength(b: Bytes)
    requires |b| == PREFIX_LENGTH
    ensures EncodeLength(DecodeLength(b)) == b
  {
    var m := DecodeLength(b);
    assert m / 256 == (b[0] as int) * 0x1_0000 + (b[1] as int) * 256 + b[2] as int;
    assert m / 0x1_0000 == (b[0] as int) * 256 + b[1] as int;
    assert m / 0x100_0000 == b[0];
  }

  /** The most significant byte comes first. */
  lemma LengthIsBigEndian(a: Byte, b: Byte, c: Byte, d: Byte)
    ensures DecodeLength([a, b, c, d]) == a * 16777216 + b * 65536 + c * 256 + d
    ensures EncodeLength(a * 16777216 + b * 65536 + c * 256 + d) == [a, b, c, d]
  {
    EncodeDecodeLength([a, b, c, d]);
  }

  function Frame(payload: Bytes): Bytes {
    EncodeLength(|payload|) + payload
  }

  /** Four bytes of length come before the payload. */
  lemma FrameLayout(payload: Bytes)
    requires |payload| < 0x1_0000_0000
    ensures |Frame(payload)| == 4 + |payload| && Frame(payload)[4..] == payload
    ensures DecodeLength(Frame(payload)[..4]) == |payload|
  {
    DecodeEncodeLength(|payload|);
    assert Frame(payload)[..4] == EncodeLength(|payload|);
  }

  /** The bytes that a sequence of frames puts on the wire. */
  function Stream(payloads: seq<Bytes>): Bytes {
    if payloads == [] then [] else Frame(payloads[0]) + Stream(payloads[1..])
  }

  predicate Frameable(payloads: seq<Bytes>) {
    forall i :: 0 <= i < |payloads| ==> |payloads[i]| < LENGTH_LIMIT
  }

  /** The payload at the front of the buffer, once all of it has arrived. */
  function TryRead(buffer: Bytes): (r: Option<Bytes>)
    ensures r.Some? ==> PREFIX_LENGTH + |r.value| <= |buffer| && |r.value| < LENGTH_LIMIT
  {
    if |buffer| < PREFIX_LENGTH then None
    else
      var end := PREFIX_LENGTH + DecodeLength(buffer[..PREFIX_LENGTH]);
      if |buffer| < end then None else Some(buffer[PREFIX_LENGTH..end])
  }

  /** What remains of the buffer after its first frame. */
  function Rest(buffer: Bytes): Bytes
    requires TryRead(buffer).Some?
  {
    buffer[PREFIX_LENGTH + |TryRead(buffer).value|..]
  }

  /** All complete payloads in a buffer, front to back. */
  function Messages(buffer: Bytes): seq<Bytes>
    decreases |buffer|
  {
    if TryRead(buffer).None? then [] else [TryRead(buffer).value] + Messages(Rest(buffer))
  }

  /** The incomplete frame left after all complete ones. */
  function Remainder(buffer: Bytes): Bytes
    decreases |buffer|
  {
    if TryRead(buffer).None? then buffer else Remainder(Rest(buffer))
  }

  /** A frame is read back as its own payload exactly when its length fits the prefix. */
  lemma ReadFrame(payload: Bytes, tail: Bytes)
    ensures TryRead(Frame(payload) + tail) == Some(payload) <==> |payload| < LENGTH_LIMIT
    ensures |payload| < LENGTH_LIMIT ==> Rest(Frame(payload) + tail) == tail
  {
    var buffer := Frame(payload) + tail;
    assert buffer[..PREFIX_LENGTH] == EncodeLength(|payload|);
    DecodeEncodeLength(|payload|);
    if |payload| < LENGTH_LIMIT {
      assert buffer[PREFIX_LENGTH..PREFIX_LENGTH + |payload|] == payload;
      assert buffer[PREFIX_LENGTH + |payload|..] == tail;
    }
  }

  /** Reading loses nothing: the front frame and the rest make up the buffer again. */
  lemma FrameOfRead(buffer: Bytes)
    requires TryRead(buffer).Some?
    ensures Frame(TryRead(buffer).value) + Rest(buffer) == buffer
  {
    EncodeDecodeLength(buffer[..PREFIX_LENGTH]);
  }

  /** A payload is returned exactly when its own whole frame is at the front of the buffer. */
  lemma ReadsWhatWasFramed(buffer: Bytes, payload: Bytes)
    ensures TryRead(buffer) == Some(payload) <==> |payload| < LENGTH_LIMIT && Frame(payload) <= buffer
  {
    if |payload| < LENGTH_LIMIT && Frame(payload) <= buffer {
      var tail := buffer[|Frame(payload)|..];
      assert buffer == Frame(payload) + tail;
      ReadFrame(payload, tail);
    } else if TryRead(buffer) == Some(payload) {
      FrameOfRead(buffer);
    }
  }

  lemma {:induction false} StreamAppend(xs: seq<Bytes>, ys: seq<Bytes>)
    ensures Stream(xs + ys) == Stream(xs) + Stream(ys)
  {
    if xs == [] {
      assert xs + ys == ys;
    } else {
      assert (xs + ys)[1..] == xs[1..] + ys;
      StreamAppend(xs[1..], ys);
    }
  }

  lemma StreamSnoc(xs: seq<Bytes>, y: Bytes)
    ensures Stream(xs + [y]) == Stream(xs) + Frame(y)
  {
    StreamAppend(xs, [y]);
    assert Stream([y]) == Frame(y) + Stream([]);
  }

  /** Parsing inverts framing, whatever incomplete frame follows. */
  lemma {:induction false} MessagesOfStream(payloads: seq<Bytes>, tail: Bytes)
    requires Frameable(payloads) && TryRead(tail).None?
    ensures Messages(Stream(payloads) + tail) == payloads
    ensures Remainder(Stream(payloads) + tail) == tail
  {
    if payloads == [] {
      assert Stream(payloads) + tail == tail;
    } else {
      var more := Stream(payloads[1..]) + tail;
      assert Stream(payloads) + tail == Frame(payloads[0]) + more;
      ReadFrame(payloads[0], more);
      MessagesOfStream(payloads[1..], tail);
    }
  }

  /** Framing inverts parsing on every buffer, including ones no sender produced. */
  lemma {:induction false} StreamOfMessages(buffer: Bytes)
    ensures Stream(Messages(buffer)) + Remainder(buffer) == buffer
    ensures Frameable(Messages(buffer)) && TryRead(Remainder(buffer)).None?
    decreases |buffer|
  {
    if TryRead(buffer).Some? {
      FrameOfRead(buffer);
      StreamOfMessages(Rest(buffer));
      assert Stream(Messages(buffer)) == Frame(TryRead(buffer).value) + Stream(Messages(Rest(buffer)));
    }
  }

  /** Framing is uniquely decodable: a byte prefix made of whole frames is a prefix of the frames. */
  lemma {:induction false} StreamPrefix(xs: seq<Bytes>, ys: seq<Bytes>, tail: Bytes)
    requires Frameable(xs) && Frameable(ys)
    requires Stream(xs) + tail <= Stream(ys)
    ensures xs <= ys
  {
    if xs != [] {
      assert |Frame(xs[0])| > 0;
      var gap := Stream(ys)[|Stream(xs) + tail|..];
      assert Stream(ys) == Frame(xs[0]) + (Stream(xs[1..]) + tail + gap);
      ReadFrame(xs[0], Stream(xs[1..]) + tail + gap);
      ReadFrame(ys[0], Stream(ys[1..]));
      assert Stream(ys[1..]) == Stream(xs[1..]) + tail + gap;
      StreamPrefix(xs[1..], ys[1..], tail);
      assert xs == [xs[0]] + xs[1..] && ys == [ys[0]] + ys[1..];
    }
  }

  /** How the bytes are split into chunks does not matter: parsing resumes from the remainder. */
  lemma ChunkIndependence(first: Bytes, second: Bytes)
    ensures Messages(first + second) == Messages(first) + Messages(Remainder(first) + second)
    ensures Remainder(first + second) == Remainder(Remainder(first) + second)
  {
    StreamOfMessages(first);
    var joined := Remainder(first) + second;
    StreamOfMessages(joined);
    var all := Messages(first) + Messages(joined);
    assert Stream(all) + Remainder(joined) == first + second by {
      StreamAppend(Messages(first), Messages(joined));
      AppendAssociative(Stream(Messages(first)), Stream(Messages(joined)), Remainder(joined));
      AppendAssociative(Stream(Messages(first)), Remainder(first), second);
    }
    MessagesOfStream(all, Remainder(joined));
  }
}
