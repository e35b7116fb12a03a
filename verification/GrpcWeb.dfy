// gRPC-Web framing: a flag byte, a four-byte big-endian length and the payload. The top bit of the
// flag marks a trailers frame and the lowest bit a compressed one.
module GrpcWeb {
  import opened AccountModels

  newtype Byte = x: int | 0 <= x < 256

  type Bytes = seq<Byte>

  type Trailers = map<string, string>

  const LENGTH_LIMIT := 0x1_0000_0000

  function BigEndian(n: nat): (r: Bytes)
    requires n < LENGTH_LIMIT
    ensures |r| == 4
  {
    [(n / 0x100_0000) as Byte, (n / 0x1_0000 % 0x100) as Byte, (n / 0x100 % 0x100) as Byte, (n % 0x100) as Byte]
  }

  function FromBigEndian(b: Bytes): nat
    requires |b| == 4
  {
    b[0] as nat * 0x100_0000 + b[1] as nat * 0x1_0000 + b[2] as nat * 0x100 + b[3] as nat
  }

  lemma LengthRoundTrip(n: nat)
    requires n < LENGTH_LIMIT
    ensures FromBigEndian(BigEndian(n)) == n
    ensures BigEndian(n)[0] as int * 0x100_0000 <= n < (BigEndian(n)[0] as int + 1) * 0x100_0000
  {
    var a, b := n / 0x100, n / 0x1_0000;
    assert a / 0x100 == b && b / 0x100 == n / 0x100_0000;
    assert n == 0x100 * a + n % 0x100 && a == 0x100 * b + a % 0x100 && b == 0x100 * (b / 0x100) + b % 0x100;
  }

  function Frame(flag: Byte, payload: Bytes): Bytes
    requires |payload| < LENGTH_LIMIT
  {
    [flag] + BigEndian(|payload|) + payload
  }

  /** A data frame; packing the length fails when it does not fit. */
  function EncodePayload(data: Bytes): Option<Bytes> {
    if |data| < LENGTH_LIMIT then Some(Frame(0, data)) else None
  }

  // ---------------------------------------------------------------------------
  // The frame loop
  // ---------------------------------------------------------------------------

  predicate IsTrailers(flag: Byte) { flag >= 0x80 }

  predicate IsCompressed(flag: Byte) { flag < 0x80 && flag % 2 == 1 }

  /** A complete frame at the head of the input: its flag, its payload and its size. */
  datatype Head = Head(flag: Byte, payload: Bytes, size: nat)

  function HeadOf(b: Bytes): (h: Option<Head>)
    ensures h.Some? ==> 5 <= h.value.size <= |b| && |h.value.payload| == h.value.size - 5
  {
    if |b| < 5 then None
    else
      var length := FromBigEndian(b[1..5]);
      if |b| - 5 < length then None else Some(Head(b[0], b[5..5 + length], 5 + length))
  }

  datatype Parsed = Parsed(messages: seq<Bytes>, trailers: Trailers)

  function Add(p: Parsed, h: Head, readTrailers: Bytes -> Trailers): Parsed {
    if IsTrailers(h.flag) then p.(trailers := p.trailers + readTrailers(h.payload))
    else p.(messages := p.messages + [h.payload])
  }

  /** None for a compressed frame; an incomplete frame at the end is dropped. */
  function Frames(b: Bytes, p: Parsed, readTrailers: Bytes -> Trailers): Option<Parsed>
    decreases |b|
  {
    match HeadOf(b)
    case None => Some(p)
    case Some(h) => if IsCompressed(h.flag) then None else Frames(b[h.size..], Add(p, h, readTrailers), readTrailers)
  }

  const NOTHING := Parsed([], map[])

  method ParseFrames(b: Bytes, readTrailers: Bytes -> Trailers) returns (r: Option<Parsed>)
    ensures r == Frames(b, NOTHING, readTrailers)
  {
    var messages, trailers, i := [], map[], 0;
    while i < |b|
      invariant 0 <= i <= |b|
      invariant Frames(b[i..], Parsed(messages, trailers), readTrailers) == Frames(b, NOTHING, readTrailers)
    {
      if |b| - i < 5 {
        return Some(Parsed(messages, trailers));
      }
      assert b[i..][1..5] == b[i + 1..i + 5];
      var flag, length := b[i], FromBigEndian(b[i + 1..i + 5]);
      if |b| - (i + 5) < length {
        return Some(Parsed(messages, trailers));
      }
      var payload := b[i + 5..i + 5 + length];
      assert HeadOf(b[i..]) == Some(Head(flag, payload, 5 + length)) by {
        assert b[i..][5..5 + length] == payload;
      }
      assert b[i..][5 + length..] == b[i + 5 + length..];
      if flag >= 0x80 {
        trailers := trailers + readTrailers(payload);
      } else if flag % 2 == 1 {
        return None;
      } else {
        messages := messages + [payload];
      }
      i := i + 5 + length;
    }
    return Some(Parsed(messages, trailers));
  }

  // ---------------------------------------------------------------------------
  // Laws
  // ---------------------------------------------------------------------------

  lemma HeadOfFrame(flag: Byte, payload: Bytes, rest: Bytes)
    requires |payload| < LENGTH_LIMIT
    ensures HeadOf(Frame(flag, payload) + rest) == Some(Head(flag, payload, 5 + |payload|))
    ensures (Frame(flag, payload) + rest)[5 + |payload|..] == rest
  {
    var b := Frame(flag, payload) + rest;
    assert b[1..5] == BigEndian(|payload|);
    LengthRoundTrip(|payload|);
    assert b[5..5 + |payload|] == payload;
  }

  /** A frame at the head of the input is read in full and nothing else of the input is. */
  lemma {:induction false} FrameFirst(flag: Byte, payload: Bytes, rest: Bytes, p: Parsed,
                                      readTrailers: Bytes -> Trailers)
    requires |payload| < LENGTH_LIMIT
    ensures Frames(Frame(flag, payload) + rest, p, readTrailers)
            == if IsCompressed(flag) then None
               else Frames(rest, Add(p, Head(flag, payload, 5 + |payload|), readTrailers), readTrailers)
  {
    HeadOfFrame(flag, payload, rest);
  }

  ghost predicate AllFit(messages: seq<Bytes>) { forall m :: m in messages ==> |m| < LENGTH_LIMIT }

  /** The messages one after the other. */
  function Encoded(messages: seq<Bytes>): Bytes
    requires AllFit(messages)
  {
    if messages == [] then [] else EncodePayload(messages[0]).value + Encoded(messages[1..])
  }

  lemma EncodedMore(m: Bytes, more: seq<Bytes>, rest: Bytes)
    requires |m| < LENGTH_LIMIT && AllFit(more)
    ensures AllFit([m] + more) && Encoded([m] + more) + rest == Frame(0, m) + (Encoded(more) + rest)
  {
    assert ([m] + more)[1..] == more;
  }

  function Received(p: Parsed, messages: seq<Bytes>): Parsed { p.(messages := p.messages + messages) }

  lemma ReceivedMore(p: Parsed, m: Bytes, more: seq<Bytes>)
    ensures Received(Received(p, [m]), more) == Received(p, [m] + more)
  {
    assert p.messages + [m] + more == p.messages + ([m] + more);
  }

  lemma {:induction false} DataFirst(m: Bytes, rest: Bytes, p: Parsed, readTrailers: Bytes -> Trailers)
    requires |m| < LENGTH_LIMIT
    ensures Frames(Frame(0, m) + rest, p, readTrailers) == Frames(rest, Received(p, [m]), readTrailers)
  {
    FrameFirst(0, m, rest, p, readTrailers);
  }

  lemma {:induction false} EncodedFirst(messages: seq<Bytes>, rest: Bytes, p: Parsed, readTrailers: Bytes -> Trailers)
    requires AllFit(messages)
    ensures Frames(Encoded(messages) + rest, p, readTrailers) == Frames(rest, Received(p, messages), readTrailers)
    decreases |messages|
  {
    if messages == [] {
      assert Encoded(messages) + rest == rest && Received(p, messages) == p;
    } else {
      var m, more := messages[0], messages[1..];
      var later := Encoded(more) + rest;
      assert messages == [m] + more;
      EncodedMore(m, more, rest);
      DataFirst(m, later, p, readTrailers);
      EncodedFirst(more, rest, Received(p, [m]), readTrailers);
      ReceivedMore(p, m, more);
    }
  }

  /** Round trip: encoded messages followed by a trailers frame come back in order, with the
      trailers, and an incomplete frame after them changes nothing. */
  lemma {:induction false} ParseOfEncoded(messages: seq<Bytes>, flag: Byte, trailer: Bytes, tail: Bytes,
                                          readTrailers: Bytes -> Trailers)
    requires AllFit(messages) && |trailer| < LENGTH_LIMIT && IsTrailers(flag) && HeadOf(tail).None?
    ensures Frames(Encoded(messages) + (Frame(flag, trailer) + tail), NOTHING, readTrailers)
            == Some(Parsed(messages, readTrailers(trailer)))
  {
    EncodedFirst(messages, Frame(flag, trailer) + tail, NOTHING, readTrailers);
    assert Received(NOTHING, messages) == Parsed(messages, map[]);
    FrameFirst(flag, trailer, tail, Parsed(messages, map[]), readTrailers);
    assert map[] + readTrailers(trailer) == readTrailers(trailer);
  }

  lemma HeadOfLonger(b: Bytes, more: Bytes)
    requires HeadOf(b).Some?
    ensures HeadOf(b + more) == HeadOf(b)
    ensures (b + more)[HeadOf(b).value.size..] == b[HeadOf(b).value.size..] + more
  {
    assert (b + more)[1..5] == b[1..5];
    var h := HeadOf(b).value;
    assert (b + more)[5..h.size] == b[5..h.size];
  }

  lemma {:induction false} MessagesGrow(b: Bytes, p: Parsed, readTrailers: Bytes -> Trailers)
    requires Frames(b, p, readTrailers).Some?
    ensures p.messages <= Frames(b, p, readTrailers).value.messages
    decreases |b|
  {
    var h := HeadOf(b);
    if h.Some? {
      MessagesGrow(b[h.value.size..], Add(p, h.value, readTrailers), readTrailers);
    }
  }

  /** Streaming: what is parsed from a prefix stays. If the whole input parses, so does every
      prefix of it, to a prefix of the messages; a compressed frame in a prefix is found in the whole. */
  lemma {:induction false} PrefixParses(b: Bytes, more: Bytes, p: Parsed, readTrailers: Bytes -> Trailers)
    ensures Frames(b, p, readTrailers).None? ==> Frames(b + more, p, readTrailers).None?
    ensures Frames(b, p, readTrailers).Some? && Frames(b + more, p, readTrailers).Some? ==>
              Frames(b, p, readTrailers).value.messages <= Frames(b + more, p, readTrailers).value.messages
    decreases |b|
  {
    var h := HeadOf(b);
    if h.Some? {
      HeadOfLonger(b, more);
      if !IsCompressed(h.value.flag) {
        PrefixParses(b[h.value.size..], more, Add(p, h.value, readTrailers), readTrailers);
      }
    } else if Frames(b + more, p, readTrailers).Some? {
      MessagesGrow(b + more, p, readTrailers);
    }
  }

  // ---------------------------------------------------------------------------
  // Base64 sniffing
  // ---------------------------------------------------------------------------

  predicate IsBase64(c: Byte) {
    'A' <= c as char <= 'Z' || 'a' <= c as char <= 'z' || '0' <= c as char <= '9' || c as char in "+/=\r\n"
  }

  predicate LooksBase64(body: Bytes) {
    body != [] && forall i :: 0 <= i < |body| && i < 2048 ==> IsBase64(body[i])
  }

  /** The body as it is, or decoded where it looks like base64 and is. */
  function Unwrapped(body: Bytes, decode: Bytes -> Option<Bytes>): Bytes {
    if LooksBase64(body) && decode(body).Some? then decode(body).value else body
  }

  /** Data frames and trailers frames are never taken for base64. */
  lemma FramesAreNotBase64(flag: Byte, payload: Bytes, rest: Bytes, decode: Bytes -> Option<Bytes>)
    requires |payload| < LENGTH_LIMIT && (flag == 0 || IsTrailers(flag))
    ensures Unwrapped(Frame(flag, payload) + rest, decode) == Frame(flag, payload) + rest
  {
    var body := Frame(flag, payload) + rest;
    assert body[0] == flag && !IsBase64(flag);
  }

  /** A body is decoded if and only if it decodes and its first 2048 bytes are base64 characters or line breaks. */
  lemma DecodedExact(body: Bytes, decode: Bytes -> Option<Bytes>)
    ensures var text := body != [] && forall i :: 0 <= i < |body| && i < 2048 ==> InAlphabet(body[i] as int);
            Unwrapped(body, decode) == if text && decode(body).Some? then decode(body).value else body
  {
    if body != [] {
      forall i | 0 <= i < |body| ensures IsBase64(body[i]) <==> InAlphabet(body[i] as int) {
      }
    }
  }

  /** Letters, digits, plus, slash, equals sign, and the two line breaks, by their codes. */
  predicate InAlphabet(c: int) {
    65 <= c <= 90 || 97 <= c <= 122 || 48 <= c <= 57 || c == 43 || c == 47 || c == 61 || c == 13 || c == 10
  }
}
