/**
 * The wire format of the chat protocol (server.py:8, 26-39, 75-78, 102-105):
 * every message is a 64-byte header holding the payload's UTF-8 byte length
 * as decimal ASCII padded on the right with spaces, followed by the payload
 * bytes. There is no other delimiter.
 */
module Framing {

  import opened Wrappers
  import opened Utf8
  import opened Text

  /** `HEADER`: the fixed size of the length header. */
  const HEADER: nat := 64

  /** The byte `b" "`. */
  const PAD: byte := 32

  /** `b" " * k`; Python gives the empty string for `k <= 0`. */
  function Padding(k: int): (r: seq<byte>)
    ensures |r| == if k > 0 then k else 0
    ensures forall i :: 0 <= i < |r| ==> r[i] == PAD
  {
    seq(if k > 0 then k else 0, _ => PAD)
  }

  /**
   * The header exactly as the source builds it for a byte length `n`: the
   * digits of `str(n)`, then `HEADER - len(digits)` spaces. When the numeral
   * has more than `HEADER` digits the multiplier is negative and the header
   * comes out longer than `HEADER` bytes.
   */
  function HeaderAsWritten(n: nat): seq<byte>
  {
    var digits := Encode(Decimal(n));
    digits + Padding(HEADER - |digits|)
  }

  datatype FramingError = HeaderOverflow

  /**
   * The header for a byte length `n`, refusing the lengths whose numeral does
   * not fit in `HEADER` bytes instead of producing an oversized header.
   */
  function EncodeHeader(n: nat): (r: Result<seq<byte>, FramingError>)
    ensures r.Success? <==> n < Pow10(HEADER)
  {
    DecimalLength(n, HEADER);
    if |Decimal(n)| <= HEADER then Success(HeaderAsWritten(n)) else Failure(HeaderOverflow)
  }

  /** The frame `send_message_to_client` writes for `message`: header, then payload. */
  function EncodeFrame(message: string): Result<seq<byte>, FramingError>
  {
    var payload := Encode(message);
    match EncodeHeader(|payload|)
    case Failure(e) => Failure(e)
    case Success(header) => Success(header + payload)
  }

  /** A message can be framed: its byte length has at most `HEADER` decimal digits. */
  predicate Fits(message: string)
  {
    EncodeFrame(message).Success?
  }

  /**
   * For a length below `10^HEADER` the header is exactly `HEADER` bytes: the
   * ASCII digits of the length, then only spaces.
   */
  lemma HeaderShape(n: nat)
    requires n < Pow10(HEADER)
    ensures EncodeHeader(n).Success?
    ensures var h := EncodeHeader(n).value; var d := Decimal(n);
      && |h| == HEADER
      && (forall i :: 0 <= i < |d| ==> h[i] == d[i] as int)
      && (forall i :: |d| <= i < HEADER ==> h[i] == PAD)
  {
    DecimalLength(n, HEADER);
    EncodeAscii(Decimal(n));
  }

  /** A frame is `HEADER + len(payload)` bytes, the header followed by the payload bytes. */
  lemma FrameShape(message: string)
    requires |Encode(message)| < Pow10(HEADER)
    ensures Fits(message)
    ensures var f := EncodeFrame(message).value;
      && |f| == HEADER + |Encode(message)|
      && f[..HEADER] == EncodeHeader(|Encode(message)|).value
      && f[HEADER..] == Encode(message)
  {
    HeaderShape(|Encode(message)|);
  }

  /**
   * The header as written goes wrong once the length has more than `HEADER`
   * digits: it is longer than `HEADER` bytes, so a reader that takes `HEADER`
   * bytes gets a numeral that parses to a smaller length than the one written.
   */
  lemma HeaderOverflowAsWritten(n: nat)
    requires n >= Pow10(HEADER)
    ensures |Decimal(n)| > HEADER && |HeaderAsWritten(n)| > HEADER
    ensures Decode(HeaderAsWritten(n)[..HEADER]) == Some(Decimal(n)[..HEADER])
    ensures ParseInt(Decimal(n)[..HEADER]).Some? && ParseInt(Decimal(n)[..HEADER]).value < n
  {
    var d := Decimal(n);
    DecimalLength(n, HEADER);
    assert HeaderAsWritten(n) == Encode(d);
    DigitsPrefix(d);
  }

  /** The first `HEADER` bytes of a longer numeral decode and parse to a number below `10^HEADER`. */
  lemma DigitsPrefix(d: string)
    requires AllDigits(d) && |d| > HEADER
    ensures Decode(Encode(d)[..HEADER]) == Some(d[..HEADER])
    ensures ParseInt(d[..HEADER]).Some? && ParseInt(d[..HEADER]).value < Pow10(HEADER)
  {
    DigitsPrefixDecodes(d);
    DigitsPrefixValue(d);
  }

  lemma DigitsPrefixDecodes(d: string)
    requires AllDigits(d) && |d| > HEADER
    ensures Decode(Encode(d)[..HEADER]) == Some(d[..HEADER])
  {
    AllDigitsAscii(d);
    AsciiPrefix(d, HEADER);
    DecodeEncode(d[..HEADER]);
  }

  lemma DigitsPrefixValue(d: string)
    requires AllDigits(d) && |d| > HEADER
    ensures ParseInt(d[..HEADER]).Some? && ParseInt(d[..HEADER]).value < Pow10(HEADER)
  {
    var p := d[..HEADER];
    assert AllDigits(p);
    ParseIntDigits(p);
    ValueBound(p);
  }

  /** Cutting ASCII text and cutting its encoding agree. */
  lemma AsciiPrefix(s: string, k: nat)
    requires IsAscii(s) && k <= |s|
    ensures Encode(s)[..k] == Encode(s[..k])
  {
    assert s == s[..k] + s[k..];
    EncodeAscii(s[..k]);
    EncodeAppend(s[..k], s[k..]);
  }

  lemma AllDigitsAscii(s: string)
    requires AllDigits(s)
    ensures IsAscii(s)
  {
    forall i | 0 <= i < |s| ensures (s[i] as int) < 0x80 {
      assert IsDigit(s[i]);
    }
  }

  // ---- the receiving side ----

  /** How the peer's side of the stream ends once its bytes are used up. */
  datatype EndOfStream =
    | Closed  // orderly close: every further `recv` returns `b""`
    | Reset   // the connection is broken: every further `recv` raises

  /** What is left to read on one connection: the bytes not yet received, then the end. */
  datatype Inbound = Inbound(bytes: seq<byte>, end: EndOfStream)

  datatype Received = Data(data: seq<byte>, next: Inbound) | RecvError

  /** The largest buffer size `recv` takes: the C `ssize_t` bound of a 64-bit platform. */
  const SSIZE_MAX: nat := 0x7FFF_FFFF_FFFF_FFFF

  /**
   * `conn.recv(k)`: a negative `k` raises `ValueError` and one beyond
   * `SSIZE_MAX` raises `OverflowError`; otherwise at most `k` bytes come
   * back, `k` of them whenever that many remain; past the last byte a closed
   * stream gives `b""` and a reset one raises.
   */
  function Recv(inb: Inbound, k: int): (r: Received)
    ensures r.Data? ==> r.data + r.next.bytes == inb.bytes && r.next.end == inb.end
    ensures r.Data? ==> |r.data| == if k <= |inb.bytes| then k else |inb.bytes|
    ensures r.RecvError? <==> k < 0 || k > SSIZE_MAX || (k > 0 && inb.bytes == [] && inb.end == Reset)
  {
    if k < 0 || k > SSIZE_MAX then RecvError
    else if k == 0 then Data([], inb)
    else if inb.bytes != [] then
      var m := if k <= |inb.bytes| then k else |inb.bytes|;
      assert inb.bytes[..m] + inb.bytes[m..] == inb.bytes;
      Data(inb.bytes[..m], Inbound(inb.bytes[m..], inb.end))
    else if inb.end == Reset then RecvError
    else Data([], inb)
  }

  /** The outcome of reading one frame; `Raised` is any exception the `try` catches. */
  datatype FrameRead = Got(message: string, next: Inbound) | NoData | Raised

  /** The outcome of reading a header: a length, an empty header, or an exception. */
  datatype HeaderRead = Length(n: int, rest: Inbound) | Empty | Unreadable

  /**
   * `conn.recv(HEADER).decode(FORMAT)` and, when that is non-empty,
   * `int(...)`. The header is empty exactly at the end of a cleanly closed
   * stream; a non-empty one consumes at least one byte.
   */
  function ReadHeader(inb: Inbound): (r: HeaderRead)
    ensures r.Length? ==> |r.rest.bytes| < |inb.bytes| && r.rest.end == inb.end
    ensures r.Length? ==> r.rest.bytes == inb.bytes[|inb.bytes| - |r.rest.bytes|..]
    ensures r.Empty? <==> inb.bytes == [] && inb.end == Closed
  {
    match Recv(inb, HEADER)
    case RecvError => Unreadable
    case Data(headerBytes, afterHeader) =>
      assert inb.bytes == headerBytes + afterHeader.bytes;
      match Decode(headerBytes)
      case None => Unreadable
      case Some(header) =>
        if header == [] then Empty
        else match ParseInt(header)
          case None => Unreadable
          case Some(n) => Length(n, afterHeader)
  }

  /** `conn.recv(length).decode(FORMAT)`: the message and the rest of the stream, or `None` when it raises. */
  function ReadPayload(inb: Inbound, length: int): (r: Option<(string, Inbound)>)
    ensures r.Some? ==> r.value.1.end == inb.end && |r.value.1.bytes| <= |inb.bytes|
    ensures r.Some? ==> r.value.1.bytes == inb.bytes[|inb.bytes| - |r.value.1.bytes|..]
  {
    match Recv(inb, length)
    case RecvError => None
    case Data(payload, afterPayload) =>
      assert inb.bytes == payload + afterPayload.bytes;
      match Decode(payload)
      case None => None
      case Some(message) => Some((message, afterPayload))
  }

  /**
   * One frame read as `handle_client` does it: the header, and when it is
   * non-empty the payload of the length it gives. An empty header read gives
   * `NoData`, which happens exactly at the end of a cleanly closed stream; a
   * frame that is read consumes at least its header.
   */
  function ReadFrame(inb: Inbound): (r: FrameRead)
    ensures r.Got? ==> |r.next.bytes| < |inb.bytes| && r.next.end == inb.end
    ensures r.Got? ==> r.next.bytes == inb.bytes[|inb.bytes| - |r.next.bytes|..]
    ensures r.NoData? <==> inb.bytes == [] && inb.end == Closed
  {
    match ReadHeader(inb)
    case Unreadable => Raised
    case Empty => NoData
    case Length(n, rest) =>
      match ReadPayload(rest, n)
      case None => Raised
      case Some((message, next)) => Got(message, next)
  }

  /** `k` space characters, none when `k <= 0`. */
  function SpaceText(k: int): (r: string)
    ensures |r| == if k > 0 then k else 0
    ensures AllSpace(r) && IsAscii(r) && !HasInfoSeparator(r)
  {
    seq(if k > 0 then k else 0, _ => ' ')
  }

  /** `ReadFrame` in terms of the results of its two reads, when both succeed. */
  lemma ReadFrameOf(inb: Inbound, n: int, rest: Inbound, message: string, next: Inbound)
    requires ReadHeader(inb) == Length(n, rest) && ReadPayload(rest, n) == Some((message, next))
    ensures ReadFrame(inb) == Got(message, next)
  {
  }

  /** The header read, when the first `HEADER` bytes decode to a numeral `int()` accepts. */
  lemma ReadHeaderSteps(inb: Inbound, header: seq<byte>, text: string, n: nat, rest: seq<byte>)
    requires inb.bytes == header + rest && |header| == HEADER
    requires Decode(header) == Some(text) && text != [] && ParseInt(text) == Some(n)
    ensures ReadHeader(inb) == Length(n, Inbound(rest, inb.end))
  {
    assert Recv(inb, HEADER) == Data(header, Inbound(rest, inb.end)) by {
      assert inb.bytes[..HEADER] == header;
      assert inb.bytes[HEADER..] == rest;
    }
  }

  /** The payload read, when the next `|payload|` bytes decode. */
  lemma ReadPayloadSteps(inb: Inbound, payload: seq<byte>, message: string, tail: seq<byte>)
    requires inb.bytes == payload + tail && |payload| <= SSIZE_MAX
    requires Decode(payload) == Some(message)
    ensures ReadPayload(inb, |payload|) == Some((message, Inbound(tail, inb.end)))
  {
    var n := |payload|;
    assert Recv(inb, n) == Data(payload, Inbound(tail, inb.end)) by {
      if n > 0 {
        assert inb.bytes[..n] == payload;
        assert inb.bytes[n..] == tail;
      } else {
        assert payload == [];
      }
    }
  }

  /** The characters a header decodes to: the numeral, then spaces. */
  function HeaderText(n: nat): string
  {
    Decimal(n) + SpaceText(HEADER - |Decimal(n)|)
  }

  /** The `HEADER` bytes of a header decode to the numeral, then spaces, which `int()` reads back. */
  lemma DecodeHeader(n: nat)
    requires n < Pow10(HEADER)
    ensures Decode(EncodeHeader(n).value) == Some(HeaderText(n))
    ensures HeaderText(n) != [] && ParseInt(HeaderText(n)) == Some(n)
  {
    HeaderIsEncoded(n);
    DecodeEncode(HeaderText(n));
    ParseIntDecimal(n, SpaceText(HEADER - |Decimal(n)|));
  }

  /** The header bytes are the UTF-8 encoding of the header text. */
  lemma HeaderIsEncoded(n: nat)
    requires n < Pow10(HEADER)
    ensures EncodeHeader(n).value == Encode(HeaderText(n))
  {
    HeaderBytes(n);
    HeaderTextBytes(n);
  }

  lemma HeaderBytes(n: nat)
    requires n < Pow10(HEADER)
    ensures EncodeHeader(n).value == Encode(Decimal(n)) + Padding(HEADER - |Decimal(n)|)
  {
    AllDigitsAscii(Decimal(n));
    AsciiLength(Decimal(n));
    DecimalLength(n, HEADER);
  }

  lemma HeaderTextBytes(n: nat)
    ensures Encode(HeaderText(n)) == Encode(Decimal(n)) + Padding(HEADER - |Decimal(n)|)
  {
    EncodeSpaces(HEADER - |Decimal(n)|);
    EncodeAppend(Decimal(n), SpaceText(HEADER - |Decimal(n)|));
  }

  lemma EncodeSpaces(k: int)
    ensures Encode(SpaceText(k)) == Padding(k)
  {
    EncodeAscii(SpaceText(k));
  }

  /**
   * Reading a frame back gives the message exactly and leaves the stream
   * just past the frame, whatever follows it.
   */
  lemma FrameRoundTrip(message: string, tail: seq<byte>, end: EndOfStream)
    requires Receivable(message)
    ensures ReadFrame(Inbound(EncodeFrame(message).value + tail, end)) == Got(message, Inbound(tail, end))
  {
    var payload := Encode(message);
    var n := |payload|;
    HeaderShape(n);
    var header := EncodeHeader(n).value;
    DecodeHeader(n);
    DecodeEncode(message);
    var inb := Inbound(EncodeFrame(message).value + tail, end);
    FrameBytes(message, tail);
    ReadHeaderSteps(inb, header, HeaderText(n), n, payload + tail);
    ReadPayloadSteps(Inbound(payload + tail, end), payload, message, tail);
    ReadFrameOf(inb, n, Inbound(payload + tail, end), message, Inbound(tail, end));
  }

  lemma FrameBytes(message: string, tail: seq<byte>)
    requires Fits(message)
    ensures EncodeFrame(message).value + tail == EncodeHeader(|Encode(message)|).value + (Encode(message) + tail)
  {
    var header, payload := EncodeHeader(|Encode(message)|).value, Encode(message);
    assert EncodeFrame(message).value == header + payload;
    AppendAssoc(header, payload, tail);
  }


  /**
   * A message whose frame the reading side takes back: it can be framed, and
   * its byte length is a size `recv` accepts.
   */
  predicate Receivable(message: string)
  {
    Fits(message) && |Encode(message)| <= SSIZE_MAX
  }

  predicate AllReceivable(messages: seq<string>)
  {
    forall i :: 0 <= i < |messages| ==> Receivable(messages[i])
  }

  /**
   * A header announcing more than `SSIZE_MAX` bytes makes the payload read
   * raise, whatever follows it: the frame is never delivered.
   */
  lemma OversizedLengthRaises(n: nat, tail: seq<byte>, end: EndOfStream)
    requires SSIZE_MAX < n < Pow10(HEADER)
    ensures ReadFrame(Inbound(EncodeHeader(n).value + tail, end)) == Raised
  {
    HeaderShape(n);
    DecodeHeader(n);
    var inb := Inbound(EncodeHeader(n).value + tail, end);
    ReadHeaderSteps(inb, EncodeHeader(n).value, HeaderText(n), n, tail);
  }

  /** The bytes a sequence of framed messages puts on the wire. */
  function Wire(messages: seq<string>): seq<byte>
    requires forall i :: 0 <= i < |messages| ==> Fits(messages[i])
  {
    if messages == [] then []
    else
      assert Fits(messages[0]);
      EncodeFrame(messages[0]).value + Wire(messages[1..])
  }

  /** The first frame read off a wire is its first message. */
  lemma WireFirst(messages: seq<string>, end: EndOfStream)
    requires messages != [] && AllReceivable(messages)
    ensures ReadFrame(Inbound(Wire(messages), end)) == Got(messages[0], Inbound(Wire(messages[1..]), end))
  {
    assert Receivable(messages[0]);
    FrameRoundTrip(messages[0], Wire(messages[1..]), end);
  }

  /** Frames read one after another until the first read that is not a message. */
  function ReadAll(inb: Inbound): (r: (seq<string>, FrameRead))
    ensures !r.1.Got?
    decreases |inb.bytes|
  {
    match ReadFrame(inb)
    case Got(message, next) =>
      var (rest, last) := ReadAll(next);
      ([message] + rest, last)
    case other => ([], other)
  }

  /** Reading all frames is reading one, then the rest. */
  lemma ReadAllStep(inb: Inbound, message: string, next: Inbound)
    requires ReadFrame(inb) == Got(message, next)
    ensures ReadAll(inb) == ([message] + ReadAll(next).0, ReadAll(next).1)
  {
  }

  /** What reading a stream finds once its bytes are used up. */
  lemma ReadAtEnd(end: EndOfStream)
    ensures ReadFrame(Inbound([], end)) == if end == Closed then NoData else Raised
  {
  }

  /**
   * A reader of the wire of a sequence of messages takes exactly those
   * messages off it, in order, and then finds the end of the stream: nothing
   * is lost, merged or split between frames.
   */
  lemma {:induction false} ReadAllWire(messages: seq<string>, end: EndOfStream)
    requires AllReceivable(messages)
    ensures ReadAll(Inbound(Wire(messages), end)) == (messages, if end == Closed then NoData else Raised)
  {
    if messages == [] {
      ReadAtEnd(end);
    } else {
      var rest := messages[1..];
      ReceivableTail(messages);
      WireFirst(messages, end);
      ReadAllStep(Inbound(Wire(messages), end), messages[0], Inbound(Wire(rest), end));
      ReadAllWire(rest, end);
      assert [messages[0]] + rest == messages;
    }
  }

  lemma ReceivableTail(messages: seq<string>)
    requires messages != [] && AllReceivable(messages)
    ensures AllReceivable(messages[1..])
  {
    forall i | 0 <= i < |messages| - 1 ensures Receivable(messages[1..][i]) {
      assert messages[1..][i] == messages[i + 1];
    }
  }
}
