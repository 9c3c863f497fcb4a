/** The envelope frame format and its stateless codec (codec-api/src/lib.rs). */
module Envelope {
  import opened Basics
  import opened Utf8

  const MAX_FRAME_SIZE := 0x1_0000

  datatype EventKind = Data(bytes: seq<Byte>) | Open | Close | Error(message: Text)

  datatype Event = Event(channel: Text, kind: EventKind)

  datatype EnvelopeError =
    | FrameTooLarge(len: nat)
    | UnknownType(typeByte: Byte)
    | Truncated(what: string)
    | BadChannelId
    | BadErrorMessage

  /** The answer to "what is at the front of this buffer?" */
  datatype Decode<+T, +E> = NeedMore | Decoded(value: T, consumed: nat) | Refused(error: E)

  // ---- Length-prefixed framing, shared with the hello ----

  datatype Framing = Partial | Oversize(len: nat) | Whole(body: seq<Byte>)

  function Unframe(buf: seq<Byte>): (r: Framing)
    ensures r.Whole? ==> |r.body| <= MAX_FRAME_SIZE && 4 + |r.body| <= |buf| && buf[4..4 + |r.body|] == r.body
  {
    if |buf| < 4 then Partial
    else
      var len := De32(buf[..4]);
      if len > MAX_FRAME_SIZE then Oversize(len)
      else if |buf| < 4 + len then Partial
      else Whole(buf[4..4 + len])
  }

  function Frame(body: seq<Byte>): seq<Byte>
    requires |body| <= MAX_FRAME_SIZE
  {
    Be32(|body|) + body
  }

  lemma UnframeFrame(body: seq<Byte>, suffix: seq<Byte>)
    requires |body| <= MAX_FRAME_SIZE
    ensures Unframe(Frame(body) + suffix) == Whole(body)
  {
    var buf := Frame(body) + suffix;
    RoundTrip32(|body|);
    assert buf[..4] == Be32(|body|);
    assert buf[4..4 + |body|] == body;
  }

  lemma UnframePrefix(body: seq<Byte>, n: nat)
    requires |body| <= MAX_FRAME_SIZE && n < |Frame(body)|
    ensures Unframe(Frame(body)[..n]) == Partial
  {
    if n >= 4 {
      RoundTrip32(|body|);
      assert Frame(body)[..n][..4] == Be32(|body|);
    }
  }

  /** A decision, once made, is not changed by the bytes that follow. */
  lemma UnframeStable(buf: seq<Byte>, more: seq<Byte>)
    requires !Unframe(buf).Partial?
    ensures Unframe(buf + more) == Unframe(buf)
  {
    assert (buf + more)[..4] == buf[..4];
    if Unframe(buf).Whole? {
      var end := 4 + |Unframe(buf).body|;
      assert (buf + more)[4..end] == buf[4..end];
    }
  }

  // ---- Events ----

  function TypeByte(kind: EventKind): Byte {
    match kind
    case Data(_) => 0
    case Open => 1
    case Close => 2
    case Error(_) => 3
  }

  function Payload(kind: EventKind): seq<Byte> {
    match kind
    case Data(b) => b
    case Error(m) => m
    case _ => []
  }

  function BodyLength(e: Event): nat {
    1 + 2 + |e.channel| + |Payload(e.kind)|
  }

  function Body(e: Event): (body: seq<Byte>)
    requires |e.channel| < 0x1_0000
    ensures |body| == BodyLength(e)
  {
    [TypeByte(e.kind)] + Be16(|e.channel|) + e.channel + Payload(e.kind)
  }

  /** A body that fits leaves a channel length that fits its 16-bit field, so no second refusal is reachable. */
  function Encode(e: Event): Result<seq<Byte>, EnvelopeError> {
    if BodyLength(e) > MAX_FRAME_SIZE then Err(FrameTooLarge(BodyLength(e)))
    else Ok(Frame(Body(e)))
  }

  function DecodeBody(body: seq<Byte>): Result<Event, EnvelopeError> {
    if |body| < 3 then Err(Truncated("header"))
    else
      var channelEnd := 3 + De16(body[1..3]);
      if |body| < channelEnd then Err(Truncated("channel id"))
      else
        var channel, payload := body[3..channelEnd], body[channelEnd..];
        if !ValidUtf8(channel) then Err(BadChannelId)
        else
          match body[0]
          case 0 => Ok(Event(channel, Data(payload)))
          case 1 => Ok(Event(channel, Open))
          case 2 => Ok(Event(channel, Close))
          case 3 => if ValidUtf8(payload) then Ok(Event(channel, Error(payload))) else Err(BadErrorMessage)
          case other => Err(UnknownType(other))
  }

  function TryDecode(buf: seq<Byte>): Decode<Event, EnvelopeError> {
    match Unframe(buf)
    case Partial => NeedMore
    case Oversize(len) => Refused(FrameTooLarge(len))
    case Whole(body) =>
      match DecodeBody(body)
      case Ok(e) => Decoded(e, 4 + |body|)
      case Err(err) => Refused(err)
  }

  lemma DecodeBodyOfEvent(e: Event)
    requires BodyLength(e) <= MAX_FRAME_SIZE
    ensures DecodeBody(Body(e)) == Ok(e)
  {
    var body := Body(e);
    RoundTrip16(|e.channel|);
    assert body[1..3] == Be16(|e.channel|);
    assert body[3..3 + |e.channel|] == e.channel;
    assert body[3 + |e.channel|..] == Payload(e.kind);
  }

  /** An encoded event decodes to itself and its own length, whatever follows it. */
  lemma EventRoundTrip(e: Event, suffix: seq<Byte>)
    requires Encode(e).Ok?
    ensures TryDecode(Encode(e).value + suffix) == Decoded(e, |Encode(e).value|)
  {
    UnframeFrame(Body(e), suffix);
    DecodeBodyOfEvent(e);
  }

  /** Every strict prefix of an encoded event asks for more. */
  lemma EventPrefixNeedsMore(e: Event, n: nat)
    requires Encode(e).Ok? && n < |Encode(e).value|
    ensures TryDecode(Encode(e).value[..n]) == NeedMore
  {
    UnframePrefix(Body(e), n);
  }

  /** An answer other than "need more" stands whatever bytes follow. */
  lemma TryDecodeStable(buf: seq<Byte>, more: seq<Byte>)
    requires !TryDecode(buf).NeedMore?
    ensures TryDecode(buf + more) == TryDecode(buf)
  {
    UnframeStable(buf, more);
  }

  lemma DecodedIsWithin(buf: seq<Byte>)
    ensures TryDecode(buf).Decoded? ==> 7 <= TryDecode(buf).consumed <= |buf|
    ensures TryDecode(buf).NeedMore? ==> |buf| < MAX_FRAME_SIZE + 4
  {
  }

  /** Framing a body gives the consumed bytes back exactly when it is the body they frame. */
  lemma FrameGivesBack(buf: seq<Byte>, other: seq<Byte>)
    requires Unframe(buf).Whole? && |other| <= MAX_FRAME_SIZE
    ensures var body := Unframe(buf).body; Frame(other) == buf[..4 + |body|] <==> other == body
  {
    var body := Unframe(buf).body;
    RangeOf32(buf[..4]);
    assert buf[..4 + |body|] == buf[..4] + body;
    if Frame(other) == buf[..4 + |body|] {
      SameCut(Be32(|other|), other, buf[..4], body);
    }
  }

  /** What a body decodes to fits, and has that body exactly unless an open or close carried a payload. */
  lemma BodyGivesBack(body: seq<Byte>)
    requires DecodeBody(body).Ok?
    ensures var e := DecodeBody(body).value;
            && |e.channel| < 0x1_0000 && BodyLength(e) <= |body|
            && (Body(e) == body <==> e.kind.Data? || e.kind.Error? || |body| == 3 + |e.channel|)
  {
    var e := DecodeBody(body).value;
    var channelEnd := 3 + De16(body[1..3]);
    RangeOf16(body[1..3]);
    assert body == [body[0]] + body[1..3] + e.channel + body[channelEnd..];
    if e.kind.Data? || e.kind.Error? || |body| == 3 + |e.channel| {
      assert body[channelEnd..] == Payload(e.kind);
    }
  }

  /**
   * The decoder ignores any payload behind an open or close header. Re-encoding what it returned
   * always succeeds, and reproduces the consumed bytes exactly when that payload was empty.
   */
  lemma DecodeThenEncode(buf: seq<Byte>)
    requires TryDecode(buf).Decoded?
    ensures var Decoded(e, n) := TryDecode(buf);
            && n <= |buf|
            && Encode(e).Ok?
            && (Encode(e).value == buf[..n] <==> e.kind.Data? || e.kind.Error? || n == 7 + |e.channel|)
  {
    var body := Unframe(buf).body;
    BodyGivesBack(body);
    FrameGivesBack(buf, Body(DecodeBody(body).value));
  }

  /** The layout byte by byte: big-endian body length, type, big-endian channel length, channel, payload. */
  lemma FrameLayout(e: Event)
    requires Encode(e).Ok?
    ensures var f, n := Encode(e).value, |e.channel|;
            && |f| == 7 + n + |Payload(e.kind)|
            && f[0] as int * 0x100_0000 + f[1] as int * 0x1_0000 + f[2] as int * 0x100 + f[3] as int == |f| - 4
            && f[4] == (match e.kind case Data(_) => 0 case Open => 1 case Close => 2 case Error(_) => 3)
            && f[5] as int * 0x100 + f[6] as int == n
            && f[7..7 + n] == e.channel && f[7 + n..] == Payload(e.kind)
  {
    var f, n, len := Encode(e).value, |e.channel|, BodyLength(e);
    RoundTrip32(len);
    RoundTrip16(n);
    assert f[..4] == Be32(len) && f[4..] == Body(e);
    assert f[5..7] == Body(e)[1..3] == Be16(n);
  }

  // ---- Malformed input, on the bytes ----

  /** A 32-bit big-endian number at the front of a buffer. */
  function Prefix(buf: seq<Byte>): nat
    requires |buf| >= 4
  {
    buf[0] as int * 0x100_0000 + buf[1] as int * 0x1_0000 + buf[2] as int * 0x100 + buf[3] as int
  }

  /** More bytes are asked for exactly while the announced frame is incomplete; one too large is refused as soon as announced. */
  lemma FramingIsByPrefix(buf: seq<Byte>)
    ensures TryDecode(buf).NeedMore? <==> |buf| < 4 || (Prefix(buf) <= MAX_FRAME_SIZE && |buf| < 4 + Prefix(buf))
    ensures |buf| >= 4 && Prefix(buf) > MAX_FRAME_SIZE ==> TryDecode(buf) == Refused(FrameTooLarge(Prefix(buf)))
    ensures TryDecode(buf).Decoded? ==> TryDecode(buf).consumed == 4 + Prefix(buf)
  {
    if |buf| >= 4 {
      assert De32(buf[..4]) == Prefix(buf);
    }
  }

  /** The channel length a body announces. */
  function ChannelLength(body: seq<Byte>): nat
    requires |body| >= 3
  {
    body[1] as int * 0x100 + body[2] as int
  }

  /** A body with its channel in place and readable. */
  predicate HasChannel(body: seq<Byte>) {
    |body| >= 3 && 3 + ChannelLength(body) <= |body| && ValidUtf8(body[3..3 + ChannelLength(body)])
  }

  /** Which body is refused, and for what: each error exactly when it is the first thing wrong. */
  lemma BodyErrors(body: seq<Byte>)
    ensures DecodeBody(body) == Err(Truncated("header")) <==> |body| < 3
    ensures DecodeBody(body) == Err(Truncated("channel id")) <==> |body| >= 3 && 3 + ChannelLength(body) > |body|
    ensures DecodeBody(body) == Err(BadChannelId) <==>
      |body| >= 3 && 3 + ChannelLength(body) <= |body| && !ValidUtf8(body[3..3 + ChannelLength(body)])
    ensures forall t: Byte :: DecodeBody(body) == Err(UnknownType(t)) <==> HasChannel(body) && body[0] == t && t > 3
    ensures DecodeBody(body) == Err(BadErrorMessage) <==>
      HasChannel(body) && body[0] == 3 && !ValidUtf8(body[3 + ChannelLength(body)..])
  {
    if |body| >= 3 {
      assert De16(body[1..3]) == ChannelLength(body);
    }
  }

  /** Which body is an event, and which one: an open or close is one whatever payload it carries. */
  lemma BodyEvents(body: seq<Byte>)
    ensures DecodeBody(body).Ok? <==>
      HasChannel(body) && body[0] <= 3 && (body[0] == 3 ==> ValidUtf8(body[3 + ChannelLength(body)..]))
    ensures DecodeBody(body).Ok? ==>
      var e, payload := DecodeBody(body).value, body[3 + ChannelLength(body)..];
      && e.channel == body[3..3 + ChannelLength(body)]
      && (body[0] == 0 <==> e.kind == Data(payload)) && (body[0] == 1 <==> e.kind == Open)
      && (body[0] == 2 <==> e.kind == Close) && (body[0] == 3 <==> e.kind.Error?)
      && (e.kind.Error? ==> e.kind.message == payload)
  {
    if |body| >= 3 {
      assert De16(body[1..3]) == ChannelLength(body);
    }
  }
}
