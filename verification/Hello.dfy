/** The wire hello that opens a link (codec-api/src/lib.rs). */
module Hello {
  import opened Basics
  import opened Utf8
  import Envelope

  type U16 = n: int | 0 <= n < 0x1_0000
  type U32 = n: int | 0 <= n < 0x1_0000_0000

  const WIRE_MAGIC: U32 := 0x534E_584C
  const WIRE_VERSION: U16 := 1

  datatype Hello = Hello(version: U16, capabilities: U32, channels: seq<Text>)

  datatype WireError =
    | BadMagic(got: nat)
    | UnsupportedVersion(got: nat)
    | FrameTooLarge(len: nat)
    | Truncated(what: string)
    | BadChannelId

  // ---- Layout ----

  function AnnouncementsLength(channels: seq<Text>): nat {
    if channels == [] then 0 else 2 + |channels[0]| + AnnouncementsLength(channels[1..])
  }

  function BodyLength(h: Hello): nat {
    12 + AnnouncementsLength(h.channels)
  }

  /** Every identity is short enough for its 16-bit length field. */
  predicate ShortNames(channels: seq<Text>) {
    forall i :: 0 <= i < |channels| ==> |channels[i]| < 0x1_0000
  }

  function Announcements(channels: seq<Text>): (r: seq<Byte>)
    requires ShortNames(channels)
    ensures |r| == AnnouncementsLength(channels)
  {
    if channels == [] then []
    else
      var ch := channels[0];
      Be16(|ch|) + ch + Announcements(channels[1..])
  }

  /** A hello whose body fits has a count and identity lengths that fit their fields. */
  lemma {:induction false} FittingNamesAreShort(channels: seq<Text>, bound: nat)
    requires AnnouncementsLength(channels) <= bound
    ensures 2 * |channels| <= bound
    ensures forall i :: 0 <= i < |channels| ==> 2 + |channels[i]| <= bound
  {
    if channels != [] {
      FittingNamesAreShort(channels[1..], bound - 2 - |channels[0]|);
      forall i | 0 <= i < |channels| ensures 2 + |channels[i]| <= bound {
        if i > 0 {
          assert channels[i] == channels[1..][i - 1];
        }
      }
    }
  }

  function Header(h: Hello, count: U16): (r: seq<Byte>)
    ensures |r| == 12
  {
    Be32(WIRE_MAGIC) + Be16(h.version) + Be32(h.capabilities) + Be16(count)
  }

  function Body(h: Hello): (r: seq<Byte>)
    requires |h.channels| < 0x1_0000 && ShortNames(h.channels)
    ensures |r| == BodyLength(h)
  {
    Header(h, |h.channels|) + Announcements(h.channels)
  }

  function EncodeHello(h: Hello): Result<seq<Byte>, WireError> {
    if BodyLength(h) > Envelope.MAX_FRAME_SIZE then Err(FrameTooLarge(BodyLength(h)))
    else
      FittingNamesAreShort(h.channels, Envelope.MAX_FRAME_SIZE - 12);
      Ok(Envelope.Frame(Body(h)))
  }

  // ---- Decoding ----

  function ParseAnnouncements(s: seq<Byte>, count: nat): Result<seq<Text>, WireError> {
    if count == 0 then Ok([])
    else if |s| < 2 then Err(Truncated("announcement length"))
    else
      var end := 2 + De16(s[..2]);
      if |s| < end then Err(Truncated("announcement identity"))
      else if !ValidUtf8(s[2..end]) then Err(BadChannelId)
      else
        var channel: Text := s[2..end];
        match ParseAnnouncements(s[end..], count - 1)
        case Ok(rest) => Ok([channel] + rest)
        case Err(e) => Err(e)
  }

  function DecodeHelloBody(body: seq<Byte>): Result<Hello, WireError> {
    if |body| < 6 then Err(Truncated("header"))
    else
      var magic, version := De32(body[..4]), De16(body[4..6]);
      if magic != WIRE_MAGIC then Err(BadMagic(magic))
      else if version != WIRE_VERSION then Err(UnsupportedVersion(version))
      else if |body| < 12 then Err(Truncated("header"))
      else
        RangeOf32(body[6..10]);
        match ParseAnnouncements(body[12..], De16(body[10..12]))
        case Ok(channels) => Ok(Hello(version, De32(body[6..10]), channels))
        case Err(e) => Err(e)
  }

  function TryDecodeHello(buf: seq<Byte>): Envelope.Decode<Hello, WireError> {
    match Envelope.Unframe(buf)
    case Partial => Envelope.NeedMore
    case Oversize(len) => Envelope.Refused(FrameTooLarge(len))
    case Whole(body) =>
      match DecodeHelloBody(body)
      case Ok(h) => Envelope.Decoded(h, 4 + |body|)
      case Err(e) => Envelope.Refused(e)
  }

  // ---- Round trip ----

  lemma AnnouncementSlices(ch: Text, tail: seq<Byte>)
    requires |ch| < 0x1_0000
    ensures var s := Be16(|ch|) + ch + tail;
            s[..2] == Be16(|ch|) && s[2..2 + |ch|] == ch && s[2 + |ch|..] == tail
  {
  }

  /** An announcement in front of any bytes is read first, and the rest is read as if it stood alone. */
  lemma ParseFirst(ch: Text, tail: seq<Byte>, count: nat)
    requires |ch| < 0x1_0000 && ParseAnnouncements(tail, count).Ok?
    ensures ParseAnnouncements(Be16(|ch|) + ch + tail, count + 1) == Ok([ch] + ParseAnnouncements(tail, count).value)
  {
    AnnouncementSlices(ch, tail);
    RoundTrip16(|ch|);
  }

  lemma {:induction false} ParseAnnounced(channels: seq<Text>, trailing: seq<Byte>)
    requires ShortNames(channels)
    ensures ParseAnnouncements(Announcements(channels) + trailing, |channels|) == Ok(channels)
  {
    if channels != [] {
      var ch, rest := channels[0], channels[1..];
      ParseAnnounced(rest, trailing);
      ParseFirst(ch, Announcements(rest) + trailing, |rest|);
      Regroup(Be16(|ch|) + ch, Announcements(rest), trailing);
      FirstApart(channels);
    }
  }

  lemma HeaderFields(h: Hello, count: U16, rest: seq<Byte>)
    ensures var body := Header(h, count) + rest;
            && De32(body[..4]) == WIRE_MAGIC && De16(body[4..6]) == h.version
            && De32(body[6..10]) == h.capabilities && De16(body[10..12]) == count && body[12..] == rest
  {
    var body := Header(h, count) + rest;
    RoundTrip32(WIRE_MAGIC);
    RoundTrip16(h.version);
    RoundTrip32(h.capabilities);
    RoundTrip16(count);
    assert body[..4] == Be32(WIRE_MAGIC);
    assert body[4..6] == Be16(h.version);
    assert body[6..10] == Be32(h.capabilities);
    assert body[10..12] == Be16(count);
    assert body[12..] == rest;
  }

  /** An encoded version-1 hello decodes to itself and its own length; any other version is refused by number. */
  lemma HelloRoundTrip(h: Hello, suffix: seq<Byte>)
    requires EncodeHello(h).Ok?
    ensures h.version == WIRE_VERSION ==>
      TryDecodeHello(EncodeHello(h).value + suffix) == Envelope.Decoded(h, |EncodeHello(h).value|)
    ensures h.version != WIRE_VERSION ==>
      TryDecodeHello(EncodeHello(h).value + suffix) == Envelope.Refused(UnsupportedVersion(h.version))
  {
    FittingNamesAreShort(h.channels, Envelope.MAX_FRAME_SIZE - 12);
    Envelope.UnframeFrame(Body(h), suffix);
    HeaderFields(h, |h.channels|, Announcements(h.channels));
    ParseAnnounced(h.channels, []);
    assert Announcements(h.channels) + [] == Announcements(h.channels);
  }

  lemma HelloPrefixNeedsMore(h: Hello, n: nat)
    requires EncodeHello(h).Ok? && n < |EncodeHello(h).value|
    ensures TryDecodeHello(EncodeHello(h).value[..n]) == Envelope.NeedMore
  {
    FittingNamesAreShort(h.channels, Envelope.MAX_FRAME_SIZE - 12);
    Envelope.UnframePrefix(Body(h), n);
  }

  lemma HelloStable(buf: seq<Byte>, more: seq<Byte>)
    requires !TryDecodeHello(buf).NeedMore?
    ensures TryDecodeHello(buf + more) == TryDecodeHello(buf)
  {
    Envelope.UnframeStable(buf, more);
  }

  // ---- Re-encoding what was decoded ----

  /** Parsed announcements re-encode to the bytes they were read from. */
  lemma {:induction false} ParsedReencodes(s: seq<Byte>, count: nat)
    requires ParseAnnouncements(s, count).Ok?
    ensures var channels := ParseAnnouncements(s, count).value;
            && |channels| == count && ShortNames(channels)
            && AnnouncementsLength(channels) <= |s| && s[..AnnouncementsLength(channels)] == Announcements(channels)
    decreases count
  {
    if count > 0 {
      var end := 2 + De16(s[..2]);
      var channel: Text := s[2..end];
      var rest := ParseAnnouncements(s[end..], count - 1).value;
      ParsedReencodes(s[end..], count - 1);
      RangeOf16(s[..2]);
      FirstAnnouncement(channel, rest);
      SplitThree(s, end, AnnouncementsLength(rest));
    }
  }

  lemma FirstAnnouncement(channel: Text, rest: seq<Text>)
    requires |channel| < 0x1_0000 && ShortNames(rest)
    ensures var channels := [channel] + rest;
            && ShortNames(channels)
            && AnnouncementsLength(channels) == 2 + |channel| + AnnouncementsLength(rest)
            && Announcements(channels) == Be16(|channel|) + channel + Announcements(rest)
  {
    assert ([channel] + rest)[1..] == rest;
  }

  lemma SplitThree(s: seq<Byte>, end: nat, n: nat)
    requires 2 <= end && end + n <= |s|
    ensures s[..end + n] == s[..2] + s[2..end] + s[end..][..n]
  {
  }

  /** The header of a version-1 body is that of the hello it decodes to. */
  lemma HeaderReencodes(h: Hello, body: seq<Byte>)
    requires |body| >= 12 && De32(body[..4]) == WIRE_MAGIC && De16(body[4..6]) == h.version
    requires De32(body[6..10]) == h.capabilities && De16(body[10..12]) == |h.channels| < 0x1_0000
    ensures Header(h, |h.channels|) == body[..12]
  {
    RangeOf32(body[..4]);
    RangeOf16(body[4..6]);
    RangeOf32(body[6..10]);
    RangeOf16(body[10..12]);
    assert body[..12] == body[..4] + body[4..6] + body[6..10] + body[10..12];
  }

  /** What a body decodes to encodes to that much of the body, trailing bytes left off. */
  lemma DecodedBodyReencodes(body: seq<Byte>)
    requires DecodeHelloBody(body).Ok?
    ensures var h := DecodeHelloBody(body).value;
            && h.version == WIRE_VERSION && |h.channels| < 0x1_0000 && ShortNames(h.channels)
            && BodyLength(h) <= |body| && Body(h) == body[..BodyLength(h)]
  {
    var h := DecodeHelloBody(body).value;
    RangeOf16(body[10..12]);
    ParsedReencodes(body[12..], De16(body[10..12]));
    HeaderReencodes(h, body);
    assert body[..BodyLength(h)] == body[..12] + body[12..][..AnnouncementsLength(h.channels)];
  }

  /**
   * The decoder ignores bytes behind the last announcement. Re-encoding what it returned always succeeds,
   * and reproduces the consumed bytes exactly when there were none.
   */
  lemma DecodeThenEncode(buf: seq<Byte>)
    requires TryDecodeHello(buf).Decoded?
    ensures var Decoded(h, n) := TryDecodeHello(buf);
            && n <= |buf|
            && h.version == WIRE_VERSION && EncodeHello(h).Ok?
            && (EncodeHello(h).value == buf[..n] <==> n == 4 + BodyLength(h))
  {
    var body := Envelope.Unframe(buf).body;
    DecodedBodyReencodes(body);
    var h := DecodeHelloBody(body).value;
    Envelope.FrameGivesBack(buf, Body(h));
    assert body[..|body|] == body;
  }

  // ---- The two kinds of frame never pass for each other ----

  /** The first byte of a hello body is the magic's, which is no event type. */
  lemma MagicFirst(s: seq<Byte>)
    requires |s| == 4 && De32(s) == WIRE_MAGIC
    ensures s[0] == 0x53
  {
    RangeOf16(s[..2]);
    RangeOf16(s[2..]);
  }

  lemma EventIsNoHello(e: Envelope.Event, suffix: seq<Byte>)
    requires Envelope.Encode(e).Ok?
    ensures TryDecodeHello(Envelope.Encode(e).value + suffix).Refused?
  {
    var body := Envelope.Body(e);
    Envelope.UnframeFrame(body, suffix);
    if |body| >= 6 && De32(body[..4]) == WIRE_MAGIC {
      MagicFirst(body[..4]);
    }
  }

  lemma HelloIsNoEvent(h: Hello, suffix: seq<Byte>)
    requires EncodeHello(h).Ok?
    ensures Envelope.TryDecode(EncodeHello(h).value + suffix).Refused?
  {
    FittingNamesAreShort(h.channels, Envelope.MAX_FRAME_SIZE - 12);
    Envelope.UnframeFrame(Body(h), suffix);
    HeaderFields(h, |h.channels|, Announcements(h.channels));
    MagicFirst(Body(h)[..4]);
  }

  // ---- Malformed hellos ----

  /** An announcement list is refused for one of three reasons. */
  lemma {:induction false} AnnouncementErrorKinds(s: seq<Byte>, count: nat)
    ensures ParseAnnouncements(s, count).Err? ==>
      ParseAnnouncements(s, count).error in {Truncated("announcement length"), Truncated("announcement identity"), BadChannelId}
    decreases count
  {
    if count > 0 && |s| >= 2 && |s| >= 2 + De16(s[..2]) {
      AnnouncementErrorKinds(s[2 + De16(s[..2])..], count - 1);
    }
  }

  /** The body opens with this protocol's magic and the one supported version. */
  predicate Greets(body: seq<Byte>) {
    |body| >= 6 && De32(body[..4]) == WIRE_MAGIC && De16(body[4..6]) == WIRE_VERSION
  }

  /** A body too short for its magic is truncated; the magic is judged before the version, the version before the rest. */
  lemma HelloErrors(body: seq<Byte>)
    ensures DecodeHelloBody(body) == Err(Truncated("header")) <==> |body| < 6 || (Greets(body) && |body| < 12)
    ensures forall m :: DecodeHelloBody(body) == Err(BadMagic(m)) <==> |body| >= 6 && De32(body[..4]) == m != WIRE_MAGIC
    ensures forall v :: DecodeHelloBody(body) == Err(UnsupportedVersion(v)) <==>
      |body| >= 6 && De32(body[..4]) == WIRE_MAGIC && De16(body[4..6]) == v != WIRE_VERSION
  {
    if |body| >= 12 {
      AnnouncementErrorKinds(body[12..], De16(body[10..12]));
      assert Truncated("header") != Truncated("announcement length") by {
        assert |"header"| != |"announcement length"|;
      }
      assert Truncated("header") != Truncated("announcement identity") by {
        assert |"header"| != |"announcement identity"|;
      }
    }
  }

  /** What is wrong with the bytes behind well-formed announcements of `channels`, when one more is counted. */
  predicate Cut(rest: seq<Byte>, e: WireError) {
    if |rest| < 2 then e == Truncated("announcement length")
    else if |rest| < 2 + De16(rest[..2]) then e == Truncated("announcement identity")
    else !ValidUtf8(rest[2..2 + De16(rest[..2])]) && e == BadChannelId
  }

  lemma FirstIsCut(rest: seq<Byte>, count: nat, e: WireError)
    requires count > 0 && Cut(rest, e)
    ensures ParseAnnouncements(rest, count) == Err(e)
  {
  }

  lemma ErrorBehindOne(s: seq<Byte>, ch: Text, tail: seq<Byte>, count: nat, e: WireError)
    requires |ch| < 0x1_0000 && s == Be16(|ch|) + ch + tail && count > 0 && ParseAnnouncements(tail, count - 1) == Err(e)
    ensures ParseAnnouncements(s, count) == Err(e)
  {
    AnnouncementSlices(ch, tail);
    RoundTrip16(|ch|);
  }

  lemma FirstApartFromRest(channels: seq<Text>, rest: seq<Byte>)
    requires channels != [] && ShortNames(channels)
    ensures Announcements(channels) + rest == Be16(|channels[0]|) + channels[0] + (Announcements(channels[1..]) + rest)
  {
    Regroup(Be16(|channels[0]|) + channels[0], Announcements(channels[1..]), rest);
  }

  /** What is wrong behind some well-formed announcements is wrong with the list. */
  lemma {:induction false} ErrorBehind(channels: seq<Text>, rest: seq<Byte>, count: nat, e: WireError)
    requires ShortNames(channels) && ParseAnnouncements(rest, count) == Err(e)
    ensures ParseAnnouncements(Announcements(channels) + rest, |channels| + count) == Err(e)
    decreases |channels|
  {
    if channels == [] {
      NothingFirst(rest);
    } else {
      var s, tail := Announcements(channels) + rest, Announcements(channels[1..]) + rest;
      FirstApartFromRest(channels, rest);
      ErrorBehind(channels[1..], rest, count, e);
      ErrorBehindOne(s, channels[0], tail, |channels| + count, e);
    }
  }

  /** An announcement list is refused for its first announcement that is cut short or not text. */
  lemma AnnouncementErrors(channels: seq<Text>, rest: seq<Byte>, count: nat, e: WireError)
    requires ShortNames(channels) && |channels| < count && Cut(rest, e)
    ensures ParseAnnouncements(Announcements(channels) + rest, count) == Err(e)
  {
    FirstIsCut(rest, count - |channels|, e);
    ErrorBehind(channels, rest, count - |channels|, e);
  }
}
