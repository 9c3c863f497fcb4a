/** The codec's stateful side: encoders that append to a buffer and the cursor-and-compaction decoder (codec-api/src/lib.rs). */
module FrameCodec {
  import opened Basics
  import opened Utf8
  import E = Envelope
  import H = Hello
  import S = EventStream

  class ByteVec {
    var bytes: seq<Byte>

    constructor ()
      ensures bytes == []
    {
      bytes := [];
    }
  }

  /** Append one event frame, or refuse it and append nothing. */
  method EncodeInto(e: E.Event, out: ByteVec) returns (refused: Option<E.EnvelopeError>)
    modifies out
    ensures refused.None? <==> E.BodyLength(e) <= E.MAX_FRAME_SIZE
    ensures refused.None? ==> E.Encode(e).Ok? && out.bytes == old(out.bytes) + E.Encode(e).value
    ensures refused.Some? ==> out.bytes == old(out.bytes) && E.Encode(e) == Err(refused.value)
  {
    var payload := E.Payload(e.kind);
    var bodyLen := 1 + 2 + |e.channel| + |payload|;
    if bodyLen > E.MAX_FRAME_SIZE {
      return Some(E.FrameTooLarge(bodyLen));
    }
    out.bytes := out.bytes + Be32(bodyLen);
    out.bytes := out.bytes + [E.TypeByte(e.kind)];
    out.bytes := out.bytes + Be16(|e.channel|);
    out.bytes := out.bytes + e.channel;
    out.bytes := out.bytes + payload;
    refused := None;
  }

  lemma {:induction false} AnnouncementsSnoc(channels: seq<Text>, i: nat)
    requires i < |channels| && H.ShortNames(channels)
    ensures H.Announcements(channels[..i + 1]) == H.Announcements(channels[..i]) + Be16(|channels[i]|) + channels[i]
    ensures H.AnnouncementsLength(channels[..i + 1]) == H.AnnouncementsLength(channels[..i]) + 2 + |channels[i]|
    decreases i
  {
    if i > 0 {
      AnnouncementsSnoc(channels[1..], i - 1);
      assert channels[..i + 1][1..] == channels[1..][..i] && channels[..i][1..] == channels[1..][..i - 1];
    } else {
      assert channels[..1] == [channels[0]] && channels[..0] == [];
      assert channels[..1][1..] == [];
    }
  }

  lemma {:induction false} LengthSnoc(channels: seq<Text>, i: nat)
    requires i < |channels|
    ensures H.AnnouncementsLength(channels[..i + 1]) == H.AnnouncementsLength(channels[..i]) + 2 + |channels[i]|
    decreases i
  {
    if i > 0 {
      LengthSnoc(channels[1..], i - 1);
      assert channels[..i + 1][1..] == channels[1..][..i] && channels[..i][1..] == channels[1..][..i - 1];
    } else {
      assert channels[..1][1..] == [];
    }
  }

  method AnnouncedLength(channels: seq<Text>) returns (n: nat)
    ensures n == H.AnnouncementsLength(channels)
  {
    n := 0;
    for i := 0 to |channels|
      invariant n == H.AnnouncementsLength(channels[..i])
    {
      LengthSnoc(channels, i);
      n := n + 2 + |channels[i]|;
    }
    assert channels[..|channels|] == channels;
  }

  method AppendAnnouncements(channels: seq<Text>, out: ByteVec)
    requires H.ShortNames(channels)
    modifies out
    ensures out.bytes == old(out.bytes) + H.Announcements(channels)
  {
    for i := 0 to |channels|
      invariant out.bytes == old(out.bytes) + H.Announcements(channels[..i])
    {
      AnnouncementsSnoc(channels, i);
      out.bytes := out.bytes + Be16(|channels[i]|);
      out.bytes := out.bytes + channels[i];
    }
    assert channels[..|channels|] == channels;
  }

  /** Append a hello frame, or refuse it and append nothing: no refusal is possible once the first byte is out. */
  method EncodeHelloInto(h: H.Hello, out: ByteVec) returns (refused: Option<H.WireError>)
    modifies out
    ensures refused.None? <==> H.BodyLength(h) <= E.MAX_FRAME_SIZE
    ensures refused.None? ==> H.EncodeHello(h).Ok? && out.bytes == old(out.bytes) + H.EncodeHello(h).value
    ensures refused.Some? ==> out.bytes == old(out.bytes) && H.EncodeHello(h) == Err(refused.value)
  {
    var bodyLen := AnnouncedLength(h.channels);
    bodyLen := 12 + bodyLen;
    if bodyLen > E.MAX_FRAME_SIZE {
      return Some(H.FrameTooLarge(bodyLen));
    }
    H.FittingNamesAreShort(h.channels, E.MAX_FRAME_SIZE - 12);
    out.bytes := out.bytes + Be32(bodyLen);
    out.bytes := out.bytes + Be32(H.WIRE_MAGIC);
    out.bytes := out.bytes + Be16(h.version);
    out.bytes := out.bytes + Be32(h.capabilities);
    out.bytes := out.bytes + Be16(|h.channels|);
    HeadersJoin(old(out.bytes), Be32(bodyLen), Be32(H.WIRE_MAGIC), Be16(h.version), Be32(h.capabilities),
                Be16(|h.channels|), H.Announcements(h.channels));
    AppendAnnouncements(h.channels, out);
    refused := None;
  }

  lemma HeadersJoin(s: seq<Byte>, a: seq<Byte>, b: seq<Byte>, c: seq<Byte>, d: seq<Byte>, e: seq<Byte>, f: seq<Byte>)
    ensures s + a + b + c + d + e + f == s + (a + ((b + c + d + e) + f))
  {
  }

  function Prepend(front: seq<Text>, r: Result<seq<Text>, H.WireError>): Result<seq<Text>, H.WireError> {
    match r
    case Ok(rest) => Ok(front + rest)
    case Err(e) => Err(e)
  }

  lemma PrependNothing(r: Result<seq<Text>, H.WireError>)
    ensures Prepend([], r) == r
  {
    if r.Ok? {
      NothingFirst(r.value);
    }
  }

  lemma PrependToNothing(front: seq<Text>, s: seq<Byte>)
    ensures Prepend(front, H.ParseAnnouncements(s, 0)) == Ok(front)
  {
    NothingLast(front);
  }

  /** One announcement read at `off` moves it from the parse of the rest to the front. */
  lemma ReadOne(body: seq<Byte>, off: nat, count: nat, front: seq<Text>, channel: Text)
    requires 0 < count && off + 2 <= |body| && off + 2 + De16(body[off..off + 2]) <= |body|
    requires channel == body[off + 2..off + 2 + De16(body[off..off + 2])]
    ensures Prepend(front, H.ParseAnnouncements(body[off..], count)) ==
            Prepend(front + [channel], H.ParseAnnouncements(body[off + 2 + |channel|..], count - 1))
  {
    var s, end := body[off..], 2 + |channel|;
    assert s[..2] == body[off..off + 2] && s[2..end] == channel && s[end..] == body[off + end..];
    match H.ParseAnnouncements(s[end..], count - 1) {
      case Ok(rest) => MiddleMoves(front, channel, rest);
      case Err(_) =>
    }
  }

  /** An announcement cut short or ill-formed at `off` refuses the list. */
  lemma ReadStops(body: seq<Byte>, off: nat, count: nat)
    requires 0 < count && off + 2 <= |body|
    ensures var end := off + 2 + De16(body[off..off + 2]);
            && (|body| < end ==> H.ParseAnnouncements(body[off..], count) == Err(H.Truncated("announcement identity")))
            && (end <= |body| && !ValidUtf8(body[off + 2..end]) ==>
                  H.ParseAnnouncements(body[off..], count) == Err(H.BadChannelId))
  {
    var s, len := body[off..], De16(body[off..off + 2]);
    assert s[..2] == body[off..off + 2];
    if off + 2 + len <= |body| {
      assert s[2..2 + len] == body[off + 2..off + 2 + len];
    }
  }

  /** The announcement at `off`, or the reason the whole list is refused. */
  method ReadAnnouncement(body: seq<Byte>, off: nat, ghost count: nat, ghost front: seq<Text>)
    returns (r: Result<Text, H.WireError>)
    requires 0 < count && off <= |body|
    ensures r.Err? ==> Prepend(front, H.ParseAnnouncements(body[off..], count)) == Err(r.error)
    ensures r.Ok? ==>
      && off + 2 + |r.value| <= |body|
      && Prepend(front, H.ParseAnnouncements(body[off..], count)) ==
         Prepend(front + [r.value], H.ParseAnnouncements(body[off + 2 + |r.value|..], count - 1))
  {
    if |body| < off + 2 {
      return Err(H.Truncated("announcement length"));
    }
    var len := De16(body[off..off + 2]);
    ReadStops(body, off, count);
    if |body| < off + 2 + len {
      return Err(H.Truncated("announcement identity"));
    }
    if !ValidUtf8(body[off + 2..off + 2 + len]) {
      return Err(H.BadChannelId);
    }
    var channel: Text := body[off + 2..off + 2 + len];
    ReadOne(body, off, count, front, channel);
    r := Ok(channel);
  }

  /** The announcement list of a hello body, read by a moving offset. */
  method ReadAnnouncements(body: seq<Byte>, count: nat) returns (r: Result<seq<Text>, H.WireError>)
    requires |body| >= 12
    ensures r == H.ParseAnnouncements(body[12..], count)
  {
    var channels: seq<Text> := [];
    var off, left := 12, count;
    ghost var whole := H.ParseAnnouncements(body[12..], count);
    PrependNothing(whole);
    while left > 0
      invariant 12 <= off <= |body|
      invariant whole == Prepend(channels, H.ParseAnnouncements(body[off..], left))
    {
      var channel := ReadAnnouncement(body, off, left, channels);
      match channel {
        case Err(e) => return Err(e);
        case Ok(name) =>
          off, channels, left := off + 2 + |name|, channels + [name], left - 1;
      }
    }
    PrependToNothing(channels, body[off..]);
    r := Ok(channels);
  }

  lemma DropTwice(buf: seq<Byte>, a: nat, b: nat)
    requires a + b <= |buf|
    ensures buf[a..][b..] == buf[a + b..]
  {
  }

  /** The streaming decoder: retired bytes are skipped by a cursor and dropped once per read batch. */
  class FrameDecoder {
    var buf: seq<Byte>
    var start: nat
    /** Everything pushed and every event returned so far. */
    ghost var pushed: seq<Byte>
    ghost var delivered: seq<E.Event>

    ghost function Live(): seq<Byte>
      reads this
      requires start <= |buf|
    {
      buf[start..]
    }

    ghost predicate Valid()
      reads this
    {
      start <= |buf| && S.LeavesLive(pushed, delivered, buf[start..])
    }

    constructor ()
      ensures Valid() && Live() == [] && pushed == [] && delivered == []
    {
      buf, start, pushed, delivered := [], 0, [], [];
    }

    method Compact()
      requires Valid()
      modifies this`buf, this`start
      ensures Valid() && start == 0 && Live() == old(Live())
    {
      if start == 0 {
        return;
      }
      if start == |buf| {
        buf := [];
      } else {
        buf := buf[start..];
      }
      start := 0;
      assert buf[start..] == old(Live());
    }

    method Push(bytes: seq<Byte>)
      requires Valid()
      modifies this
      ensures Valid() && Live() == old(Live()) + bytes
      ensures pushed == old(pushed) + bytes && delivered == old(delivered)
    {
      Compact();
      S.PushExtendsLive(pushed, delivered, Live(), bytes);
      assert (buf + bytes)[0..] == Live() + bytes;
      buf := buf + bytes;
      pushed := pushed + bytes;
    }

    /** Move the cursor past a decoded frame; a drained buffer is emptied at once. */
    method Retire(event: E.Event, consumed: nat)
      requires Valid() && E.TryDecode(Live()) == E.Decoded(event, consumed)
      modifies this`buf, this`start, this`delivered
      ensures Valid() && delivered == old(delivered) + [event]
    {
      S.NextConsumesLive(pushed, delivered, Live());
      DropTwice(buf, start, consumed);
      start := start + consumed;
      delivered := delivered + [event];
      if start == |buf| {
        ghost var rest := buf[start..];
        buf := [];
        start := 0;
        assert buf[start..] == rest;
      }
    }

    /** The next event of the one-shot decoding of everything pushed, "need more", or its error. */
    method Next() returns (r: Result<Option<E.Event>, E.EnvelopeError>)
      requires Valid()
      modifies this
      ensures Valid() && pushed == old(pushed)
      ensures r.Ok? && r.value.Some? ==>
        delivered == old(delivered) + [r.value.value] && delivered <= S.DecodeAll(pushed).events
      ensures r.Ok? && r.value.None? ==>
        && delivered == old(delivered) && Live() == old(Live()) && |Live()| < E.MAX_FRAME_SIZE + 4
        && S.DecodeAll(pushed) == S.Decoding(delivered, Live(), None)
      ensures r.Err? ==>
        && delivered == old(delivered) && Live() == old(Live())
        && S.DecodeAll(pushed) == S.Decoding(delivered, Live(), Some(r.error))
    {
      E.DecodedIsWithin(Live());
      match E.TryDecode(buf[start..]) {
        case Decoded(event, consumed) =>
          S.NextIsNth(pushed, delivered, Live());
          Retire(event, consumed);
          r := Ok(Some(event));
        case NeedMore =>
          S.NoNextMeansDone(pushed, delivered, Live());
          r := Ok(None);
        case Refused(e) =>
          S.NoNextMeansDone(pushed, delivered, Live());
          r := Err(e);
      }
    }

    method Buffered() returns (n: nat)
      requires Valid()
      ensures n == |Live()|
    {
      n := |buf| - start;
    }
  }
}
