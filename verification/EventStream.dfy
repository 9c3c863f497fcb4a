/** One-shot decoding of a byte stream, and the incremental decoder state it is compared with (codec-api/src/lib.rs). */
module EventStream {
  import opened Basics
  import opened Envelope

  type Bytes = seq<Byte>

  /** What a byte stream says: its whole events, what is left, and the error that stopped it, if any. */
  datatype Decoding = Decoding(events: seq<Event>, rest: Bytes, error: Option<EnvelopeError>)

  function DecodeAll(s: Bytes): Decoding
    decreases |s|
  {
    match TryDecode(s)
    case NeedMore => Decoding([], s, None)
    case Refused(e) => Decoding([], s, Some(e))
    case Decoded(e, n) =>
      DecodedIsWithin(s);
      var d := DecodeAll(s[n..]);
      d.(events := [e] + d.events)
  }

  /** Decoding `events` off the front of `stream` leaves `live`. */
  ghost predicate LeavesLive(stream: Bytes, events: seq<Event>, live: Bytes)
    decreases |events|
  {
    if events == [] then live == stream
    else
      TryDecode(stream).Decoded? &&
      var Decoded(e, n) := TryDecode(stream);
      n <= |stream| && e == events[0] && LeavesLive(stream[n..], events[1..], live)
  }

  /** More bytes at the end only lengthen what is left. */
  lemma {:induction false} PushExtendsLive(stream: Bytes, events: seq<Event>, live: Bytes, more: Bytes)
    requires LeavesLive(stream, events, live)
    ensures LeavesLive(stream + more, events, live + more)
    decreases |events|
  {
    if events != [] {
      var n := TryDecode(stream).consumed;
      TryDecodeStable(stream, more);
      assert (stream + more)[n..] == stream[n..] + more;
      PushExtendsLive(stream[n..], events[1..], live, more);
    }
  }

  /** Decoding one more event off the live bytes. */
  lemma {:induction false} NextConsumesLive(stream: Bytes, events: seq<Event>, live: Bytes)
    requires LeavesLive(stream, events, live) && TryDecode(live).Decoded?
    ensures TryDecode(live).consumed <= |live|
    ensures LeavesLive(stream, events + [TryDecode(live).value], live[TryDecode(live).consumed..])
    decreases |events|
  {
    DecodedIsWithin(live);
    var all := events + [TryDecode(live).value];
    if events == [] {
      assert all[1..] == [];
    } else {
      NextConsumesLive(stream[TryDecode(stream).consumed..], events[1..], live);
      assert all[1..] == events[1..] + [TryDecode(live).value];
    }
  }

  /** What was delivered is a prefix of the one-shot decoding; the rest of it is the decoding of the live bytes. */
  lemma {:induction false} DeliveredIsPrefix(stream: Bytes, events: seq<Event>, live: Bytes)
    requires LeavesLive(stream, events, live)
    ensures DecodeAll(stream) == DecodeAll(live).(events := events + DecodeAll(live).events)
    decreases |events|
  {
    if events == [] {
      NothingFirst(DecodeAll(live).events);
    } else {
      DeliveredIsPrefix(stream[TryDecode(stream).consumed..], events[1..], live);
      HeadFirst(events, DecodeAll(live).events);
    }
  }

  /** The next event decoded off the live bytes is the next event of the one-shot decoding. */
  lemma NextIsNth(stream: Bytes, events: seq<Event>, live: Bytes)
    requires LeavesLive(stream, events, live) && TryDecode(live).Decoded?
    ensures events + [TryDecode(live).value] <= DecodeAll(stream).events
  {
    DeliveredIsPrefix(stream, events, live);
    DecodedIsWithin(live);
    assert DecodeAll(live).events[0] == TryDecode(live).value;
  }

  /** When no event is left at the front of the live bytes, the one-shot decoding is exactly what was delivered. */
  lemma NoNextMeansDone(stream: Bytes, events: seq<Event>, live: Bytes)
    requires LeavesLive(stream, events, live)
    ensures TryDecode(live).NeedMore? ==>
      DecodeAll(stream) == Decoding(events, live, None) && |live| < MAX_FRAME_SIZE + 4
    ensures TryDecode(live).Refused? ==> DecodeAll(stream) == Decoding(events, live, Some(TryDecode(live).error))
  {
    DeliveredIsPrefix(stream, events, live);
    DecodedIsWithin(live);
    NothingLast(events);
  }

  // ---- Runs of the incremental decoder ----

  datatype Op = Push(bytes: Bytes) | NextEvent

  /** The live bytes after one operation. */
  function StepLive(live: Bytes, op: Op): Bytes {
    match op
    case Push(bytes) => live + bytes
    case NextEvent =>
      if TryDecode(live).Decoded? then
        DecodedIsWithin(live);
        live[TryDecode(live).consumed..]
      else live
  }

  function RunLive(ops: seq<Op>): Bytes {
    if ops == [] then [] else StepLive(RunLive(ops[..|ops| - 1]), ops[|ops| - 1])
  }

  function Pushed(ops: seq<Op>): Bytes {
    if ops == [] then []
    else Pushed(ops[..|ops| - 1]) + match ops[|ops| - 1] { case Push(bytes) => bytes case NextEvent => [] }
  }

  /** The events the `next_event` calls of a run return. */
  function Delivered(ops: seq<Op>): seq<Event> {
    if ops == [] then []
    else
      var init, last := ops[..|ops| - 1], ops[|ops| - 1];
      Delivered(init) +
      if last.NextEvent? && TryDecode(RunLive(init)).Decoded? then [TryDecode(RunLive(init)).value] else []
  }

  lemma {:induction false} RunLeavesLive(ops: seq<Op>)
    ensures LeavesLive(Pushed(ops), Delivered(ops), RunLive(ops))
  {
    if ops != [] {
      var init, last := ops[..|ops| - 1], ops[|ops| - 1];
      RunLeavesLive(init);
      match last {
        case Push(bytes) =>
          PushExtendsLive(Pushed(init), Delivered(init), RunLive(init), bytes);
          NothingLast(Delivered(init));
        case NextEvent =>
          NothingLast(Pushed(init));
          if TryDecode(RunLive(init)).Decoded? {
            NextConsumesLive(Pushed(init), Delivered(init), RunLive(init));
          } else {
            NothingLast(Delivered(init));
          }
      }
    }
  }

  /**
   * Any interleaving of pushes and calls: the events delivered so far followed by the decoding of the
   * live bytes is the one-shot decoding of everything pushed. Once the decoder answers "need more",
   * nothing is outstanding and fewer than MAX_FRAME_SIZE + 4 bytes are buffered; once it answers an
   * error, everything before the error was delivered and the error is the stream's.
   */
  lemma DecoderAgreesWithOneShot(ops: seq<Op>)
    ensures var live, all := RunLive(ops), DecodeAll(Pushed(ops));
            && all == DecodeAll(live).(events := Delivered(ops) + DecodeAll(live).events)
            && (TryDecode(live).NeedMore? ==>
                  all == Decoding(Delivered(ops), live, None) && |live| < MAX_FRAME_SIZE + 4)
            && (TryDecode(live).Refused? ==>
                  all == Decoding(Delivered(ops), live, Some(TryDecode(live).error)))
  {
    RunLeavesLive(ops);
    DeliveredIsPrefix(Pushed(ops), Delivered(ops), RunLive(ops));
    NoNextMeansDone(Pushed(ops), Delivered(ops), RunLive(ops));
  }

  /** An error is the same error however many bytes follow. */
  lemma ErrorIsSticky(live: Bytes, more: Bytes)
    requires TryDecode(live).Refused?
    ensures TryDecode(live + more) == TryDecode(live)
    ensures DecodeAll(live + more).events == [] && DecodeAll(live + more).error == Some(TryDecode(live).error)
  {
    TryDecodeStable(live, more);
  }

  function EncodeEach(events: seq<Event>): Bytes
    requires forall e :: e in events ==> Encode(e).Ok?
  {
    if events == [] then [] else Encode(events[0]).value + EncodeEach(events[1..])
  }

  lemma FirstFrame(e: Event, rest: Bytes)
    requires Encode(e).Ok?
    ensures var d := DecodeAll(rest); DecodeAll(Encode(e).value + rest) == d.(events := [e] + d.events)
  {
    EventRoundTrip(e, rest);
    assert (Encode(e).value + rest)[|Encode(e).value|..] == rest;
  }

  /** A stream of encoded events decodes to exactly those events, with a partial frame at the end left over. */
  lemma {:induction false} EncodedStreamDecodes(events: seq<Event>, tail: Bytes)
    requires forall e :: e in events ==> Encode(e).Ok?
    requires TryDecode(tail).NeedMore?
    ensures DecodeAll(EncodeEach(events) + tail) == Decoding(events, tail, None)
  {
    if events == [] {
      assert EncodeEach(events) + tail == tail;
    } else {
      var frame, rest := Encode(events[0]).value, EncodeEach(events[1..]) + tail;
      EncodedStreamDecodes(events[1..], tail);
      assert EncodeEach(events) + tail == frame + rest;
      FirstFrame(events[0], rest);
      assert events == [events[0]] + events[1..];
    }
  }

  /** However a stream of encoded events is cut into reads, a drained decoder has delivered exactly those events. */
  lemma ChunkedRoundTrip(events: seq<Event>, tail: Bytes, ops: seq<Op>)
    requires forall e :: e in events ==> Encode(e).Ok?
    requires TryDecode(tail).NeedMore?
    requires Pushed(ops) == EncodeEach(events) + tail && TryDecode(RunLive(ops)).NeedMore?
    ensures Delivered(ops) == events && RunLive(ops) == tail
  {
    EncodedStreamDecodes(events, tail);
    DecoderAgreesWithOneShot(ops);
  }
}
