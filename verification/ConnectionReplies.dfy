/** Which answer each request line of a control connection gets, told from the events alone (daemon/src/control.rs). */
module ConnectionReplies {
  import opened Basics
  import opened Connection

  // ---- The book: what is owed, without slots, writes or a wire ----

  /**
   * The answer of every line read so far, none yet for the verb in flight; the taps open here; and the lines
   * written that answer no request. It is kept by looking at what happens to the connection, not at its state.
   */
  datatype Book = Book(answers: seq<Option<Outcome>>, verb: Option<nat>, taps: seq<nat>, pushes: seq<Frame>)

  const BLANK_BOOK := Book([], None, [], [])

  /** The taps with the first occurrence of `tap` taken out. */
  function Drop(taps: seq<nat>, tap: nat): seq<nat> {
    if taps == [] then [] else if taps[0] == tap then taps[1..] else [taps[0]] + Drop(taps[1..], tap)
  }

  /** What a request is answered at once when no verb is in flight; nothing for a verb. */
  function OwnAnswer(taps: seq<nat>, request: Request): Option<Outcome> {
    match request
    case Blank => None
    case Unparseable(code) => Some(Refused(code))
    case TapOpen(_, granted) => Some(if granted.Ok? then Opened(granted.value) else Refused(granted.error))
    case TapClose(_, tap, orphaned) =>
      Some(if tap.Some? && tap.value in taps && !orphaned then Closed(tap.value) else Refused(INVALID_PARAMS))
    case Verb(_, _) => None
  }

  function Record(b: Book, e: Event): Book {
    match e
    case Settle(result) =>
      if b.verb.Some? && b.verb.value < |b.answers|
      then b.(verb := None, answers := b.answers[b.verb.value := Some(Dispatched(result))])
      else b
    case ReadLine(request) =>
      if request.Blank? then b
      else if b.verb.Some? && !request.Unparseable? then b.(answers := b.answers + [Some(Refused(WAIT_IN_FLIGHT))])
      else
        b.(answers := b.answers + [OwnAnswer(b.taps, request)],
           verb := if request.Verb? then Some(|b.answers|) else b.verb,
           taps := if request.TapOpen? && request.granted.Ok? then b.taps + [request.granted.value]
                   else if request.TapClose? && request.tap.Some? then Drop(b.taps, request.tap.value)
                   else b.taps)
    case ReadTooLong => b.(pushes := b.pushes + [Overlong])
    case Notify => b.(pushes := b.pushes + [Notification])
    case TapDeliver(tap, closed) => b.(pushes := b.pushes + [TapNote(tap, closed)])
    case _ => b
  }

  function RecordAll(b: Book, events: seq<Event>): Book
    decreases events
  {
    if events == [] then b else RecordAll(Record(b, events[0]), events[1..])
  }

  /** Exactly the line of the verb in flight is unanswered. */
  ghost predicate Kept(b: Book) {
    && (b.verb.Some? ==> b.verb.value < |b.answers|)
    && (forall i :: 0 <= i < |b.answers| ==> (b.answers[i].None? <==> b.verb == Some(i)))
  }

  /** Answers, once in the book, stay. */
  ghost predicate Grows(b: Book, b': Book) {
    && |b.answers| <= |b'.answers|
    && (forall i :: 0 <= i < |b.answers| && b.answers[i].Some? ==> b'.answers[i] == b.answers[i])
  }

  lemma RecordKeeps(b: Book, e: Event)
    requires Kept(b)
    ensures Kept(Record(b, e)) && Grows(b, Record(b, e))
  {
  }

  lemma {:induction false} RecordAllKeeps(b: Book, events: seq<Event>)
    requires Kept(b)
    ensures Kept(RecordAll(b, events)) && Grows(b, RecordAll(b, events))
    decreases events
  {
    if events != [] {
      RecordKeeps(b, events[0]);
      RecordAllKeeps(Record(b, events[0]), events[1..]);
    }
  }

  // ---- The connection agrees with its book ----

  /** The verb in flight, the open taps and the number of lines are those of the book. */
  ghost predicate SlotsAgree(s: State, b: Book) {
    && |s.lines| == |b.answers| && s.openTaps == b.taps
    && (s.inflight.Some? <==> b.verb.Some?) && (s.inflight.Some? ==> b.verb == Some(s.inflight.value.line))
  }

  /** A reply carries the answer in the book. */
  predicate Right(b: Book, f: Frame) {
    f.Reply? ==> f.line < |b.answers| && b.answers[f.line] == Some(f.outcome)
  }

  ghost predicate RepliesAgree(s: State, b: Book) {
    && (forall k :: 0 <= k < |s.sent| ==> Right(b, s.sent[k]))
    && (Outgoing(s.pc).Some? ==> Right(b, Outgoing(s.pc).value))
    && (s.settled.Some? ==> Right(b, s.settled.value.Reply()))
  }

  /** The frames that answer no request. */
  function Pushed(frames: seq<Frame>): seq<Frame> {
    if frames == [] then []
    else Pushed(frames[..|frames| - 1]) + PushedOne(Some(frames[|frames| - 1]))
  }

  function PushedOne(f: Option<Frame>): seq<Frame> {
    if f.Some? && !f.value.Reply? then [f.value] else []
  }

  ghost predicate PushesAgree(s: State, b: Book) {
    Pushed(s.sent) + PushedOne(Outgoing(s.pc)) == b.pushes
  }

  ghost predicate Agrees(s: State, b: Book) {
    Kept(b) && SlotsAgree(s, b) && RepliesAgree(s, b) && PushesAgree(s, b)
  }

  lemma {:induction false} DropIsRemoval(taps: seq<nat>, tap: nat)
    ensures Drop(taps, tap) == match IndexOf(taps, tap) { case None => taps case Some(k) => taps[..k] + taps[k + 1..] }
  {
    if taps != [] && taps[0] != tap {
      DropIsRemoval(taps[1..], tap);
      match IndexOf(taps[1..], tap) {
        case None => FirstApart(taps);
        case Some(k) => RemovalBehindFirst(taps, k);
      }
    }
  }

  lemma RemovalBehindFirst(taps: seq<nat>, k: nat)
    requires k + 1 < |taps|
    ensures taps[..k + 1] + taps[k + 2..] == [taps[0]] + (taps[1..][..k] + taps[1..][k + 1..])
  {
  }

  lemma RightStays(b: Book, b': Book, f: Frame)
    requires Grows(b, b') && Right(b, f)
    ensures Right(b', f)
  {
  }

  /** What was right in the book stays right as the book grows. */
  lemma RepliesStay(s: State, b: Book, b': Book)
    requires RepliesAgree(s, b) && Grows(b, b')
    ensures RepliesAgree(s, b')
  {
    forall k | 0 <= k < |s.sent| ensures Right(b', s.sent[k]) {
      RightStays(b, b', s.sent[k]);
    }
  }

  lemma TopAgrees(s: State, b: Book)
    requires RepliesAgree(s.(pc := Select), b)
    ensures RepliesAgree(Top(s), b) && PushedOne(Outgoing(Top(s).pc)) == []
    ensures Top(s).sent == s.sent && Top(s).lines == s.lines && Top(s).inflight == s.inflight && Top(s).openTaps == s.openTaps
  {
  }

  lemma SettleAgrees(s: State, b: Book, result: Result<int, int>)
    requires OneVerb(s) && Agrees(s, b) && Enabled(s, Settle(result))
    ensures Agrees(Step(s, Settle(result)), Record(b, Settle(result)))
  {
    var b' := Record(b, Settle(result));
    RecordKeeps(b, Settle(result));
    RepliesStay(s, b, b');
    var t := s.(inflight := None, settled := Some(Settled(s.inflight.value, result)));
    assert Right(b', t.settled.value.Reply());
    if s.pc.Select? {
      TopAgrees(t, b');
    }
  }

  /** A line answered at once: its reply is on its way and in the book. */
  lemma AnswerAgrees(s: State, b: Book, b': Book, request: Request, outcome: Outcome)
    requires s.pc.Select? && s.settled.None? && RepliesAgree(s, b) && PushesAgree(s, b) && |s.lines| == |b.answers|
    requires Grows(b, b') && b'.answers == b.answers + [Some(outcome)] && b'.pushes == b.pushes
    ensures RepliesAgree(Answer(s, request, outcome, ToTop), b') && PushesAgree(Answer(s, request, outcome, ToTop), b')
  {
    RepliesStay(s, b, b');
  }

  /** A line answered at once leaves the slots to the book, apart from the taps it opens or closes. */
  lemma AnswerSlotsAgree(s: State, b: Book, request: Request, outcome: Outcome, taps: seq<nat>, t: State)
    requires SlotsAgree(s, b) && t.(openTaps := s.openTaps, everOpened := s.everOpened) == Answer(s, request, outcome, ToTop)
    requires t.openTaps == taps
    ensures SlotsAgree(t, b.(answers := b.answers + [Some(outcome)], taps := taps))
  {
  }

  lemma RefusalAgrees(s: State, b: Book, request: Request)
    requires s.pc.Select? && s.settled.None? && Agrees(s, b) && s.inflight.Some? && !request.Blank?
    ensures Agrees(Refuse(s, request), Record(b, ReadLine(request)))
  {
    var outcome := Refused(if request.Unparseable? then request.code else WAIT_IN_FLIGHT);
    RecordKeeps(b, ReadLine(request));
    AnswerAgrees(s, b, Record(b, ReadLine(request)), request, outcome);
    AnswerSlotsAgree(s, b, request, outcome, s.openTaps, Refuse(s, request));
  }

  lemma VerbAgrees(s: State, b: Book, request: Request)
    requires s.pc.Select? && s.settled.None? && Agrees(s, b) && s.inflight.None? && request.Verb?
    ensures Agrees(Accept(s, request), Record(b, ReadLine(request)))
  {
    RecordKeeps(b, ReadLine(request));
    RepliesStay(s, b, Record(b, ReadLine(request)));
  }

  /** What an accepted request that is no verb is answered, and the taps it leaves. */
  lemma AcceptAnswers(s: State, request: Request)
    requires !request.Blank? && !request.Verb?
    ensures OwnAnswer(s.openTaps, request).Some?
    ensures Accept(s, request).(openTaps := s.openTaps, everOpened := s.everOpened) ==
            Answer(s, request, OwnAnswer(s.openTaps, request).value, ToTop)
    ensures Accept(s, request).openTaps ==
            if request.TapOpen? && request.granted.Ok? then s.openTaps + [request.granted.value]
            else if request.TapClose? && request.tap.Some? then Drop(s.openTaps, request.tap.value)
            else s.openTaps
  {
    if request.TapClose? && request.tap.Some? {
      DropIsRemoval(s.openTaps, request.tap.value);
    }
  }

  lemma AcceptAgrees(s: State, b: Book, request: Request)
    requires s.pc.Select? && s.settled.None? && Agrees(s, b) && s.inflight.None? && !request.Blank? && !request.Verb?
    ensures Agrees(Accept(s, request), Record(b, ReadLine(request)))
  {
    var t, b' := Accept(s, request), Record(b, ReadLine(request));
    AcceptAnswers(s, request);
    var outcome := OwnAnswer(s.openTaps, request).value;
    RecordKeeps(b, ReadLine(request));
    AnswerAgrees(s, b, b', request, outcome);
    AnswerSlotsAgree(s, b, request, outcome, t.openTaps, t);
  }

  lemma ReadAgrees(s: State, b: Book, request: Request)
    requires s.pc.Select? && s.settled.None? && Agrees(s, b)
    ensures Agrees(Step(s, ReadLine(request)), Record(b, ReadLine(request)))
  {
    if request.Blank? {
      TopKeepsAgreement(s, b);
    } else if s.inflight.Some? {
      RefusalAgrees(s, b, request);
    } else if request.Verb? {
      VerbAgrees(s, b, request);
    } else {
      AcceptAgrees(s, b, request);
    }
  }

  lemma PushedSnoc(frames: seq<Frame>, f: Frame)
    ensures Pushed(frames + [f]) == Pushed(frames) + PushedOne(Some(f))
  {
    assert (frames + [f])[..|frames|] == frames;
  }

  lemma SentAgrees(s: State, b: Book)
    requires s.pc.Writing? && Agrees(s, b)
    ensures Agrees(Sent(s), b)
  {
    PushedSnoc(s.sent, s.pc.frame);
    NothingLast(Pushed(Sent(s).sent));
  }

  /** Agreement does not look at the program counter beyond the frame it carries, nor at the subscription. */
  lemma AgreesAlike(s: State, t: State, b: Book)
    requires Agrees(s, b) && Outgoing(t.pc) == Outgoing(s.pc) && t.sent == s.sent && t.lines == s.lines
    requires t.inflight == s.inflight && t.settled == s.settled && t.openTaps == s.openTaps
    ensures Agrees(t, b)
  {
  }

  lemma TopKeepsAgreement(s: State, b: Book)
    requires s.pc.Select? && Agrees(s, b)
    ensures Agrees(Top(s), b)
  {
    TopAgrees(s, b);
  }

  lemma WriteAgrees(s: State, b: Book)
    requires s.pc.Writing? && Agrees(s, b)
    ensures Agrees(Written(s), b)
  {
    SentAgrees(s, b);
    var t := Sent(s);
    match s.pc.after {
      case ToTop => TopKeepsAgreement(t, b);
      case ToSelect =>
      case Subscribe => AgreesAlike(t, t.(subscribed := true), b);
      case Hangup => AgreesAlike(t, t.(pc := Ended(None)), b);
    }
  }

  lemma PushAgrees(s: State, b: Book, frame: Frame, after: After)
    requires s.pc.Select? && Agrees(s, b) && !frame.Reply?
    ensures Agrees(s.(pc := Writing(frame, after)), b.(pushes := b.pushes + [frame]))
  {
    NothingLast(Pushed(s.sent));
    RepliesStay(s, b, b.(pushes := b.pushes + [frame]));
  }

  lemma StepAgrees(s: State, b: Book, e: Event)
    requires OneVerb(s) && Agrees(s, b) && Enabled(s, e)
    ensures Agrees(Step(s, e), Record(b, e))
  {
    match e {
      case Settle(result) => SettleAgrees(s, b, result);
      case ReadLine(request) => ReadAgrees(s, b, request);
      case ReadTooLong => PushAgrees(s, b, Overlong, Hangup);
      case Notify => PushAgrees(s, b, Notification, ToTop);
      case TapDeliver(tap, closed) => PushAgrees(s, b, TapNote(tap, closed), ToTop);
      case WriteDone => WriteAgrees(s, b);
      case _ =>
    }
  }

  lemma {:induction false} RunAgrees(s: State, b: Book, events: seq<Event>)
    requires OneVerb(s) && Agrees(s, b) && LegalRun(s, events)
    ensures Agrees(Run(s, events), RecordAll(b, events))
    decreases events
  {
    if events != [] {
      StepKeepsOneVerb(s, events[0]);
      StepAgrees(s, b, events[0]);
      RunAgrees(Step(s, events[0]), Record(b, events[0]), events[1..]);
    }
  }

  /**
   * In every run the connection agrees with its book: every reply written, on its way or held back carries the
   * answer the events call for; the verb in flight and the open taps are the book's; and the lines that answer
   * no request are the over-long refusal, the notifications and the tap deliveries, in the order they came.
   */
  lemma ConnectionFollowsBook(events: seq<Event>)
    requires LegalRun(START, events)
    ensures Agrees(Run(START, events), RecordAll(BLANK_BOOK, events))
  {
    RunAgrees(START, BLANK_BOOK, events);
  }

  // ---- What one line is answered ----

  lemma {:induction false} RunJoins(s: State, a: seq<Event>, b: seq<Event>)
    requires LegalRun(s, a + b)
    ensures LegalRun(s, a) && LegalRun(Run(s, a), b) && Run(s, a + b) == Run(Run(s, a), b)
    decreases a
  {
    if a == [] {
      assert a + b == b;
    } else {
      assert (a + b)[1..] == a[1..] + b;
      RunJoins(Step(s, a[0]), a[1..], b);
    }
  }

  lemma {:induction false} RecordJoins(k: Book, a: seq<Event>, b: seq<Event>)
    ensures RecordAll(k, a + b) == RecordAll(RecordAll(k, a), b)
    decreases a
  {
    if a == [] {
      assert a + b == b;
    } else {
      assert (a + b)[1..] == a[1..] + b;
      RecordJoins(Record(k, a[0]), a[1..], b);
    }
  }

  /** The state and the book before and after the line `request` that follows `before` in a run. */
  lemma AtTheLine(before: seq<Event>, request: Request, after: seq<Event>) returns (b: Book)
    requires LegalRun(START, before + ([ReadLine(request)] + after))
    ensures LegalRun(START, before) && Agrees(Run(START, before), b)
    ensures RecordAll(BLANK_BOOK, before + ([ReadLine(request)] + after)) == RecordAll(Record(b, ReadLine(request)), after)
  {
    b := RecordAll(BLANK_BOOK, before);
    RunJoins(START, before, [ReadLine(request)] + after);
    RecordJoins(BLANK_BOOK, before, [ReadLine(request)] + after);
    ConnectionFollowsBook(before);
    assert ([ReadLine(request)] + after)[1..] == after;
  }

  /**
   * In every run, by the state in which a line is read: behind a verb in flight it is refused for that, unless
   * it is unparseable; otherwise a tap request gets its own answer, and a verb the answer it is dispatched to.
   * A tap close succeeds exactly when the tap is open here and its endpoint is still there.
   */
  lemma LineIsAnsweredByState(before: seq<Event>, request: Request, after: seq<Event>, k: nat)
    requires !request.Blank? && LegalRun(START, before + ([ReadLine(request)] + after))
    requires LegalRun(START, before)
    requires AnsweredAt(Run(START, before + ([ReadLine(request)] + after)), |Run(START, before).lines|, k)
    ensures var s, outcome := Run(START, before), Run(START, before + ([ReadLine(request)] + after)).sent[k].outcome;
            && (request.Unparseable? ==> outcome == Refused(request.code))
            && (!request.Unparseable? && s.inflight.Some? ==> outcome == Refused(WAIT_IN_FLIGHT))
            && (s.inflight.None? && request.Verb? ==> outcome.Dispatched?)
            && (s.inflight.None? && request.TapOpen? ==>
                  outcome == if request.granted.Ok? then Opened(request.granted.value) else Refused(request.granted.error))
            && (s.inflight.None? && request.TapClose? ==>
                  if request.tap.Some? && request.tap.value in s.openTaps && !request.orphaned
                  then outcome == Closed(request.tap.value) else outcome == Refused(INVALID_PARAMS))
  {
    var events := before + ([ReadLine(request)] + after);
    var s := Run(START, before);
    var b := AtTheLine(before, request, after);
    var b' := Record(b, ReadLine(request));
    RecordKeeps(b, ReadLine(request));
    RecordAllKeeps(b', after);
    ConnectionFollowsBook(events);
    assert Right(RecordAll(b', after), Run(START, events).sent[k]);
    if s.inflight.None? && request.Verb? {
      VerbIsDispatched(b', |b.answers|, after);
    }
  }

  /** The verb's line in the book is unanswered, or answered by what the verb came to. */
  ghost predicate OpenOrDispatched(b: Book, line: nat) {
    line < |b.answers| && (b.answers[line].None? || b.answers[line].value.Dispatched?)
  }

  lemma {:induction false} VerbIsDispatched(b: Book, line: nat, events: seq<Event>)
    requires Kept(b) && OpenOrDispatched(b, line)
    ensures OpenOrDispatched(RecordAll(b, events), line)
    decreases events
  {
    if events != [] {
      RecordKeeps(b, events[0]);
      VerbIsDispatched(Record(b, events[0]), line, events[1..]);
    }
  }

  /** No verb settles in these events. */
  predicate Quiet(events: seq<Event>) {
    forall i :: 0 <= i < |events| ==> !events[i].Settle?
  }

  lemma {:induction false} VerbStaysInFlight(b: Book, events: seq<Event>)
    requires Kept(b) && b.verb.Some? && Quiet(events)
    ensures RecordAll(b, events).verb == b.verb && Kept(RecordAll(b, events))
    decreases events
  {
    if events != [] {
      RecordKeeps(b, events[0]);
      assert Quiet(events[1..]);
      VerbStaysInFlight(Record(b, events[0]), events[1..]);
    }
  }

  /** In the book a verb that settles is answered by that result for good. */
  lemma SettledInBook(b: Book, waiting: seq<Event>, result: Result<int, int>, after: seq<Event>)
    requires Kept(b) && b.verb.Some? && Quiet(waiting)
    ensures var b' := RecordAll(b, waiting + ([Settle(result)] + after));
            b.verb.value < |b'.answers| && b'.answers[b.verb.value] == Some(Dispatched(result))
  {
    VerbStaysInFlight(b, waiting);
    var w := RecordAll(b, waiting);
    RecordKeeps(w, Settle(result));
    RecordAllKeeps(Record(w, Settle(result)), after);
    RecordJoins(b, waiting, [Settle(result)] + after);
    assert ([Settle(result)] + after)[1..] == after;
  }

  /**
   * A verb read while none is in flight is in flight from then on, and once it settles with `result` its line is
   * answered with that result and nothing else.
   */
  lemma VerbGetsItsResult(before: seq<Event>, request: Request, waiting: seq<Event>, result: Result<int, int>,
                          after: seq<Event>, k: nat)
    requires request.Verb? && Quiet(waiting) && LegalRun(START, before) && Run(START, before).inflight.None?
    requires LegalRun(START, before + ([ReadLine(request)] + (waiting + ([Settle(result)] + after))))
    requires var t := Run(START, before + ([ReadLine(request)] + (waiting + ([Settle(result)] + after))));
             AnsweredAt(t, |Run(START, before).lines|, k)
    ensures Run(START, before + ([ReadLine(request)] + (waiting + ([Settle(result)] + after)))).sent[k].outcome == Dispatched(result)
  {
    var rest := waiting + ([Settle(result)] + after);
    var events := before + ([ReadLine(request)] + rest);
    var b := AtTheLine(before, request, rest);
    RecordKeeps(b, ReadLine(request));
    SettledInBook(Record(b, ReadLine(request)), waiting, result, after);
    ConnectionFollowsBook(events);
    assert Right(RecordAll(BLANK_BOOK, events), Run(START, events).sent[k]);
  }

  /** A verb read while none is in flight is the verb in flight until it settles. */
  lemma VerbIsInFlight(before: seq<Event>, request: Request, waiting: seq<Event>)
    requires request.Verb? && Quiet(waiting) && LegalRun(START, before) && Run(START, before).inflight.None?
    requires LegalRun(START, before + ([ReadLine(request)] + waiting))
    ensures var t := Run(START, before + ([ReadLine(request)] + waiting));
            t.inflight.Some? && t.inflight.value.line == |Run(START, before).lines|
  {
    var b := AtTheLine(before, request, waiting);
    RecordKeeps(b, ReadLine(request));
    VerbStaysInFlight(Record(b, ReadLine(request)), waiting);
    ConnectionFollowsBook(before + ([ReadLine(request)] + waiting));
  }

  // ---- The open taps ----

  /** The line opens `tap` here. */
  predicate Opens(s: State, e: Event, tap: nat) {
    e.ReadLine? && e.request.TapOpen? && e.request.granted == Ok(tap) && s.inflight.None?
  }

  /** The line closes `tap` here. */
  predicate Closes(s: State, e: Event, tap: nat) {
    e.ReadLine? && e.request.TapClose? && e.request.tap == Some(tap) && s.inflight.None? && tap in s.openTaps
  }

  function OpenCount(s: State, events: seq<Event>, tap: nat): nat
    requires LegalRun(s, events)
    decreases events
  {
    if events == [] then 0
    else (if Opens(s, events[0], tap) then 1 else 0) + OpenCount(Step(s, events[0]), events[1..], tap)
  }

  function CloseCount(s: State, events: seq<Event>, tap: nat): nat
    requires LegalRun(s, events)
    decreases events
  {
    if events == [] then 0
    else (if Closes(s, events[0], tap) then 1 else 0) + CloseCount(Step(s, events[0]), events[1..], tap)
  }

  lemma RemovalCounts(taps: seq<nat>, k: nat, tap: nat)
    requires k < |taps|
    ensures multiset(taps[..k] + taps[k + 1..])[tap] == multiset(taps)[tap] - if taps[k] == tap then 1 else 0
  {
    assert taps == taps[..k] + [taps[k]] + taps[k + 1..];
  }

  /** Only an accepted tap request touches the open taps. */
  lemma TapsStay(s: State, e: Event)
    requires Enabled(s, e) && !(e.ReadLine? && s.inflight.None? && (e.request.TapOpen? || e.request.TapClose?))
    ensures Step(s, e).openTaps == s.openTaps
  {
  }

  lemma AcceptCountsTaps(s: State, request: Request, tap: nat)
    requires request.TapOpen? || request.TapClose?
    ensures multiset(Accept(s, request).openTaps)[tap] +
            (if request.TapClose? && request.tap == Some(tap) && tap in s.openTaps then 1 else 0) ==
            multiset(s.openTaps)[tap] + (if request.TapOpen? && request.granted == Ok(tap) then 1 else 0)
  {
    if request.TapClose? && request.tap.Some? && IndexOf(s.openTaps, request.tap.value).Some? {
      RemovalCounts(s.openTaps, IndexOf(s.openTaps, request.tap.value).value, tap);
    }
  }

  /** What one event does to the number of times a tap is open. */
  lemma StepCountsTaps(s: State, e: Event, tap: nat)
    requires Enabled(s, e)
    ensures multiset(Step(s, e).openTaps)[tap] + (if Closes(s, e, tap) then 1 else 0) ==
            multiset(s.openTaps)[tap] + (if Opens(s, e, tap) then 1 else 0)
  {
    if e.ReadLine? && s.inflight.None? && (e.request.TapOpen? || e.request.TapClose?) {
      AcceptCountsTaps(s, e.request, tap);
    } else {
      TapsStay(s, e);
    }
  }

  lemma {:induction false} RunCountsTaps(s: State, events: seq<Event>, tap: nat)
    requires LegalRun(s, events)
    ensures multiset(Run(s, events).openTaps)[tap] + CloseCount(s, events, tap) ==
            multiset(s.openTaps)[tap] + OpenCount(s, events, tap)
    decreases events
  {
    if events != [] {
      StepCountsTaps(s, events[0], tap);
      RunCountsTaps(Step(s, events[0]), events[1..], tap);
    }
  }

  /** In every run the open taps are the taps opened and not yet closed, counted one by one. */
  lemma OpenTapsAreOpenedNotClosed(events: seq<Event>, tap: nat)
    requires LegalRun(START, events)
    ensures multiset(Run(START, events).openTaps)[tap] == OpenCount(START, events, tap) - CloseCount(START, events, tap)
    ensures tap in Run(START, events).openTaps <==> OpenCount(START, events, tap) > CloseCount(START, events, tap)
  {
    RunCountsTaps(START, events, tap);
  }

  // ---- Subscription and the over-long line ----

  /** Subscribed exactly when a subscribe request was answered; a subscribe answer on its way will subscribe. */
  ghost predicate SubscriptionAgrees(s: State) {
    && (s.subscribed <==> SubscribeAnswered(s, |s.sent|))
    && (s.pc.Writing? && AnswersSubscribe(s, s.pc.frame) ==> s.pc.after == Subscribe)
    && (s.pc.Writing? && s.pc.after == Subscribe ==> AnswersSubscribe(s, s.pc.frame))
  }

  /** Reading more lines does not make an older reply answer another request. */
  lemma AnswersSame(s: State, t: State, f: Frame)
    requires s.lines <= t.lines && FrameFits(s, f)
    ensures AnswersSubscribe(t, f) <==> AnswersSubscribe(s, f)
  {
  }

  lemma SubscribeAnsweredSame(s: State, t: State)
    requires Fits(s) && t.sent == s.sent && s.lines <= t.lines
    ensures SubscribeAnswered(t, |t.sent|) <==> SubscribeAnswered(s, |s.sent|)
  {
    forall k | 0 <= k < |s.sent| ensures AnswersSubscribe(t, s.sent[k]) <==> AnswersSubscribe(s, s.sent[k]) {
      AnswersSame(s, t, s.sent[k]);
    }
  }

  lemma TopSubscribes(s: State)
    requires Fits(s)
    ensures Top(s).pc.Writing? ==> (AnswersSubscribe(Top(s), Top(s).pc.frame) <==> Top(s).pc.after == Subscribe)
  {
  }

  lemma SentSubscribes(s: State)
    requires s.pc.Writing? && SubscriptionAgrees(s)
    ensures SubscribeAnswered(Sent(s), |Sent(s).sent|) <==> s.subscribed || s.pc.after == Subscribe
  {
    var t := Sent(s);
    assert t.sent[|s.sent|] == s.pc.frame;
    if j :| 0 <= j < |s.sent| && AnswersSubscribe(s, s.sent[j]) {
      assert AnswersSubscribe(t, t.sent[j]);
    }
    if j :| 0 <= j < |t.sent| && AnswersSubscribe(t, t.sent[j]) && j < |s.sent| {
      assert AnswersSubscribe(s, s.sent[j]);
    }
  }

  lemma WriteSubscribes(s: State)
    requires s.pc.Writing? && Fits(s) && SubscriptionAgrees(s)
    ensures SubscriptionAgrees(Written(s))
  {
    SentSubscribes(s);
    SentFits(s);
    TopSubscribes(Sent(s));
  }

  lemma ReadSubscribes(s: State, request: Request)
    requires s.pc.Select? && s.settled.None? && Fits(s) && SubscriptionAgrees(s)
    ensures SubscriptionAgrees(Step(s, ReadLine(request)))
  {
    SubscribeAnsweredSame(s, Step(s, ReadLine(request)));
  }

  lemma StepSubscribes(s: State, e: Event)
    requires OneVerb(s) && Fits(s) && Enabled(s, e) && SubscriptionAgrees(s)
    ensures SubscriptionAgrees(Step(s, e))
  {
    match e {
      case ReadLine(request) => ReadSubscribes(s, request);
      case WriteDone => WriteSubscribes(s);
      case Settle(result) =>
        var t := s.(inflight := None, settled := Some(Settled(s.inflight.value, result)));
        SubscribeAnsweredSame(s, t);
        TopSubscribes(t);
        SubscribeAnsweredSame(s, Step(s, e));
        assert !s.pc.Select? ==> Step(s, e).pc == s.pc;
      case _ => SubscribeAnsweredSame(s, Step(s, e));
    }
  }

  lemma {:induction false} RunSubscribes(s: State, events: seq<Event>)
    requires Inv(s) && LegalRun(s, events) && SubscriptionAgrees(s)
    ensures SubscriptionAgrees(Run(s, events))
    decreases events
  {
    if events != [] {
      StepKeepsInv(s, events[0]);
      StepSubscribes(s, events[0]);
      RunSubscribes(Step(s, events[0]), events[1..]);
    }
  }

  /** In every run the connection forwards notifications exactly from the moment a subscribe request was answered. */
  lemma SubscribedIffAnswered(events: seq<Event>)
    requires LegalRun(START, events)
    ensures var s := Run(START, events); s.subscribed <==> SubscribeAnswered(s, |s.sent|)
  {
    ReachableStates([]);
    RunSubscribes(START, events);
  }

  /** An over-long line is refused in one frame without an id, and that is the last thing the connection does. */
  lemma OverlongEndsConnection(s: State)
    requires s.pc.Select?
    ensures Step(s, ReadTooLong).pc == Writing(Overlong, Hangup)
    ensures var t := Step(Step(s, ReadTooLong), WriteDone);
            t.sent == s.sent + [Overlong] && t.pc.Ended? && forall e :: !Enabled(t, e)
  {
  }

  // ---- What is awaited ----

  lemma StepOpens(s: State, e: Event, tap: nat)
    requires Enabled(s, e)
    ensures tap in Step(s, e).everOpened <==> tap in s.everOpened || Opens(s, e, tap)
  {
  }

  lemma {:induction false} RunOpens(s: State, events: seq<Event>, tap: nat)
    requires LegalRun(s, events)
    ensures tap in Run(s, events).everOpened <==> tap in s.everOpened || OpenCount(s, events, tap) > 0
    decreases events
  {
    if events != [] {
      StepOpens(s, events[0], tap);
      RunOpens(Step(s, events[0]), events[1..], tap);
    }
  }

  lemma VerbByBook(events: seq<Event>)
    requires LegalRun(START, events)
    ensures Run(START, events).inflight.Some? <==> RecordAll(BLANK_BOOK, events).verb.Some?
  {
    ConnectionFollowsBook(events);
  }

  /** An event of the daemon's notification stream. */
  predicate OfNotes(e: Event) {
    e.Notify? || e.Lagged? || e.NotesClosed?
  }

  /**
   * In every run, while the connection awaits anything it awaits a line, its end and its over-long form, whatever
   * is in flight; it hears notes exactly once a subscribe request was answered, and a tap exactly once opened here.
   */
  lemma WhatIsAwaited(events: seq<Event>, e: Event)
    requires LegalRun(START, events) && Run(START, events).pc.Select?
    ensures var s := Run(START, events);
            && (e.ReadLine? || e.ReadTooLong? || e.ReadEnd? ==> Enabled(s, e))
            && (OfNotes(e) ==> (Enabled(s, e) <==> SubscribeAnswered(s, |s.sent|)))
            && (e.TapDeliver? ==> (Enabled(s, e) <==> OpenCount(START, events, e.tap) > 0))
            && (e.Settle? ==> (Enabled(s, e) <==> RecordAll(BLANK_BOOK, events).verb.Some?))
            && (e.WriteDone? || e.WriteFail? ==> !Enabled(s, e))
  {
    SubscribedIffAnswered(events);
    VerbByBook(events);
    if e.TapDeliver? {
      RunOpens(START, events, e.tap);
    }
  }

  // ---- Every line, once, with the answer it is owed ----

  /** The id an answer to the request carries: the request's own, or null if it has none. */
  predicate IdOf(request: Request, id: Id) {
    match request
    case TapOpen(own, _) => id == own
    case TapClose(own, _, _) => id == own
    case Verb(own, _) => id == own
    case _ => request.Unparseable? && id == Null
  }

  lemma OwnIdIsId(request: Request)
    requires !request.Blank?
    ensures IdOf(request, request.OwnId())
  {
  }

  /**
   * Over any run every line read is pending or is answered exactly once, under its own id, with the answer the
   * book has for it; and no frame on the wire answers anything else.
   */
  lemma EveryLineAnsweredRight(events: seq<Event>, line: nat)
    requires LegalRun(START, events) && line < |Run(START, events).lines|
    ensures var s, b := Run(START, events), RecordAll(BLANK_BOOK, events);
            && |b.answers| == |s.lines|
            && (Pending(s, line) <==> !exists k: nat :: AnsweredAt(s, line, k))
            && (forall j: nat, k: nat :: AnsweredAt(s, line, j) && AnsweredAt(s, line, k) ==> j == k)
            && (forall k: nat :: AnsweredAt(s, line, k) ==>
                  IdOf(s.lines[line], s.sent[k].id) && b.answers[line] == Some(s.sent[k].outcome))
  {
    var s, b := Run(START, events), RecordAll(BLANK_BOOK, events);
    ReachableStates(events);
    assert !s.lines[line].Blank?;
    OwnIdIsId(s.lines[line]);
    ConnectionFollowsBook(events);
    EveryLineAnsweredOnce(events, line);
    forall k: nat | AnsweredAt(s, line, k) ensures b.answers[line] == Some(s.sent[k].outcome) {
      assert Right(b, s.sent[k]);
    }
  }
}
