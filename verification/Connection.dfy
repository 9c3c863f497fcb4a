/** The protocol of one control connection: requests, the verb in flight, and what is written back (daemon/src/control.rs). */
module Connection {
  import opened Basics

  const PARSE_ERROR := -32700
  const INVALID_REQUEST := -32600
  const INVALID_PARAMS := -32602
  const WAIT_IN_FLIGHT := -32006

  datatype Id = Number(n: int) | Str(s: string) | Null

  /** One request line. What its text says, and what the daemon answers at once, come from outside. */
  datatype Request =
    | Blank
    | Unparseable(code: int)
    | TapOpen(id: Id, granted: Result<nat, int>)
    | TapClose(id: Id, tap: Option<nat>, orphaned: bool)
    | Verb(id: Id, isSubscribe: bool)
  {
    /** The id a response to this line must carry; an unparseable line has none to echo. */
    function OwnId(): Id {
      match this
      case Blank => Null
      case Unparseable(_) => Null
      case TapOpen(id, _) => id
      case TapClose(id, _, _) => id
      case Verb(id, _) => id
    }
  }

  datatype Outcome =
    | Dispatched(result: Result<int, int>)
    | Opened(tap: nat)
    | Closed(tap: nat)
    | Refused(code: int)

  /** One line written to the client. A reply names the request line it answers by its position. */
  datatype Frame =
    | Reply(line: nat, id: Id, outcome: Outcome)
    | Overlong
    | Notification
    | TapNote(tap: nat, closed: bool)

  datatype InFlight = InFlight(line: nat, id: Id, isSubscribe: bool)

  datatype Settled = Settled(verb: InFlight, result: Result<int, int>) {
    function Reply(): Frame {
      Frame.Reply(verb.line, verb.id, Dispatched(result))
    }
  }

  /** Where a finished write goes. */
  datatype After = ToTop | ToSelect | Subscribe | Hangup

  datatype Pc = Select | Writing(frame: Frame, after: After) | Ended(lost: Option<Frame>)

  datatype State = State(
    pc: Pc,
    inflight: Option<InFlight>,
    settled: Option<Settled>,
    subscribed: bool,
    openTaps: seq<nat>,
    lines: seq<Request>,
    sent: seq<Frame>,
    everOpened: set<nat>)

  const START := State(Select, None, None, false, [], [], [], {})

  datatype Event =
    | Settle(result: Result<int, int>)
    | ReadLine(request: Request)
    | ReadTooLong
    | ReadEnd
    | Notify
    | Lagged
    | NotesClosed
    | TapDeliver(tap: nat, closed: bool)
    | WriteDone
    | WriteFail

  /** What can happen next. A tap delivers only once it was opened on this connection. */
  predicate Enabled(s: State, e: Event) {
    match e
    case Settle(_) => !s.pc.Ended? && s.inflight.Some?
    case ReadLine(_) => s.pc.Select?
    case ReadTooLong => s.pc.Select?
    case ReadEnd => s.pc.Select?
    case Notify => s.pc.Select? && s.subscribed
    case Lagged => s.pc.Select? && s.subscribed
    case NotesClosed => s.pc.Select? && s.subscribed
    case TapDeliver(tap, _) => s.pc.Select? && tap in s.everOpened
    case WriteDone => s.pc.Writing?
    case WriteFail => s.pc.Writing?
  }

  /** The top of the loop: a settled verb is answered before anything else is awaited. */
  function Top(s: State): State {
    match s.settled
    case None => s.(pc := Select)
    case Some(done) => s.(settled := None, pc := Writing(done.Reply(), if done.verb.isSubscribe then Subscribe else ToSelect))
  }

  function IndexOf(taps: seq<nat>, tap: nat): (r: Option<nat>)
    ensures r.Some? ==> r.value < |taps| && taps[r.value] == tap && tap !in taps[..r.value]
    ensures r.None? ==> tap !in taps
  {
    if taps == [] then None
    else if taps[0] == tap then Some(0)
    else match IndexOf(taps[1..], tap) { case None => None case Some(k) => Some(k + 1) }
  }

  function Answer(s: State, request: Request, outcome: Outcome, after: After): State {
    s.(lines := s.lines + [request], pc := Writing(Reply(|s.lines|, request.OwnId(), outcome), after))
  }

  /** A non-blank line read while no verb is in flight. */
  function Accept(s: State, request: Request): State
    requires !request.Blank?
  {
    match request
    case Unparseable(code) => Answer(s, request, Refused(code), ToTop)
    case TapOpen(_, Err(code)) => Answer(s, request, Refused(code), ToTop)
    case TapOpen(_, Ok(tap)) =>
      Answer(s, request, Opened(tap), ToTop).(openTaps := s.openTaps + [tap], everOpened := s.everOpened + {tap})
    case TapClose(_, None, _) => Answer(s, request, Refused(INVALID_PARAMS), ToTop)
    case TapClose(_, Some(tap), orphaned) =>
      (match IndexOf(s.openTaps, tap)
       case None => Answer(s, request, Refused(INVALID_PARAMS), ToTop)
       case Some(k) =>
         Answer(s, request, if orphaned then Refused(INVALID_PARAMS) else Closed(tap), ToTop)
         .(openTaps := s.openTaps[..k] + s.openTaps[k + 1..]))
    case Verb(id, isSubscribe) =>
      Top(s.(lines := s.lines + [request], inflight := Some(InFlight(|s.lines|, id, isSubscribe))))
  }

  /** A non-blank line read while a verb is in flight is refused under its own id. */
  function Refuse(s: State, request: Request): State {
    Answer(s, request, Refused(if request.Unparseable? then request.code else WAIT_IN_FLIGHT), ToTop)
  }

  function Sent(s: State): State
    requires s.pc.Writing?
  {
    s.(sent := s.sent + [s.pc.frame], pc := Select)
  }

  function Proceed(s: State, after: After): State {
    match after
    case ToTop => Top(s)
    case ToSelect => s
    case Subscribe => s.(subscribed := true)
    case Hangup => s.(pc := Ended(None))
  }

  function Written(s: State): State
    requires s.pc.Writing?
  {
    Proceed(Sent(s), s.pc.after)
  }

  function Step(s: State, e: Event): State
    requires Enabled(s, e)
  {
    match e
    case Settle(result) =>
      var t := s.(inflight := None, settled := Some(Settled(s.inflight.value, result)));
      if s.pc.Select? then Top(t) else t
    case ReadLine(request) =>
      if request.Blank? then Top(s)
      else if s.inflight.Some? then Refuse(s, request)
      else Accept(s, request)
    case ReadTooLong => s.(pc := Writing(Overlong, Hangup))
    case ReadEnd => s.(pc := Ended(None))
    case Notify => s.(pc := Writing(Notification, ToTop))
    case Lagged => Top(s)
    case NotesClosed => s.(pc := Ended(None))
    case TapDeliver(tap, closed) => s.(pc := Writing(TapNote(tap, closed), ToTop))
    case WriteDone => Written(s)
    case WriteFail => s.(pc := Ended(Some(s.pc.frame)))
  }

  predicate LegalRun(s: State, events: seq<Event>)
    decreases events
  {
    events == [] || (Enabled(s, events[0]) && LegalRun(Step(s, events[0]), events[1..]))
  }

  function Run(s: State, events: seq<Event>): State
    requires LegalRun(s, events)
    decreases events
  {
    if events == [] then s else Run(Step(s, events[0]), events[1..])
  }

  // ---- Accounting: where the answer to each line is ----

  function Replies(sent: seq<Frame>, line: nat): nat {
    if sent == [] then 0
    else Replies(sent[..|sent| - 1], line) + Answers(sent[|sent| - 1], line)
  }

  function Answers(f: Frame, line: nat): nat {
    if f.Reply? && f.line == line then 1 else 0
  }

  /** The frame being written, or the one whose write failed. */
  function Outgoing(pc: Pc): Option<Frame> {
    match pc
    case Select => None
    case Writing(frame, _) => Some(frame)
    case Ended(lost) => lost
  }

  function Owing(out: Option<Frame>, inflight: Option<InFlight>, settled: Option<Settled>, line: nat): nat {
    (if out.Some? then Answers(out.value, line) else 0) +
    (if inflight.Some? && inflight.value.line == line then 1 else 0) +
    (if settled.Some? && settled.value.verb.line == line then 1 else 0)
  }

  /** How many times the answer to `line` exists: written, on its way, owed by the verb in flight, or settled. */
  function Account(s: State, line: nat): nat {
    Replies(s.sent, line) + Owing(Outgoing(s.pc), s.inflight, s.settled, line)
  }

  /** Every line read is accounted for exactly once, and nothing else is. */
  ghost predicate Conserves(s: State) {
    forall line: nat :: Account(s, line) == if line < |s.lines| then 1 else 0
  }

  /** The answers a request may get: its own, or the refusal of a line read behind a verb in flight. */
  predicate OutcomeFits(request: Request, outcome: Outcome) {
    match request
    case Blank => false
    case Unparseable(code) => outcome == Refused(code)
    case TapOpen(_, Ok(tap)) => outcome in {Opened(tap), Refused(WAIT_IN_FLIGHT)}
    case TapOpen(_, Err(code)) => outcome in {Refused(code), Refused(WAIT_IN_FLIGHT)}
    case TapClose(_, tap, orphaned) =>
      || outcome in {Refused(INVALID_PARAMS), Refused(WAIT_IN_FLIGHT)}
      || (tap.Some? && !orphaned && outcome == Closed(tap.value))
    case Verb(_, _) => outcome.Dispatched? || outcome == Refused(WAIT_IN_FLIGHT)
  }

  predicate FrameFits(s: State, f: Frame) {
    match f
    case Reply(line, id, outcome) =>
      line < |s.lines| && id == s.lines[line].OwnId() && OutcomeFits(s.lines[line], outcome)
    case TapNote(tap, _) => tap in s.everOpened
    case _ => true
  }

  predicate VerbFits(s: State, v: InFlight) {
    v.line < |s.lines| && s.lines[v.line] == Verb(v.id, v.isSubscribe)
  }

  /** One verb at a time, and nothing is awaited with a reply outstanding. */
  predicate OneVerb(s: State) {
    && !(s.inflight.Some? && s.settled.Some?)
    && (s.pc.Select? ==> s.settled.None?)
    && (s.pc.Writing? && s.pc.after in {ToSelect, Subscribe} ==> s.settled.None? && s.inflight.None?)
  }

  /** Every answer, made or owed, belongs to its line. */
  predicate Fits(s: State) {
    && (s.inflight.Some? ==> VerbFits(s, s.inflight.value))
    && (s.settled.Some? ==> VerbFits(s, s.settled.value.verb))
    && (forall k :: 0 <= k < |s.sent| ==> FrameFits(s, s.sent[k]))
    && (Outgoing(s.pc).Some? ==> FrameFits(s, Outgoing(s.pc).value))
    && (forall i :: 0 <= i < |s.lines| ==> !s.lines[i].Blank?)
  }

  // ---- Order: what precedes what on the wire ----

  /** A response to a subscribe request. */
  predicate AnswersSubscribe(s: State, f: Frame) {
    f.Reply? && f.line < |s.lines| && s.lines[f.line].Verb? && s.lines[f.line].isSubscribe && f.outcome.Dispatched?
  }

  ghost predicate SubscribeAnswered(s: State, n: nat) {
    exists j :: 0 <= j < n <= |s.sent| && AnswersSubscribe(s, s.sent[j])
  }

  ghost predicate TapAnswered(s: State, tap: nat, n: nat) {
    exists j :: 0 <= j < n <= |s.sent| && s.sent[j].Reply? && s.sent[j].outcome == Opened(tap)
  }

  /** A reply that opened this tap is the frame being written. */
  predicate OpeningNow(s: State, tap: nat) {
    Outgoing(s.pc).Some? && Outgoing(s.pc).value.Reply? && Outgoing(s.pc).value.outcome == Opened(tap)
  }

  /**
   * Every subscription notification comes after the response to a subscribe request, and every tap
   * delivery after the response that opened the tap.
   */
  ghost predicate Ordered(s: State) {
    && (forall k :: 0 <= k < |s.sent| && s.sent[k].Notification? ==> SubscribeAnswered(s, k))
    && (forall k :: 0 <= k < |s.sent| && s.sent[k].TapNote? ==> TapAnswered(s, s.sent[k].tap, k))
    && (s.subscribed ==> SubscribeAnswered(s, |s.sent|))
    && (Outgoing(s.pc) == Some(Notification) ==> SubscribeAnswered(s, |s.sent|))
    && (forall tap :: tap in s.everOpened ==> TapAnswered(s, tap, |s.sent|) || OpeningNow(s, tap))
    && (Outgoing(s.pc).Some? && Outgoing(s.pc).value.TapNote? ==>
          TapAnswered(s, Outgoing(s.pc).value.tap, |s.sent|))
    && (s.pc.Writing? && s.pc.after == Subscribe ==> AnswersSubscribe(s, s.pc.frame))
  }

  ghost predicate Inv(s: State) {
    OneVerb(s) && Fits(s) && Conserves(s) && Ordered(s)
  }

  // ---- Every step keeps all of it ----

  lemma RepliesSnoc(sent: seq<Frame>, f: Frame, line: nat)
    ensures Replies(sent + [f], line) == Replies(sent, line) + Answers(f, line)
  {
    assert (sent + [f])[..|sent|] == sent;
  }

  lemma StepKeepsOneVerb(s: State, e: Event)
    requires OneVerb(s) && Enabled(s, e)
    ensures OneVerb(Step(s, e))
  {
  }

  /** Reading more and opening more taps keeps every answer its line's. */
  lemma FitsStays(s: State, t: State)
    requires s.lines <= t.lines && s.everOpened <= t.everOpened
    ensures forall f :: FrameFits(s, f) ==> FrameFits(t, f)
    ensures forall v :: VerbFits(s, v) ==> VerbFits(t, v)
  {
  }

  lemma TopFits(s: State)
    requires Fits(s.(pc := Select))
    ensures Fits(Top(s))
  {
  }

  lemma AnswerFits(s: State, request: Request, outcome: Outcome, after: After)
    requires Fits(s) && OutcomeFits(request, outcome)
    ensures Fits(Answer(s, request, outcome, after))
  {
    FitsStays(s, Answer(s, request, outcome, after));
  }

  lemma AcceptFits(s: State, request: Request)
    requires s.pc.Select? && Fits(s) && s.inflight.None? && s.settled.None? && !request.Blank?
    ensures Fits(Accept(s, request))
  {
    match request {
      case Unparseable(code) => AnswerFits(s, request, Refused(code), ToTop);
      case TapOpen(_, Err(code)) => AnswerFits(s, request, Refused(code), ToTop);
      case TapOpen(_, Ok(tap)) =>
        AnswerFits(s, request, Opened(tap), ToTop);
        FitsStays(Answer(s, request, Opened(tap), ToTop), Accept(s, request));
      case TapClose(_, tap, orphaned) =>
        AnswerFits(s, request, Refused(INVALID_PARAMS), ToTop);
        if tap.Some? && !orphaned {
          AnswerFits(s, request, Closed(tap.value), ToTop);
        }
      case Verb(_, _) => FitsStays(s, Accept(s, request));
    }
  }

  lemma SettleFits(s: State, result: Result<int, int>)
    requires Fits(s) && Enabled(s, Settle(result))
    ensures Fits(Step(s, Settle(result)))
  {
    TopFits(s.(inflight := None, settled := Some(Settled(s.inflight.value, result))));
  }

  lemma ReadFits(s: State, request: Request)
    requires s.pc.Select? && s.settled.None? && Fits(s)
    ensures Fits(Step(s, ReadLine(request)))
  {
    if request.Blank? {
      TopFits(s);
    } else if s.inflight.None? {
      AcceptFits(s, request);
    } else {
      AnswerFits(s, request, Refused(if request.Unparseable? then request.code else WAIT_IN_FLIGHT), ToTop);
    }
  }

  lemma SentFits(s: State)
    requires Fits(s) && s.pc.Writing?
    ensures Fits(Sent(s))
  {
  }

  lemma WriteFits(s: State)
    requires Fits(s) && s.pc.Writing?
    ensures Fits(Written(s))
  {
    SentFits(s);
    TopFits(Sent(s));
  }

  /** A step that only moves the program counter, to a frame that fits. */
  lemma MoveFits(s: State, pc: Pc)
    requires Fits(s) && (Outgoing(pc).Some? ==> FrameFits(s, Outgoing(pc).value))
    ensures Fits(s.(pc := pc))
  {
  }

  lemma StepKeepsFits(s: State, e: Event)
    requires OneVerb(s) && Fits(s) && Enabled(s, e)
    ensures Fits(Step(s, e))
  {
    match e {
      case Settle(result) => SettleFits(s, result);
      case ReadLine(request) => ReadFits(s, request);
      case WriteDone => WriteFits(s);
      case Lagged => TopFits(s);
      case _ => MoveFits(s, Step(s, e).pc);
    }
  }

  /** Reading a line creates exactly one obligation, and it is that line's. */
  lemma ReadKeepsAccount(s: State, request: Request, line: nat)
    requires s.pc.Select? && s.settled.None? && !request.Blank?
    requires Account(s, line) == if line < |s.lines| then 1 else 0
    ensures Account(Step(s, ReadLine(request)), line) == if line < |s.lines| + 1 then 1 else 0
    ensures |Step(s, ReadLine(request)).lines| == |s.lines| + 1
  {
  }

  /** Answering a settled verb moves its obligation to the write. */
  lemma TopKeepsAccount(s: State, line: nat)
    ensures Account(Top(s), line) == Account(s.(pc := Select), line) && Top(s).lines == s.lines
  {
  }

  lemma SentKeepsAccount(s: State, line: nat)
    requires s.pc.Writing?
    ensures Account(Sent(s), line) == Account(s, line)
  {
    RepliesSnoc(s.sent, s.pc.frame, line);
  }

  lemma WriteKeepsAccount(s: State, line: nat)
    requires s.pc.Writing?
    ensures Account(Written(s), line) == Account(s, line) && Written(s).lines == s.lines
  {
    SentKeepsAccount(s, line);
    var t := Sent(s);
    match s.pc.after {
      case ToTop => TopKeepsAccount(t, line);
      case ToSelect =>
      case Subscribe => SameAccount(t, t.(subscribed := true), line);
      case Hangup => SameAccount(t, t.(pc := Ended(None)), line);
    }
  }

  lemma SameAccount(s: State, t: State, line: nat)
    requires Outgoing(t.pc) == Outgoing(s.pc) && t.sent == s.sent && t.inflight == s.inflight && t.settled == s.settled
    ensures Account(t, line) == Account(s, line)
  {
  }

  lemma SettleKeepsAccount(s: State, result: Result<int, int>, line: nat)
    requires OneVerb(s) && Enabled(s, Settle(result))
    ensures Account(Step(s, Settle(result)), line) == Account(s, line)
  {
    TopKeepsAccount(s.(inflight := None, settled := Some(Settled(s.inflight.value, result))), line);
  }

  lemma StepKeepsAccount(s: State, e: Event, line: nat)
    requires OneVerb(s) && Enabled(s, e) && Account(s, line) == if line < |s.lines| then 1 else 0
    ensures Account(Step(s, e), line) == if line < |Step(s, e).lines| then 1 else 0
  {
    match e {
      case ReadLine(request) =>
        if !request.Blank? {
          ReadKeepsAccount(s, request, line);
        }
      case WriteDone => WriteKeepsAccount(s, line);
      case Settle(result) => SettleKeepsAccount(s, result, line);
      case _ =>
    }
  }

  lemma StepConserves(s: State, e: Event)
    requires OneVerb(s) && Enabled(s, e) && Conserves(s)
    ensures Conserves(Step(s, e))
  {
    forall line: nat ensures Account(Step(s, e), line) == if line < |Step(s, e).lines| then 1 else 0 {
      assert Account(s, line) == if line < |s.lines| then 1 else 0;
      StepKeepsAccount(s, e, line);
    }
  }

  /** What was on the wire stays there, and what was read stays read. */
  lemma StepExtends(s: State, e: Event)
    requires Enabled(s, e)
    ensures s.sent <= Step(s, e).sent && s.lines <= Step(s, e).lines && s.everOpened <= Step(s, e).everOpened
    ensures Step(s, e).sent == if e.WriteDone? then s.sent + [s.pc.frame] else s.sent
  {
  }

  lemma AnsweredStays(s: State, t: State)
    requires s.sent <= t.sent && s.lines <= t.lines
    ensures forall n: nat :: n <= |s.sent| && SubscribeAnswered(s, n) ==> SubscribeAnswered(t, n)
    ensures forall tap: nat, n: nat :: n <= |s.sent| && TapAnswered(s, tap, n) ==> TapAnswered(t, tap, n)
  {
    forall n: nat | n <= |s.sent| && SubscribeAnswered(s, n) ensures SubscribeAnswered(t, n) {
      var j :| 0 <= j < n && AnswersSubscribe(s, s.sent[j]);
      assert AnswersSubscribe(t, t.sent[j]);
    }
    forall tap: nat, n: nat | n <= |s.sent| && TapAnswered(s, tap, n) ensures TapAnswered(t, tap, n) {
      var j :| 0 <= j < n && s.sent[j].Reply? && s.sent[j].outcome == Opened(tap);
      assert t.sent[j] == s.sent[j];
    }
  }

  lemma AnsweredGrows(s: State, m: nat, n: nat)
    requires m <= n <= |s.sent|
    ensures SubscribeAnswered(s, m) ==> SubscribeAnswered(s, n)
    ensures forall tap: nat :: TapAnswered(s, tap, m) ==> TapAnswered(s, tap, n)
  {
  }

  /** The frames already on the wire stay in order; only a finished write adds one. */
  lemma WriteKeepsOrder(s: State)
    requires OneVerb(s) && Fits(s) && Ordered(s) && s.pc.Writing?
    ensures Ordered(Written(s))
  {
    var t := Written(s);
    AnsweredStays(s, t);
    AnsweredGrows(t, |s.sent|, |t.sent|);
    assert t.sent[|s.sent|] == s.pc.frame;
    assert s.pc.after == Subscribe ==> AnswersSubscribe(t, t.sent[|s.sent|]);
  }

  lemma ReadKeepsOrder(s: State, request: Request)
    requires s.pc.Select? && OneVerb(s) && Ordered(s)
    ensures Ordered(Step(s, ReadLine(request)))
  {
    AnsweredStays(s, Step(s, ReadLine(request)));
  }

  lemma StepKeepsOrder(s: State, e: Event)
    requires OneVerb(s) && Fits(s) && Ordered(s) && Enabled(s, e)
    ensures Ordered(Step(s, e))
  {
    match e {
      case ReadLine(request) => ReadKeepsOrder(s, request);
      case WriteDone => WriteKeepsOrder(s);
      case _ => AnsweredStays(s, Step(s, e));
    }
  }

  lemma StepKeepsInv(s: State, e: Event)
    requires Inv(s) && Enabled(s, e)
    ensures Inv(Step(s, e))
  {
    StepKeepsOneVerb(s, e);
    StepKeepsFits(s, e);
    StepConserves(s, e);
    StepKeepsOrder(s, e);
  }

  lemma {:induction false} RunKeepsInv(s: State, events: seq<Event>)
    requires Inv(s) && LegalRun(s, events)
    ensures Inv(Run(s, events))
    decreases events
  {
    if events != [] {
      StepKeepsInv(s, events[0]);
      RunKeepsInv(Step(s, events[0]), events[1..]);
    }
  }

  lemma ReachableStates(events: seq<Event>)
    requires LegalRun(START, events)
    ensures Inv(Run(START, events))
  {
    forall line: nat ensures Account(START, line) == 0 {
    }
    RunKeepsInv(START, events);
  }

  // ---- What that gives a client ----

  /** A reply to `line` is on the wire at `k`. */
  predicate AnsweredAt(s: State, line: nat, k: nat) {
    k < |s.sent| && s.sent[k].Reply? && s.sent[k].line == line
  }

  lemma {:induction false} CountFinds(sent: seq<Frame>, line: nat)
    ensures Replies(sent, line) > 0 <==> exists k :: 0 <= k < |sent| && Answers(sent[k], line) == 1
    ensures Replies(sent, line) <= 1 ==>
      forall j, k :: 0 <= j < |sent| && 0 <= k < |sent| && Answers(sent[j], line) == 1 == Answers(sent[k], line) ==> j == k
  {
    if sent != [] {
      CountFinds(sent[..|sent| - 1], line);
      var init, last := sent[..|sent| - 1], sent[|sent| - 1];
      assert forall k :: 0 <= k < |init| ==> init[k] == sent[k];
    }
  }

  /** The one line whose answer is still owed: held by the verb in flight, settled, or on its way. */
  predicate Pending(s: State, line: nat) {
    || (s.inflight.Some? && s.inflight.value.line == line)
    || (s.settled.Some? && s.settled.value.verb.line == line)
    || (Outgoing(s.pc).Some? && Answers(Outgoing(s.pc).value, line) == 1)
  }

  /**
   * In every run, every non-blank line is either answered exactly once, under its own id, or pending,
   * and never both; while input is awaited only the line of the verb in flight is unanswered.
   */
  lemma EveryLineAnsweredOnce(events: seq<Event>, line: nat)
    requires LegalRun(START, events) && line < |Run(START, events).lines|
    ensures var s := Run(START, events);
            && (Pending(s, line) <==> !exists k: nat :: AnsweredAt(s, line, k))
            && (forall j: nat, k: nat :: AnsweredAt(s, line, j) && AnsweredAt(s, line, k) ==> j == k)
            && (forall k: nat :: AnsweredAt(s, line, k) ==>
                  s.sent[k].id == s.lines[line].OwnId() && OutcomeFits(s.lines[line], s.sent[k].outcome))
            && (s.pc.Select? ==> (Pending(s, line) <==> s.inflight.Some? && s.inflight.value.line == line))
  {
    var s := Run(START, events);
    ReachableStates(events);
    assert Account(s, line) == 1;
    CountFinds(s.sent, line);
    if k: nat :| AnsweredAt(s, line, k) {
      assert Answers(s.sent[k], line) == 1;
    }
    if Replies(s.sent, line) > 0 {
      var k :| 0 <= k < |s.sent| && Answers(s.sent[k], line) == 1;
      assert AnsweredAt(s, line, k);
    }
    forall k: nat | AnsweredAt(s, line, k)
      ensures s.sent[k].id == s.lines[line].OwnId() && OutcomeFits(s.lines[line], s.sent[k].outcome)
    {
      assert FrameFits(s, s.sent[k]);
    }
  }

  /** No notification precedes the answer to a subscribe, no tap delivery the answer that opened the tap. */
  lemma NothingUnasked(events: seq<Event>, k: nat)
    requires LegalRun(START, events) && k < |Run(START, events).sent|
    ensures var s := Run(START, events);
            && (s.sent[k].Notification? ==> SubscribeAnswered(s, k))
            && (s.sent[k].TapNote? ==> TapAnswered(s, s.sent[k].tap, k))
  {
    ReachableStates(events);
  }

  // ---- A settled reply is never lost or overtaken ----

  /** The reply is held, being written, written, or the connection ended with it unwritten. */
  predicate Owed(s: State, done: Settled) {
    s.settled == Some(done) || (s.pc.Writing? && s.pc.frame == done.Reply()) || done.Reply() in s.sent || s.pc.Ended?
  }

  lemma StepKeepsOwed(s: State, e: Event, done: Settled)
    requires OneVerb(s) && Enabled(s, e) && Owed(s, done)
    ensures Owed(Step(s, e), done)
  {
    StepExtends(s, e);
  }

  lemma {:induction false} RunKeepsOwed(s: State, events: seq<Event>, done: Settled)
    requires Inv(s) && LegalRun(s, events) && Owed(s, done)
    ensures Owed(Run(s, events), done)
    decreases events
  {
    if events != [] {
      StepKeepsInv(s, events[0]);
      StepKeepsOwed(s, events[0], done);
      RunKeepsOwed(Step(s, events[0]), events[1..], done);
    }
  }

  /** Once a verb has settled, nothing further is awaited until its reply is on the wire. */
  lemma SettledIsAnsweredFirst(s: State, events: seq<Event>, done: Settled)
    requires Inv(s) && LegalRun(s, events) && s.settled == Some(done)
    ensures Run(s, events).pc.Select? ==> done.Reply() in Run(s, events).sent
  {
    RunKeepsOwed(s, events, done);
    RunKeepsInv(s, events);
  }

  /**
   * A verb settling behind a blocked write: that write completes undisturbed. Unless it was the refusal that
   * ends the connection, the verb's reply is the next line; behind that refusal the reply is dropped.
   */
  lemma SettleDuringWrite(s: State, result: Result<int, int>)
    requires Inv(s) && s.pc.Writing? && s.inflight.Some?
    ensures var done := Settled(s.inflight.value, result);
            && s.pc.after in {ToTop, Hangup}
            && Step(s, Settle(result)) == s.(inflight := None, settled := Some(done))
            && (s.pc.after == Hangup ==>
                  Written(Step(s, Settle(result))) ==
                  s.(pc := Ended(None), inflight := None, settled := Some(done), sent := s.sent + [s.pc.frame]))
    ensures s.pc.after == ToTop ==>
            var done := Settled(s.inflight.value, result);
            var events := [Settle(result), WriteDone, WriteDone];
            && LegalRun(s, events)
            && Run(s, events) == s.(
                 pc := Select, inflight := None, sent := s.sent + [s.pc.frame] + [done.Reply()],
                 subscribed := s.subscribed || done.verb.isSubscribe)
  {
    if s.pc.after == ToTop {
      var e1, e2 := [WriteDone, WriteDone], [WriteDone];
      var events := [Settle(result), WriteDone, WriteDone];
      var s1 := Step(s, Settle(result));
      var s2 := Step(s1, WriteDone);
      assert events[1..] == e1 && e1[1..] == e2 && e2[1..] == [];
      assert LegalRun(s2, e2) && LegalRun(s1, e1);
      assert Run(s2, e2) == Step(s2, WriteDone);
      assert Run(s1, e1) == Run(s2, e2);
    }
  }
}
