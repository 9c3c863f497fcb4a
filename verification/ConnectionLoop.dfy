/** The connection loop as the daemon runs it: one loop around a select, and a write that keeps polling the verb. */
module ConnectionLoop {
  import opened Basics
  import C = Connection
  import R = ConnectionReplies

  datatype Written = Done | Failed | Stalled

  /** A run cut at `n` reaches a state in which event `n` is enabled. */
  lemma {:induction false} PrefixOfRun(s: C.State, events: seq<C.Event>, n: nat)
    requires C.LegalRun(s, events) && n < |events|
    ensures C.LegalRun(s, events[..n]) && C.LegalRun(s, events[..n + 1])
    ensures C.Enabled(C.Run(s, events[..n]), events[n])
    ensures C.Run(s, events[..n + 1]) == C.Step(C.Run(s, events[..n]), events[n])
    decreases n
  {
    if n == 0 {
      assert events[..1][1..] == [];
    } else {
      var t := C.Step(s, events[0]);
      assert events[..n][1..] == events[1..][..n - 1] && events[..n + 1][1..] == events[1..][..n];
      PrefixOfRun(t, events[1..], n - 1);
    }
  }

  /** Nothing happens to a connection that has ended. */
  lemma EndedIsLast(events: seq<C.Event>, n: nat)
    requires C.LegalRun(C.START, events) && n <= |events| && C.LegalRun(C.START, events[..n])
    requires C.Run(C.START, events[..n]).pc.Ended?
    ensures n == |events|
  {
    if n < |events| {
      PrefixOfRun(C.START, events, n);
    }
  }

  class Server {
    var inflight: Option<C.InFlight>
    var settled: Option<C.Settled>
    var subscribed: bool
    var openTaps: seq<nat>
    /** The number of non-blank lines read, and the frames the socket took. */
    var count: nat
    var wire: seq<C.Frame>
    /** What the environment does, in order, and how much of it has happened. */
    const script: seq<C.Event>
    var at: nat
    /** The protocol state the events so far lead to. */
    ghost var state: C.State

    ghost predicate Holds(s: C.State)
      reads this
    {
      && inflight == s.inflight && settled == s.settled && subscribed == s.subscribed
      && openTaps == s.openTaps && count == |s.lines| && wire == s.sent
    }

    ghost predicate Follows()
      reads this
    {
      && C.LegalRun(C.START, script)
      && at <= |script| && C.LegalRun(C.START, script[..at]) && state == C.Run(C.START, script[..at])
    }

    constructor (script: seq<C.Event>)
      requires C.LegalRun(C.START, script)
      ensures Follows() && Holds(C.START) && state == C.START && this.script == script
    {
      inflight, settled, subscribed, openTaps, count, wire := None, None, false, [], 0, [];
      this.script := script;
      at, state := 0, C.START;
    }

    /** The next thing that happens, if anything more does. */
    method Await() returns (e: Option<C.Event>)
      requires Follows()
      modifies this`at, this`state
      ensures Follows()
      ensures e.None? ==> at == old(at) == |script| && state == old(state)
      ensures e.Some? ==> at == old(at) + 1 && C.Enabled(old(state), e.value) && state == C.Step(old(state), e.value)
    {
      if at == |script| {
        return None;
      }
      PrefixOfRun(C.START, script, at);
      e := Some(script[at]);
      state := C.Step(state, script[at]);
      at := at + 1;
    }

    /** Write one line while the verb in flight keeps being polled; it may settle meanwhile. */
    method WriteLine(frame: C.Frame, ghost after: C.After) returns (w: Written, ghost held: C.State)
      requires Follows() && Holds(state) && state.pc == C.Writing(frame, after)
      modifies this`inflight, this`settled, this`wire, this`at, this`state
      ensures Follows() && at >= old(at)
      ensures w.Done? ==> at > old(at) && Holds(held) && held.pc.Select? && state == C.Proceed(held, after)
      ensures w.Failed? ==> Holds(state) && state.pc.Ended?
      ensures w.Stalled? ==> Holds(state) && at == |script|
    {
      held := state;
      while true
        invariant Follows() && Holds(state) && state.pc == C.Writing(frame, after)
        invariant at >= old(at)
        decreases |script| - at
      {
        ghost var before := state;
        var e := Await();
        match e {
          case None =>
            return Stalled, state;
          case Some(WriteDone) =>
            wire := wire + [frame];
            return Done, C.Sent(before);
          case Some(WriteFail) =>
            return Failed, state;
          case Some(Settle(result)) =>
            settled := Some(C.Settled(inflight.value, result));
            inflight := None;
          case Some(_) =>
            assert false;
        }
      }
    }

    /** A line read with no verb in flight: what is answered at once, or None for a verb that now is in flight. */
    method Accept(request: C.Request, ghost before: C.State) returns (outcome: Option<C.Outcome>)
      requires !request.Blank? && before.pc.Select? && before.settled.None? && Holds(before)
      requires state == C.Accept(before, request)
      modifies this`inflight, this`openTaps, this`count
      ensures outcome.Some? ==>
        Holds(state) && state.pc == C.Writing(C.Reply(|before.lines|, request.OwnId(), outcome.value), C.ToTop)
      ensures outcome.None? ==> Holds(state) && state.pc.Select? && state.settled.None?
    {
      var line := count;
      count := count + 1;
      match request {
        case Unparseable(code) =>
          outcome := Some(C.Refused(code));
        case TapOpen(_, Err(code)) =>
          outcome := Some(C.Refused(code));
        case TapOpen(_, Ok(tap)) =>
          openTaps := openTaps + [tap];
          outcome := Some(C.Opened(tap));
        case TapClose(_, None, _) =>
          outcome := Some(C.Refused(C.INVALID_PARAMS));
        case TapClose(_, Some(tap), orphaned) =>
          match C.IndexOf(openTaps, tap) {
            case None =>
              outcome := Some(C.Refused(C.INVALID_PARAMS));
            case Some(k) =>
              openTaps := openTaps[..k] + openTaps[k + 1..];
              outcome := Some(if orphaned then C.Refused(C.INVALID_PARAMS) else C.Closed(tap));
          }
        case Verb(id, isSubscribe) =>
          inflight := Some(C.InFlight(line, id, isSubscribe));
          outcome := None;
      }
    }

    /** Write a line after which the loop starts over. */
    method WriteThenTop(frame: C.Frame) returns (again: bool, ghost held: C.State)
      requires Follows() && Holds(state) && state.pc == C.Writing(frame, C.ToTop)
      modifies this`inflight, this`settled, this`wire, this`at, this`state
      ensures Follows() && at >= old(at)
      ensures again ==> Holds(held) && state == C.Top(held)
      ensures !again ==> Holds(state) && at == |script|
    {
      var w;
      w, held := WriteLine(frame, C.ToTop);
      again := w.Done?;
      if w.Failed? {
        EndedIsLast(script, at);
      }
    }

    /** The read arm of the select, on a non-blank line. */
    method OnLine(request: C.Request, ghost before: C.State) returns (again: bool, ghost held: C.State)
      requires !request.Blank? && before.pc.Select? && before.settled.None? && Holds(before)
      requires Follows() && state == C.Step(before, C.ReadLine(request))
      modifies this`inflight, this`settled, this`openTaps, this`count, this`wire, this`at, this`state
      ensures Follows() && at >= old(at)
      ensures again ==> Holds(held) && state == C.Top(held)
      ensures !again ==> Holds(state) && at == |script|
    {
      if inflight.Some? {
        var code := if request.Unparseable? then request.code else C.WAIT_IN_FLIGHT;
        var refusal := C.Reply(count, request.OwnId(), C.Refused(code));
        count := count + 1;
        again, held := WriteThenTop(refusal);
      } else {
        var line := count;
        var outcome := Accept(request, before);
        if outcome.Some? {
          again, held := WriteThenTop(C.Reply(line, request.OwnId(), outcome.value));
        } else {
          again, held := true, state;
        }
      }
    }

    /** One pass of the select: whichever arm fires first. */
    method Select() returns (again: bool, ghost held: C.State)
      requires Follows() && Holds(state) && state.pc.Select? && state.settled.None?
      modifies this`inflight, this`settled, this`openTaps, this`count, this`wire, this`at, this`state
      ensures Follows() && at >= old(at)
      ensures again ==> at > old(at) && Holds(held) && state == C.Top(held)
      ensures !again ==> Holds(state) && at == |script|
    {
      ghost var before := state;
      again, held := true, before;
      var e := Await();
      match e {
        case None =>
          again := false;
        case Some(Settle(result)) =>
          settled := Some(C.Settled(inflight.value, result));
          inflight := None;
          held := before.(inflight := None, settled := settled);
        case Some(ReadLine(request)) =>
          if !request.Blank? {
            again, held := OnLine(request, before);
          }
        case Some(ReadTooLong) =>
          var w;
          w, held := WriteLine(C.Overlong, C.Hangup);
          if !w.Stalled? {
            EndedIsLast(script, at);
          }
          again := false;
        case Some(Notify) =>
          again, held := WriteThenTop(C.Notification);
        case Some(Lagged) =>
        case Some(TapDeliver(tap, closed)) =>
          again, held := WriteThenTop(C.TapNote(tap, closed));
        case Some(ReadEnd) =>
          EndedIsLast(script, at);
          again := false;
        case Some(NotesClosed) =>
          EndedIsLast(script, at);
          again := false;
        case Some(_) =>
          assert false;
      }
    }

    /** Serve the connection: the loop does exactly what the protocol says, whatever the environment does. */
    method Serve()
      requires Follows() && at == 0 && Holds(state)
      modifies this
      ensures Follows() && at == |script| && state == C.Run(C.START, script) && Holds(state)
      ensures R.Agrees(state, R.RecordAll(R.BLANK_BOOK, script))
    {
      R.ConnectionFollowsBook(script);
      ghost var held := state;
      while true
        invariant Follows() && Holds(held) && state == C.Top(held) && C.OneVerb(state)
        decreases |script| - at
      {
        if settled.Some? {
          var done := settled.value;
          settled := None;
          ghost var after := if done.verb.isSubscribe then C.Subscribe else C.ToSelect;
          var w;
          w, held := WriteLine(done.Reply(), after);
          match w {
            case Done =>
            case Failed =>
              EndedIsLast(script, at);
              break;
            case Stalled =>
              break;
          }
          if done.verb.isSubscribe {
            subscribed := true;
          }
        }
        Reached();
        var again;
        again, held := Select();
        if !again {
          break;
        }
        Reached();
      }
      assert script[..|script|] == script;
    }

    lemma Reached()
      requires Follows()
      ensures C.OneVerb(state)
    {
      C.ReachableStates(script[..at]);
    }
  }
}
