/** What holds over whole runs of the write lock, from any legal schedule of its operations. */
module LockRuns {
  import opened Basics
  import opened Graph
  import opened Lock

  function Run(s: LockState, ops: seq<Op>): LockState
    decreases ops
  {
    if ops == [] then s else Run(Step(s, ops[0]), ops[1..])
  }

  predicate LegalRun(s: LockState, ops: seq<Op>)
    decreases ops
  {
    ops == [] || (Legal(s, ops[0]) && LegalRun(Step(s, ops[0]), ops[1..]))
  }

  // ---- Reachable states ----

  lemma {:induction false} RunKeepsInv(s: LockState, ops: seq<Op>)
    requires Inv(s) && LegalRun(s, ops)
    ensures Inv(Run(s, ops)) && Run(s, ops).arbitration == s.arbitration
    decreases ops
  {
    if ops != [] {
      StepKeepsInv(s, ops[0]);
      RunKeepsInv(Step(s, ops[0]), ops[1..]);
    }
  }

  /**
   * Every reachable state: the holder and the waiters are registered writers, the holder is not
   * queued, the queue has no duplicates, and the write gate admits the holder alone (or, without
   * arbitration, every writer while nobody is ever the holder).
   */
  lemma ReachableStates(arbitration: Arbitration, ops: seq<Op>)
    requires LegalRun(NewLock(arbitration), ops)
    ensures var s := Run(NewLock(arbitration), ops);
            && Inv(s)
            && s.arbitration == arbitration
            && (arbitration == Exclusive ==> forall id: OriginId :: MayWrite(s, id) <==> s.holder == Some(id))
            && (arbitration == FreeForAll ==> s.holder.None? && forall id: OriginId :: MayWrite(s, id) <==> s.Writer(id))
  {
    RunKeepsInv(NewLock(arbitration), ops);
  }

  /** What the snapshot says of one origin. */
  function EntryOf(s: LockState, id: OriginId): OriginState
    requires id in s.origins
  {
    var o := s.origins[id];
    OriginState(o.name, o.writeMode, s.holder == Some(id), o.purged)
  }

  lemma {:induction false} OriginStatesListed(s: LockState, ids: seq<OriginId>)
    requires forall i :: 0 <= i < |ids| ==> ids[i] in s.origins
    ensures |OriginStates(s, ids)| == |ids|
    ensures forall i :: 0 <= i < |ids| ==> OriginStates(s, ids)[i] == EntryOf(s, ids[i])
  {
    if ids != [] {
      var rest := ids[1..];
      OriginStatesListed(s, rest);
      forall i | 0 <= i < |ids| ensures OriginStates(s, ids)[i] == EntryOf(s, ids[i]) {
        if i > 0 {
          assert OriginStates(s, ids)[i] == OriginStates(s, rest)[i - 1] && ids[i] == rest[i - 1];
        }
      }
    }
  }

  lemma {:induction false} WaiterLabelsAt(s: LockState, ids: seq<OriginId>, i: nat)
    requires (forall id :: id in ids ==> id in s.origins) && i < |ids|
    ensures |WaiterLabels(s, ids)| == |ids|
    ensures WaiterLabels(s, ids)[i] == s.origins[ids[i]].name
  {
    assert ids[0] in ids;
    if i > 0 {
      WaiterLabelsAt(s, ids[1..], i - 1);
    } else if |ids| > 1 {
      WaiterLabelsAt(s, ids[1..], 0);
    }
  }

  /** Entry by entry: label, mode, purge count and holder flag of every origin, in table order. */
  lemma SnapshotOrigins(s: LockState)
    ensures var ids, listed := Sorted(s.origins.Keys), Snapshot(s).origins;
            && |listed| == |ids| == |s.origins|
            && (forall i :: 0 <= i < |ids| ==> ids[i] in s.origins && listed[i] == EntryOf(s, ids[i]))
  {
    var ids := Sorted(s.origins.Keys);
    assert forall i :: 0 <= i < |ids| ==> ids[i] in ids;
    OriginStatesListed(s, ids);
  }

  /** When the lock is held exactly one entry is flagged, and its label is the reported holder. */
  lemma SnapshotFlagsHolder(s: LockState)
    requires Inv(s)
    ensures var snap := Snapshot(s);
            && (s.holder.Some? ==>
                  exists i :: 0 <= i < |snap.origins| && snap.origins[i].holdsLock &&
                              snap.holder == Some(snap.origins[i].origin) &&
                              forall j :: 0 <= j < |snap.origins| && snap.origins[j].holdsLock ==> j == i)
            && (s.holder.None? ==>
                  snap.holder.None? && forall i :: 0 <= i < |snap.origins| ==> !snap.origins[i].holdsLock)
  {
    SnapshotOrigins(s);
    FlagsAreExact(s, Sorted(s.origins.Keys), Snapshot(s).origins);
  }

  lemma FlagsAreExact(s: LockState, ids: seq<OriginId>, listed: seq<OriginState>)
    requires |ids| == |listed| && forall i, j :: 0 <= i < j < |ids| ==> ids[i] < ids[j]
    requires forall i :: 0 <= i < |ids| ==> ids[i] in s.origins && listed[i] == EntryOf(s, ids[i])
    requires s.holder.Some? ==> s.holder.value in ids
    ensures s.holder.Some? ==>
      exists i :: 0 <= i < |listed| && listed[i].holdsLock && s.Label(s.holder.value) == Some(listed[i].origin) &&
                  forall j :: 0 <= j < |listed| && listed[j].holdsLock ==> j == i
    ensures s.holder.None? ==> forall i :: 0 <= i < |listed| ==> !listed[i].holdsLock
  {
    if s.holder.Some? {
      var i :| 0 <= i < |ids| && ids[i] == s.holder.value;
      assert listed[i].holdsLock;
    }
  }

  /** Every waiter is listed, in queue order, even when labels repeat. */
  lemma SnapshotListsWaiters(s: LockState)
    requires Inv(s)
    ensures |Snapshot(s).waiters| == |s.waiters|
    ensures forall i :: 0 <= i < |s.waiters| ==> s.Label(s.waiters[i]) == Some(Snapshot(s).waiters[i])
  {
    forall i | 0 <= i < |s.waiters|
      ensures |WaiterLabels(s, s.waiters)| == |s.waiters|
      ensures s.Label(s.waiters[i]) == Some(WaiterLabels(s, s.waiters)[i])
    {
      WaiterLabelsAt(s, s.waiters, i);
    }
  }

  // ---- FIFO order ----

  /** `w` is queued in every state of the run, first and last included: never granted, never gone. */
  predicate StaysQueued(s: LockState, ops: seq<Op>, w: OriginId)
    decreases ops
  {
    w in s.waiters && (ops == [] || StaysQueued(Step(s, ops[0]), ops[1..], w))
  }

  function IndexOf(q: seq<OriginId>, w: OriginId): (i: nat)
    requires w in q
    ensures i < |q| && q[i] == w && w !in q[..i]
  {
    if q[0] == w then 0
    else
      assert q == [q[0]] + q[1..];
      var i := 1 + IndexOf(q[1..], w);
      assert q[..i] == [q[0]] + q[1..][..i - 1];
      i
  }

  lemma {:induction false} WithoutKeepsOrder(q: seq<OriginId>, id: OriginId, a: OriginId, b: OriginId)
    requires a in q && b in q && a != id && b != id
    ensures IndexOf(q, a) < IndexOf(q, b) ==> IndexOf(Without(q, id), a) < IndexOf(Without(q, id), b)
  {
    assert q == [q[0]] + q[1..];
    if q[0] != a && q[0] != b {
      WithoutKeepsOrder(q[1..], id, a, b);
    }
  }

  lemma {:induction false} WithoutMovesUp(q: seq<OriginId>, id: OriginId, w: OriginId)
    requires w in q && w != id
    ensures IndexOf(Without(q, id), w) <= IndexOf(q, w)
    ensures q[0] == id ==> IndexOf(Without(q, id), w) < IndexOf(q, w)
  {
    assert q == [q[0]] + q[1..];
    if q[0] != w {
      WithoutMovesUp(q[1..], id, w);
    }
  }

  lemma {:induction false} AppendKeepsIndex(q: seq<OriginId>, id: OriginId, w: OriginId)
    requires w in q
    ensures IndexOf(q + [id], w) == IndexOf(q, w)
  {
    assert q == [q[0]] + q[1..];
    if q[0] != w {
      assert (q + [id])[1..] == q[1..] + [id];
      AppendKeepsIndex(q[1..], id, w);
    }
  }

  /** A step leaves the queue alone, removes one id from it, or appends one. */
  lemma StepOnQueue(s: LockState, op: Op)
    ensures var q := Step(s, op).waiters;
            q == s.waiters || q == Without(s.waiters, op.id) || q == s.waiters + [op.id]
  {
  }

  lemma StepKeepsOrder(s: LockState, op: Op, a: OriginId, b: OriginId)
    requires a in s.waiters && b in s.waiters && IndexOf(s.waiters, a) < IndexOf(s.waiters, b)
    requires a in Step(s, op).waiters && b in Step(s, op).waiters
    ensures IndexOf(Step(s, op).waiters, a) < IndexOf(Step(s, op).waiters, b)
  {
    StepOnQueue(s, op);
    if a != op.id && b != op.id {
      WithoutKeepsOrder(s.waiters, op.id, a, b);
    }
    AppendKeepsIndex(s.waiters, op.id, a);
    AppendKeepsIndex(s.waiters, op.id, b);
  }

  /** Two waiters that stay queued never swap places. */
  lemma {:induction false} WaitersNeverSwap(s: LockState, ops: seq<Op>, a: OriginId, b: OriginId)
    requires StaysQueued(s, ops, a) && StaysQueued(s, ops, b)
    requires IndexOf(s.waiters, a) < IndexOf(s.waiters, b)
    ensures a in Run(s, ops).waiters && b in Run(s, ops).waiters
    ensures IndexOf(Run(s, ops).waiters, a) < IndexOf(Run(s, ops).waiters, b)
    decreases ops
  {
    if ops != [] {
      StepKeepsOrder(s, ops[0], a, b);
      WaitersNeverSwap(Step(s, ops[0]), ops[1..], a, b);
    }
  }

  // ---- Fairness ----

  predicate NoHeldRegistered(s: LockState) {
    forall id :: id in s.origins ==> s.origins[id].writeMode != Held
  }

  /** No steal happens and no `held` origin is registered at any point of the run. */
  predicate Plain(s: LockState, ops: seq<Op>)
    decreases ops
  {
    && NoHeldRegistered(s)
    && (ops == [] || (!ops[0].DoSteal? && Plain(Step(s, ops[0]), ops[1..])))
  }

  function FreshGrants(s: LockState, ops: seq<Op>): nat
    decreases ops
  {
    if ops == [] then 0
    else (if FreshGrant(s, ops[0]).Some? then 1 else 0) + FreshGrants(Step(s, ops[0]), ops[1..])
  }

  /** Without a `held` origin only the head of a queue is granted the lock. */
  lemma PlainGrantIsToHead(s: LockState, id: OriginId)
    requires NoHeldRegistered(s) && FreshGrant(s, DoAcquire(id)).Some? && s.waiters != []
    ensures s.waiters[0] == id
  {
  }

  lemma PlainAcquireMovesUp(s: LockState, id: OriginId, w: OriginId)
    requires NoHeldRegistered(s) && w in s.waiters && w in Acquire(s, id).waiters
    ensures IndexOf(Acquire(s, id).waiters, w) + (if FreshGrant(s, DoAcquire(id)).Some? then 1 else 0) <= IndexOf(s.waiters, w)
  {
    AcquireGeneration(s, id);
    if FreshGrant(s, DoAcquire(id)).Some? {
      PlainGrantIsToHead(s, id);
      GrantMovesUp(s, id, w);
    }
  }

  lemma GrantMovesUp(s: LockState, id: OriginId, w: OriginId)
    requires w in s.waiters && w in s.GrantTo(id).waiters && s.waiters[0] == id
    ensures IndexOf(s.GrantTo(id).waiters, w) + 1 <= IndexOf(s.waiters, w)
  {
    WithoutMovesUp(s.waiters, id, w);
  }

  lemma PlainRegisterGrantsNothing(s: LockState, id: OriginId, name: string, mode: WriteMode)
    requires NoHeldRegistered(Register(s, id, name, mode))
    ensures FreshGrant(s, DoRegister(id, name, mode)).None?
  {
    assert Register(s, id, name, mode).origins[id].writeMode == mode;
  }

  lemma QueueMovesUp(q: seq<OriginId>, q': seq<OriginId>, id: OriginId, w: OriginId)
    requires w in q && w in q' && (q' == q || q' == Without(q, id) || q' == q + [id])
    ensures IndexOf(q', w) <= IndexOf(q, w)
  {
    AppendKeepsIndex(q, id, w);
    if w != id {
      WithoutMovesUp(q, id, w);
    }
  }

  /** A fresh grant goes to the head of the queue, so it moves every other waiter up. */
  lemma PlainStepMovesUp(s: LockState, op: Op, w: OriginId)
    requires NoHeldRegistered(s) && NoHeldRegistered(Step(s, op)) && !op.DoSteal?
    requires w in s.waiters && w in Step(s, op).waiters
    ensures IndexOf(Step(s, op).waiters, w) + (if FreshGrant(s, op).Some? then 1 else 0) <= IndexOf(s.waiters, w)
  {
    match op {
      case DoAcquire(id) => PlainAcquireMovesUp(s, id, w);
      case DoRegister(id, name, mode) => PlainRegisterGrantsNothing(s, id, name, mode);
      case _ =>
        StepOnQueue(s, op);
        QueueMovesUp(s.waiters, Step(s, op).waiters, op.id, w);
    }
  }

  /**
   * Bounded waiting: with no steals and no `held` origin, a waiter at queue index k sees at most k
   * fresh grants before it is granted or leaves the queue.
   */
  lemma {:induction false} BoundedWaiting(s: LockState, ops: seq<Op>, w: OriginId)
    requires Plain(s, ops) && StaysQueued(s, ops, w)
    ensures w in Run(s, ops).waiters
    ensures FreshGrants(s, ops) + IndexOf(Run(s, ops).waiters, w) <= IndexOf(s.waiters, w)
    decreases ops
  {
    if ops != [] {
      PlainStepMovesUp(s, ops[0], w);
      BoundedWaiting(Step(s, ops[0]), ops[1..], w);
    }
  }

  /** The recipients of the fresh grants of a run, in order. */
  function Grants(s: LockState, ops: seq<Op>): seq<OriginId>
    decreases ops
  {
    if ops == [] then []
    else When(FreshGrant(s, ops[0]).Some?, FreshGrantee(s, ops[0])) + Grants(Step(s, ops[0]), ops[1..])
  }

  function FreshGrantee(s: LockState, op: Op): OriginId {
    match FreshGrant(s, op)
    case Some(id) => id
    case None => 0
  }

  /** Every id in turn takes the lock and gives it back. */
  function TakeTurns(ids: seq<OriginId>): seq<Op> {
    if ids == [] then [] else [DoAcquire(ids[0]), DoRelease(ids[0])] + TakeTurns(ids[1..])
  }

  lemma HeadIsGranted(s: LockState)
    requires Inv(s) && s.arbitration == Exclusive && s.holder.None? && NoHeldRegistered(s) && s.waiters != []
    ensures AcquireOutcome(s, s.waiters[0]) == Granted
  {
    var head := s.waiters[0];
    assert s.Writer(head);
    assert forall id :: id != head ==> !s.HeldOrigin(id);
  }

  /** One turn of the head: it is granted, gives the lock back, and the rest of the queue moves up. */
  lemma HeadTakesTurn(s: LockState, s1: LockState, s2: LockState)
    requires Inv(s) && s.arbitration == Exclusive && s.holder.None? && NoHeldRegistered(s) && s.waiters != []
    requires s1 == Acquire(s, s.waiters[0]) && s2 == Release(s1, s.waiters[0])
    ensures s1.holder == Some(s.waiters[0])
    ensures s2.waiters == s.waiters[1..] && s2.holder.None?
    ensures s2.origins == s.origins && s2.arbitration == s.arbitration && Inv(s2)
  {
    HeadIsGranted(s);
    DropHead(s.waiters);
  }

  /** A granted acquire as a step of a run: one grant, to the taker. */
  lemma GrantAsStep(s: LockState, head: OriginId)
    requires s.arbitration == Exclusive && AcquireOutcome(s, head) == Granted
    ensures Step(s, DoAcquire(head)) == Acquire(s, head) && FreshGrant(s, DoAcquire(head)) == Some(head)
  {
  }

  lemma ReleaseAsStep(s: LockState, head: OriginId)
    ensures Step(s, DoRelease(head)) == Release(s, head) && FreshGrant(s, DoRelease(head)) == None
  {
  }

  /** After `ops` the grants went to `q` in order, and the lock is free with nobody waiting. */
  ghost predicate Served(s: LockState, ops: seq<Op>, q: seq<OriginId>) {
    Grants(s, ops) == q && Run(s, ops).waiters == [] && Run(s, ops).holder.None?
  }

  lemma ServedOneMore(s: LockState, s1: LockState, s2: LockState, a: Op, b: Op, head: OriginId, rest: seq<Op>, q: seq<OriginId>)
    requires Step(s, a) == s1 && Step(s1, b) == s2
    requires FreshGrant(s, a) == Some(head) && FreshGrant(s1, b) == None && Served(s2, rest, q)
    ensures Served(s, [a, b] + rest, [head] + q)
  {
    UnfoldTwo(s, a, b, rest);
  }

  /** A free lock serves its whole queue in FIFO order: everyone is granted once, and nobody is left waiting. */
  lemma {:induction false} QueueServedInOrder(s: LockState)
    requires Inv(s) && s.arbitration == Exclusive && s.holder.None? && NoHeldRegistered(s)
    ensures Served(s, TakeTurns(s.waiters), s.waiters)
    decreases |s.waiters|
  {
    if s.waiters != [] {
      var head, rest := s.waiters[0], s.waiters[1..];
      var s1 := Acquire(s, head);
      var s2 := Release(s1, head);
      HeadTakesTurn(s, s1, s2);
      QueueServedInOrder(s2);
      HeadIsGranted(s);
      GrantAsStep(s, head);
      ReleaseAsStep(s1, head);
      ServedOneMore(s, s1, s2, DoAcquire(head), DoRelease(head), head, TakeTurns(rest), rest);
      FirstTurn(s.waiters);
    }
  }

  lemma FirstTurn(q: seq<OriginId>)
    requires q != []
    ensures TakeTurns(q) == [DoAcquire(q[0]), DoRelease(q[0])] + TakeTurns(q[1..]) && q == [q[0]] + q[1..]
  {
  }

  lemma UnfoldTwo(s: LockState, a: Op, b: Op, rest: seq<Op>)
    ensures var s1 := Step(s, a); var s2 := Step(s1, b);
            && Run(s, [a, b] + rest) == Run(s2, rest)
            && Grants(s, [a, b] + rest) ==
               When(FreshGrant(s, a).Some?, FreshGrantee(s, a)) +
               When(FreshGrant(s1, b).Some?, FreshGrantee(s1, b)) + Grants(s2, rest)
  {
    var ops := [a, b] + rest;
    assert ops[1..] == [b] + rest && ([b] + rest)[1..] == rest;
  }

  lemma DropHead(q: seq<OriginId>)
    requires DistinctIds(q) && q != []
    ensures Without(q, q[0]) == q[1..]
  {
    assert q[0] !in q[1..];
  }

  // ---- Held priority and progress ----

  ghost predicate SomeHeldRegistered(s: LockState) {
    exists id: OriginId :: s.HeldOrigin(id)
  }

  /** While a `held` origin is registered, only a steal makes a non-`held` origin the holder. */
  lemma HeldOutranksQueue(s: LockState, op: Op)
    requires SomeHeldRegistered(s) && Legal(s, op) && !op.DoSteal?
    requires Step(s, op).holder.Some? && Step(s, op).holder != s.holder
    ensures Step(s, op).HeldOrigin(Step(s, op).holder.value)
  {
    var h :| s.HeldOrigin(h);
    assert op.DoAcquire? && !s.HeldOrigin(op.id) ==> h != op.id;
  }

  /** A registration does not take the `held` mode from the holder. */
  predicate LeavesHolder(s: LockState, op: Op) {
    op.DoRegister? && s.holder == Some(op.id) ==> op.mode == Held
  }

  /** A `held` origin stays registered in every state of the run, and nobody steals or demotes the holder. */
  ghost predicate HeldThroughout(s: LockState, ops: seq<Op>)
    decreases ops
  {
    && SomeHeldRegistered(s)
    && (ops == [] ||
        (Legal(s, ops[0]) && !ops[0].DoSteal? && LeavesHolder(s, ops[0]) && HeldThroughout(Step(s, ops[0]), ops[1..])))
  }

  lemma {:induction false} HeldOutranksQueueInRun(s: LockState, ops: seq<Op>)
    requires Inv(s) && HeldThroughout(s, ops)
    requires s.holder.None? || s.HeldOrigin(s.holder.value)
    ensures var s' := Run(s, ops); s'.holder.None? || s'.HeldOrigin(s'.holder.value)
    decreases ops
  {
    if ops != [] {
      var s' := Step(s, ops[0]);
      StepKeepsInv(s, ops[0]);
      if s'.holder.Some? && s'.holder != s.holder {
        HeldOutranksQueue(s, ops[0]);
      }
      HeldOutranksQueueInRun(s', ops[1..]);
    }
  }

  /** A free lock with a writer attached is never stuck: some registered origin's acquire is granted. */
  lemma FreeLockIsTakeable(s: LockState)
    requires Inv(s) && s.arbitration == Exclusive && s.holder.None?
    requires exists id: OriginId :: s.Writer(id)
    ensures exists id: OriginId :: s.Registered(id) && AcquireOutcome(s, id) == Granted && Acquire(s, id).holder == Some(id)
  {
    var taker: OriginId;
    if SomeHeldRegistered(s) {
      taker :| s.HeldOrigin(taker);
    } else if s.waiters != [] {
      taker := s.waiters[0];
      assert s.Writer(taker);
    } else {
      taker :| s.Writer(taker);
    }
    assert s.Registered(taker) && AcquireOutcome(s, taker) == Granted;
  }

  /** Exactly who can take a free lock: any `held` origin, or without one the FIFO head (anyone, if none waits). */
  lemma WhoTakesFreeLock(s: LockState, id: OriginId)
    requires s.arbitration == Exclusive && s.holder.None? && s.Writer(id)
    ensures AcquireOutcome(s, id) == Granted <==>
            s.HeldOrigin(id) || (!SomeHeldRegistered(s) && (s.waiters == [] || s.waiters[0] == id))
  {
    if SomeHeldRegistered(s) && !s.HeldOrigin(id) {
      var h :| s.HeldOrigin(h);
      assert h != id;
    }
  }

  /** On a free lock a `held` origin reaches the same state through either door. */
  lemma AcquireAgreesWithReclaim(s: LockState, id: OriginId)
    requires s.HeldOrigin(id) && s.arbitration == Exclusive && s.holder.None?
    ensures AcquireOutcome(s, id) == Granted && ReclaimOutcome(s, id)
    ensures Acquire(s, id) == ReclaimHeld(s, id)
    ensures Acquire(s, id).holder == Some(id) && id !in Acquire(s, id).waiters
  {
  }

  // ---- Generations ----

  function AdvanceCount(s: LockState, ops: seq<Op>): nat
    decreases ops
  {
    if ops == [] then 0
    else (if Advances(s, ops[0]) then 1 else 0) + AdvanceCount(Step(s, ops[0]), ops[1..])
  }

  lemma GrantGeneration(s: LockState, id: OriginId)
    ensures s.GrantTo(id).generation == Wrap64(s.generation + 1) && s.GrantTo(id).holder == Some(id)
  {
  }

  /** An acquire advances the generation exactly when it grants. */
  lemma AcquireGeneration(s: LockState, id: OriginId)
    ensures FreshGrant(s, DoAcquire(id)).Some? ==> Acquire(s, id) == s.GrantTo(id) && FreshGrant(s, DoAcquire(id)) == Some(id)
    ensures FreshGrant(s, DoAcquire(id)).None? ==> Acquire(s, id) == s
  {
  }

  lemma StealGeneration(s: LockState, id: OriginId)
    ensures FreshGrant(s, DoSteal(id)).Some? ==>
      Steal(s, id).(stolen := s.stolen) == s.GrantTo(id) && FreshGrant(s, DoSteal(id)) == Some(id)
    ensures FreshGrant(s, DoSteal(id)).None? ==> Steal(s, id) == s
  {
  }

  lemma StepGeneration(s: LockState, op: Op)
    ensures Step(s, op).generation == if Advances(s, op) then Wrap64(s.generation + 1) else s.generation
    ensures !Advances(s, op) ==> Step(s, op).holder == s.holder || Step(s, op).holder.None?
    ensures FreshGrant(s, op).Some? ==> Step(s, op).holder == FreshGrant(s, op)
  {
    match op {
      case DoAcquire(id) =>
        AcquireGeneration(s, id);
        GrantGeneration(s, id);
      case DoSteal(id) =>
        StealGeneration(s, id);
        GrantGeneration(s, id);
      case DoReclaim(id) => GrantGeneration(s, id);
      case _ =>
    }
  }

  /** The generation counts the advances, modulo 2^64. */
  lemma {:induction false} GenerationCountsAdvances(s: LockState, ops: seq<Op>)
    ensures Run(s, ops).generation == Wrap64(s.generation + AdvanceCount(s, ops))
    ensures AdvanceCount(s, ops) == 0 ==> Run(s, ops).holder == s.holder || Run(s, ops).holder.None?
    decreases ops
  {
    if ops != [] {
      StepGeneration(s, ops[0]);
      GenerationCountsAdvances(Step(s, ops[0]), ops[1..]);
      WrapAdd(s.generation + 1, AdvanceCount(Step(s, ops[0]), ops[1..]));
    }
  }

  /**
   * The lease guard: if the generation is unchanged and fewer than 2^64 advances lie between, then no
   * grant, steal or renewal lies between, and the holder is still the captured one or nobody.
   */
  lemma StaleLeaseNeverMatches(s: LockState, ops: seq<Op>)
    requires AdvanceCount(s, ops) < U64_MODULUS
    ensures Run(s, ops).generation == s.generation <==> AdvanceCount(s, ops) == 0
    ensures Run(s, ops).generation == s.generation ==> Run(s, ops).holder == s.holder || Run(s, ops).holder.None?
  {
    GenerationCountsAdvances(s, ops);
  }

  // ---- The steal record and the purge counts over runs ----

  /** The record a steal from a holder leaves: whose lock it was, and who took it. */
  ghost predicate TakesFrom(s: LockState, op: Op) {
    op.DoSteal? && s.arbitration == Exclusive && s.Writer(op.id) && s.holder.Some? && s.holder != Some(op.id)
  }

  ghost predicate NoTheft(s: LockState, ops: seq<Op>)
    decreases ops
  {
    ops == [] || (!TakesFrom(s, ops[0]) && NoTheft(Step(s, ops[0]), ops[1..]))
  }

  /** The record stays until the next theft, also after both parties have left. */
  lemma {:induction false} RecordSurvives(s: LockState, ops: seq<Op>)
    requires NoTheft(s, ops)
    ensures Run(s, ops).stolen == s.stolen
    decreases ops
  {
    if ops != [] {
      RecordSurvives(Step(s, ops[0]), ops[1..]);
    }
  }

  /** After a theft and any run without another, the snapshot still names victim and thief as labelled then. */
  lemma TheftIsOnRecord(s: LockState, thief: OriginId, ops: seq<Op>)
    requires Inv(s) && TakesFrom(s, DoSteal(thief)) && NoTheft(Steal(s, thief), ops)
    ensures Steal(s, thief).holder == Some(thief) && Steal(s, thief).origins == s.origins
    ensures forall w :: w in Steal(s, thief).waiters <==> w in s.waiters && w != thief
    ensures Snapshot(Run(Steal(s, thief), ops)).lastSteal ==
            Some(StealRecord(s.origins[s.holder.value].name, s.origins[thief].name))
  {
    RecordSurvives(Steal(s, thief), ops);
  }

  /** The bytes purged on behalf of one origin. */
  function PurgedBytes(ops: seq<Op>, id: OriginId): nat {
    if ops == [] then 0
    else (if ops[0].DoPurge? && ops[0].id == id then ops[0].bytes else 0) + PurgedBytes(ops[1..], id)
  }

  predicate StaysAttached(ops: seq<Op>, id: OriginId) {
    forall k :: 0 <= k < |ops| && (ops[k].DoRegister? || ops[k].DoUnregister?) ==> ops[k].id != id
  }

  /** While an origin stays attached its purge count is the saturated sum of its own purges alone. */
  lemma {:induction false} PurgesAccumulate(s: LockState, ops: seq<Op>, id: OriginId)
    requires id in s.origins && StaysAttached(ops, id)
    ensures id in Run(s, ops).origins
    ensures Run(s, ops).origins[id].purged == Saturate64(s.origins[id].purged + PurgedBytes(ops, id))
    decreases ops
  {
    if ops != [] {
      assert StaysAttached(ops[1..], id) by {
        assert forall k :: 0 <= k < |ops[1..]| ==> ops[1..][k] == ops[k + 1];
      }
      assert ops[0] in ops;
      StepPurges(s, ops[0], id);
      PurgesAccumulate(Step(s, ops[0]), ops[1..], id);
    }
  }

  lemma StepPurges(s: LockState, op: Op, id: OriginId)
    requires id in s.origins && (op.DoRegister? || op.DoUnregister? ==> op.id != id)
    ensures id in Step(s, op).origins
    ensures Step(s, op).origins[id].purged ==
            if op.DoPurge? && op.id == id then Saturate64(s.origins[id].purged + op.bytes) else s.origins[id].purged
  {
  }
}
