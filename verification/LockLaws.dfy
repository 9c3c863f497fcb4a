/** What each lock operation answers and changes, and how a denied origin comes to its turn (core/src/lock.rs). */
module LockLaws {
  import opened Basics
  import opened Graph
  import opened Lock
  import opened LockRuns

  // ---- Attaching and detaching ----

  /** The entry of `id` is the new one, nobody else's changes, and a held origin takes a free exclusive lock at once. */
  lemma RegisterAttaches(s: LockState, id: OriginId, name: string, mode: WriteMode)
    ensures var t := Register(s, id, name, mode);
            && t.origins.Keys == s.origins.Keys + {id} && t.origins[id] == Origin(name, mode, 0)
            && (forall x :: x in s.origins && x != id ==> t.origins[x] == s.origins[x])
            && t.waiters == s.waiters && t.stolen == s.stolen && t.arbitration == s.arbitration
            && (t.holder == Some(id) <==> s.holder == Some(id) || (mode == Held && s.arbitration == Exclusive && s.holder.None?))
            && (t.holder != Some(id) ==> t.holder == s.holder)
  {
  }

  /** The origin leaves the table, the queue and the lock; everybody else stays where they were. */
  lemma UnregisterDetaches(s: LockState, id: OriginId)
    ensures var t := Unregister(s, id);
            && t.origins.Keys == s.origins.Keys - {id}
            && (forall x :: x in s.origins && x != id ==> t.origins[x] == s.origins[x])
            && id !in t.waiters && (forall x :: x in s.waiters && x != id ==> x in t.waiters)
            && t.holder == (if s.holder == Some(id) then None else s.holder)
            && t.generation == s.generation && t.stolen == s.stolen && t.arbitration == s.arbitration
  {
  }

  // ---- The queue ----

  /** A writer that neither holds nor waits joins at the end; for anyone else, and for all else, nothing changes. */
  lemma EnqueueJoinsLast(s: LockState, id: OriginId)
    ensures var t := Enqueue(s, id);
            && t.(waiters := s.waiters) == s
            && (s.Writer(id) && s.holder != Some(id) && id !in s.waiters ==>
                  |t.waiters| == |s.waiters| + 1 && t.waiters[..|s.waiters|] == s.waiters && t.waiters[|s.waiters|] == id)
            && (!s.Writer(id) || s.holder == Some(id) || id in s.waiters ==> t == s)
  {
  }

  /** The origin is out of the queue, the others keep their order, and nothing else changes. */
  lemma DequeueLeaves(s: LockState, id: OriginId)
    ensures var t := Dequeue(s, id);
            && t.(waiters := s.waiters) == s
            && id !in t.waiters && (forall x :: x in s.waiters && x != id ==> x in t.waiters)
            && (forall x, y :: x in s.waiters && y in s.waiters && x != id && y != id && IndexOf(s.waiters, x) < IndexOf(s.waiters, y) ==>
                  IndexOf(t.waiters, x) < IndexOf(t.waiters, y))
  {
    var t := Dequeue(s, id);
    forall x, y | x in s.waiters && y in s.waiters && x != id && y != id && IndexOf(s.waiters, x) < IndexOf(s.waiters, y)
      ensures IndexOf(t.waiters, x) < IndexOf(t.waiters, y)
    {
      WithoutKeepsOrder(s.waiters, id, x, y);
    }
  }

  // ---- Taking and giving back ----

  /** The id stands between `id` and a grant: the holder, or on a free lock a held origin or else the queue's head. */
  ghost predicate Outranks(s: LockState, other: OriginId, id: OriginId) {
    && other != id
    && (s.holder.Some? ==> s.holder == Some(other))
    && (s.holder.None? && SomeHeldRegistered(s) ==> s.HeldOrigin(other) && !s.HeldOrigin(id))
    && (s.holder.None? && !SomeHeldRegistered(s) ==> s.waiters != [] && s.waiters[0] == other)
  }

  /** Every answer of `acquire` and exactly when it is given; a denial names the one that outranks the caller. */
  lemma AcquireAnswers(s: LockState, id: OriginId)
    ensures var r := AcquireOutcome(s, id);
            && (r == Unregistered <==> id !in s.origins)
            && (r == ReadOnly <==> id in s.origins && s.origins[id].writeMode == Never)
            && (r == AlreadyHeld <==> s.Writer(id) && s.arbitration == Exclusive && s.holder == Some(id))
            && (r.Denied? ==> s.Writer(id) && s.arbitration == Exclusive && Outranks(s, r.heldBy, id))
            && (r == Granted ==> s.Writer(id) && (s.arbitration == FreeForAll || s.holder.None?))
            && (r == Granted && s.arbitration == Exclusive ==> forall other: OriginId :: !Outranks(s, other, id))
  {
    if s.Writer(id) && s.arbitration == Exclusive && s.holder.None? {
      WhoTakesFreeLock(s, id);
    }
  }

  /** The lock now belongs to `id`: it holds and no longer waits, the others wait on, and the generation moved by one. */
  ghost predicate HandedTo(s: LockState, t: LockState, id: OriginId) {
    && t.holder == Some(id) && t.generation == Wrap64(s.generation + 1)
    && id !in t.waiters && (forall x :: x in s.waiters && x != id ==> x in t.waiters)
    && t.origins == s.origins && t.arbitration == s.arbitration
  }

  lemma GrantHandsOver(s: LockState, id: OriginId)
    ensures HandedTo(s, s.GrantTo(id), id) && s.GrantTo(id).stolen == s.stolen
  {
  }

  /** A grant on an exclusive lock hands it to the caller; any other answer changes nothing. */
  lemma AcquireChanges(s: LockState, id: OriginId)
    ensures AcquireOutcome(s, id) != Granted || s.arbitration == FreeForAll ==> Acquire(s, id) == s
    ensures AcquireOutcome(s, id) == Granted && s.arbitration == Exclusive ==>
      HandedTo(s, Acquire(s, id), id) && Acquire(s, id).stolen == s.stolen
  {
    GrantHandsOver(s, id);
  }

  /** Every answer of `steal`; a theft names the ousted holder, and without a lock there is nobody to oust. */
  lemma StealAnswers(s: LockState, id: OriginId)
    ensures var r, t := StealOutcome(s, id), Steal(s, id);
            && (r == CannotSteal <==> !s.Writer(id))
            && (r == SelfSteal <==> s.Writer(id) && s.arbitration == Exclusive && s.holder == Some(id))
            && (r.Stolen? ==> r.previous == if s.arbitration == Exclusive then s.holder else None)
            && (r.Stolen? && s.arbitration == Exclusive ==> HandedTo(s, t, id))
            && (!r.Stolen? || s.arbitration == FreeForAll ==> t == s)
  {
    GrantHandsOver(s, id);
  }

  /** Only the holder gives the lock back, and that is all that changes. */
  lemma OnlyHolderReleases(s: LockState, id: OriginId)
    ensures s.holder == Some(id) ==> Release(s, id).holder.None? && Release(s, id).(holder := s.holder) == s
    ensures s.holder != Some(id) ==> Release(s, id) == s
  {
  }

  /** Reclaiming is for held origins on a free lock, is a grant there, and changes nothing otherwise. */
  lemma OnlyHeldReclaims(s: LockState, id: OriginId)
    ensures ReclaimOutcome(s, id) <==> s.HeldOrigin(id) && (s.arbitration == FreeForAll || s.holder.None?)
    ensures ReclaimOutcome(s, id) && s.arbitration == Exclusive ==> HandedTo(s, ReclaimHeld(s, id), id)
    ensures !ReclaimOutcome(s, id) || s.arbitration == FreeForAll ==> ReclaimHeld(s, id) == s
  {
    GrantHandsOver(s, id);
  }

  /** Only the holder renews, and only the generation moves. */
  lemma OnlyHolderRenews(s: LockState, id: OriginId)
    ensures s.holder == Some(id) ==> Renew(s, id) == s.(generation := Wrap64(s.generation + 1))
    ensures s.holder != Some(id) ==> Renew(s, id) == s
  {
  }

  // ---- From denial to turn ----

  /** The first `n` waiters of a free lock take their turns: they are granted in order and the rest stays queued. */
  lemma {:induction false} FirstServed(s: LockState, n: nat)
    requires Inv(s) && s.arbitration == Exclusive && s.holder.None? && NoHeldRegistered(s) && n <= |s.waiters|
    ensures var ops := TakeTurns(s.waiters[..n]); var t := Run(s, ops);
            && Grants(s, ops) == s.waiters[..n] && t.waiters == s.waiters[n..] && t.holder.None?
            && t.origins == s.origins && t.arbitration == Exclusive && Inv(t)
    decreases n
  {
    if n > 0 {
      var head, s1 := s.waiters[0], Acquire(s, s.waiters[0]);
      var s2 := Release(s1, head);
      HeadTakesTurn(s, s1, s2);
      FirstServed(s2, n - 1);
      HeadIsGranted(s);
      GrantAsStep(s, head);
      ReleaseAsStep(s1, head);
      FirstApart(s.waiters[..n]);
      RestOfPrefix(s.waiters, n);
      UnfoldTwo(s, DoAcquire(head), DoRelease(head), TakeTurns(s2.waiters[..n - 1]));
    } else {
      assert s.waiters[..0] == [] && s.waiters[0..] == s.waiters;
    }
  }

  lemma RestOfPrefix(q: seq<OriginId>, n: nat)
    requires 0 < n <= |q|
    ensures q[..n][1..] == q[1..][..n - 1] && q[n..] == q[1..][n - 1..] && q[..n][0] == q[0]
  {
  }

  /** The lock once its holder, if it has one, gave it back. */
  function Freed(s: LockState): LockState {
    if s.holder.Some? then Release(s, s.holder.value) else s
  }

  lemma FreedIsFree(s: LockState)
    requires Inv(s)
    ensures Inv(Freed(s)) && Freed(s) == s.(holder := None)
  {
  }

  /**
   * In every run: a writer whose acquire was denied and who then enqueues is last in the queue. With no held
   * origin, once the holder gives the lock back and those ahead take their turns, in order, it is the one
   * left waiting, its acquire is granted, and it is the holder.
   */
  lemma DeniedComesToTurn(ops: seq<Op>, id: OriginId)
    requires LegalRun(NewLock(Exclusive), ops)
    requires var s := Run(NewLock(Exclusive), ops);
             AcquireOutcome(s, id).Denied? && id !in s.waiters && NoHeldRegistered(s)
    ensures var s := Run(NewLock(Exclusive), ops);
            var free := Freed(Enqueue(s, id));
            var turns := TakeTurns(s.waiters);
            && Enqueue(s, id).waiters == s.waiters + [id]
            && Grants(free, turns) == s.waiters
            && Run(free, turns).waiters == [id]
            && AcquireOutcome(Run(free, turns), id) == Granted
            && Acquire(Run(free, turns), id).holder == Some(id)
  {
    var s := Run(NewLock(Exclusive), ops);
    ReachableStates(Exclusive, ops);
    AcquireAnswers(s, id);
    var queued := Enqueue(s, id);
    EnqueueJoinsLast(s, id);
    EnqueueKeepsInv(s, id);
    FreedIsFree(queued);
    var free, n := Freed(queued), |s.waiters|;
    assert free.waiters == s.waiters + [id] && free.waiters[..n] == s.waiters && free.waiters[n..] == [id];
    FirstServed(free, n);
    var t := Run(free, TakeTurns(s.waiters));
    HeadIsGranted(t);
    AcquireChanges(t, id);
  }

  // ---- Who waits and who holds, over runs ----

  /** The operation makes `id` a waiter. */
  predicate Joins(s: LockState, op: Op, id: OriginId) {
    op == DoEnqueue(id) && s.Writer(id) && s.holder != Some(id)
  }

  /** The operation hands the lock to `id`, which did not hold it. */
  predicate Takes(s: LockState, op: Op, id: OriginId) {
    && s.arbitration == Exclusive && s.holder != Some(id)
    && match op
       case DoRegister(x, _, mode) => x == id && mode == Held && s.holder.None?
       case DoAcquire(x) => x == id && AcquireOutcome(s, id) == Granted
       case DoSteal(x) => x == id && s.Writer(id)
       case DoReclaim(x) => x == id && s.HeldOrigin(id) && s.holder.None?
       case _ => false
  }

  /** The operation takes `id` out of the queue. */
  predicate Leaves(s: LockState, op: Op, id: OriginId) {
    op == DoDequeue(id) || op == DoUnregister(id) || Takes(s, op, id)
  }

  /** The operation takes the lock from `id`, which held it. */
  predicate Loses(s: LockState, op: Op, id: OriginId) {
    || op == DoRelease(id) || op == DoUnregister(id)
    || (op.DoSteal? && op.id != id && s.arbitration == Exclusive && s.Writer(op.id))
  }

  /** Exactly who waits after an operation. */
  lemma WaitsIff(s: LockState, op: Op, id: OriginId)
    requires Inv(s) && Legal(s, op)
    ensures id in Step(s, op).waiters <==> Joins(s, op, id) || (id in s.waiters && !Leaves(s, op, id))
  {
    match op
    case DoEnqueue(x) => EnqueueJoinsLast(s, x);
    case DoDequeue(x) => DequeueLeaves(s, x);
    case DoUnregister(x) => UnregisterDetaches(s, x);
    case DoAcquire(x) => AcquireChanges(s, x);
    case DoSteal(x) => StealAnswers(s, x);
    case DoReclaim(x) => OnlyHeldReclaims(s, x);
    case _ =>
  }

  /** Exactly who holds the lock after an operation. */
  lemma HoldsIff(s: LockState, op: Op, id: OriginId)
    requires Inv(s) && Legal(s, op)
    ensures Step(s, op).holder == Some(id) <==> Takes(s, op, id) || (s.holder == Some(id) && !Loses(s, op, id))
  {
    match op
    case DoRegister(x, name, mode) => RegisterAttaches(s, x, name, mode);
    case DoUnregister(x) => UnregisterDetaches(s, x);
    case DoAcquire(x) =>
      AcquireAnswers(s, x);
      AcquireChanges(s, x);
    case DoSteal(x) => StealAnswers(s, x);
    case DoReclaim(x) => OnlyHeldReclaims(s, x);
    case _ =>
  }
}
