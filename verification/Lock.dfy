/** The write-lock state machine of core/src/lock.rs: its state, its operations and one step of a run. */
module Lock {
  import opened Basics
  import opened Graph

  type OriginId = U64

  datatype Origin = Origin(name: string, writeMode: WriteMode, purged: U64)

  datatype StealRecord = StealRecord(from: string, thief: string)

  datatype LockState = LockState(
    arbitration: Arbitration,
    origins: map<OriginId, Origin>,
    holder: Option<OriginId>,
    waiters: seq<OriginId>,
    generation: U64,
    stolen: Option<StealRecord>)
  {
    predicate Registered(id: OriginId) {
      id in origins
    }

    predicate Writer(id: OriginId) {
      id in origins && origins[id].writeMode != Never
    }

    predicate HeldOrigin(id: OriginId) {
      id in origins && origins[id].writeMode == Held
    }

    function Label(id: OriginId): Option<string> {
      if id in origins then Some(origins[id].name) else None
    }

    /** Set the holder, drop it from the queue and advance the generation. */
    function GrantTo(id: OriginId): LockState {
      this.(holder := Some(id), waiters := Without(waiters, id), generation := Wrap64(generation + 1))
    }
  }

  function NewLock(arbitration: Arbitration): LockState {
    LockState(arbitration, map[], None, [], 0, None)
  }

  // ---- Queue and table helpers ----

  /** The queue with every entry equal to `id` removed. */
  function Without(s: seq<OriginId>, id: OriginId): (r: seq<OriginId>)
    ensures id !in r
    ensures forall x :: x in r <==> x in s && x != id
    ensures id !in s ==> r == s
    ensures |r| <= |s|
  {
    if s == [] then []
    else
      assert s == [s[0]] + s[1..];
      if s[0] == id then Without(s[1..], id) else [s[0]] + Without(s[1..], id)
  }

  predicate IsLeast(m: OriginId, ids: set<OriginId>) {
    m in ids && forall k :: k in ids ==> m <= k
  }

  lemma {:induction false} LeastExists(ids: set<OriginId>)
    requires ids != {}
    ensures exists m :: IsLeast(m, ids)
    decreases |ids|
  {
    var x :| x in ids;
    if ids == {x} {
      assert IsLeast(x, ids);
    } else {
      LeastExists(ids - {x});
      var m :| IsLeast(m, ids - {x});
      var least := if x < m then x else m;
      forall k | k in ids ensures least <= k {
        assert k == x || k in ids - {x};
      }
      assert IsLeast(least, ids);
    }
  }

  /** The ids in increasing order, as the ordered origin table iterates them. */
  function Sorted(ids: set<OriginId>): (r: seq<OriginId>)
    ensures forall x :: x in r <==> x in ids
    ensures forall i, j :: 0 <= i < j < |r| ==> r[i] < r[j]
    ensures |r| == |ids|
    decreases |ids|
  {
    if ids == {} then []
    else
      LeastExists(ids);
      var m :| IsLeast(m, ids);
      var rest := Sorted(ids - {m});
      LeastFirst(m, ids, rest);
      [m] + rest
  }

  lemma LeastFirst(m: OriginId, ids: set<OriginId>, rest: seq<OriginId>)
    requires IsLeast(m, ids)
    requires forall x :: x in rest <==> x in ids - {m}
    requires forall i, j :: 0 <= i < j < |rest| ==> rest[i] < rest[j]
    ensures forall x :: x in [m] + rest <==> x in ids
    ensures forall i, j :: 0 <= i < j < |[m] + rest| ==> ([m] + rest)[i] < ([m] + rest)[j]
  {
    assert forall k :: 0 <= k < |rest| ==> rest[k] in rest;
  }

  function FirstHeld(s: LockState, ids: seq<OriginId>, except: OriginId): (r: Option<OriginId>)
    ensures r.None? <==> forall id :: id in ids && id != except ==> !s.HeldOrigin(id)
    ensures r.Some? ==> r.value in ids && r.value != except && s.HeldOrigin(r.value)
  {
    if ids == [] then None
    else if ids[0] != except && s.HeldOrigin(ids[0]) then Some(ids[0])
    else FirstHeld(s, ids[1..], except)
  }

  lemma FirstHeldAt(s: LockState, ids: seq<OriginId>, i: nat, except: OriginId)
    requires i < |ids|
    ensures FirstHeld(s, ids[i..], except) ==
            if ids[i] != except && s.HeldOrigin(ids[i]) then Some(ids[i]) else FirstHeld(s, ids[i + 1..], except)
  {
    assert ids[i..][0] == ids[i] && ids[i..][1..] == ids[i + 1..];
  }

  lemma FirstHeldAtEnd(s: LockState, ids: seq<OriginId>, except: OriginId)
    ensures FirstHeld(s, ids[|ids|..], except) == None
  {
  }

  /** The first registered `held` origin other than `except`, in table order. */
  function HeldOriginOtherThan(s: LockState, except: OriginId): (r: Option<OriginId>)
    ensures r.None? <==> forall id :: id != except ==> !s.HeldOrigin(id)
    ensures r.Some? ==> r.value != except && s.HeldOrigin(r.value)
  {
    FirstHeld(s, Sorted(s.origins.Keys), except)
  }

  // ---- Operations ----

  datatype AcquireResult = Granted | AlreadyHeld | Denied(heldBy: OriginId) | ReadOnly | Unregistered

  datatype StealResult = Stolen(previous: Option<OriginId>) | SelfSteal | CannotSteal

  function Register(s: LockState, id: OriginId, name: string, mode: WriteMode): LockState {
    var s' := s.(origins := s.origins[id := Origin(name, mode, 0)]);
    if mode == Held && s.arbitration == Exclusive && s.holder.None?
    then s'.(holder := Some(id), generation := Wrap64(s.generation + 1))
    else s'
  }

  function Unregister(s: LockState, id: OriginId): LockState {
    var s' := s.(origins := s.origins - {id}, waiters := Without(s.waiters, id));
    if s.holder == Some(id) then s'.(holder := None) else s'
  }

  predicate MayWrite(s: LockState, id: OriginId) {
    s.Writer(id) && (s.arbitration == FreeForAll || s.holder == Some(id))
  }

  function AcquireOutcome(s: LockState, id: OriginId): AcquireResult {
    if id !in s.origins then Unregistered
    else if s.origins[id].writeMode == Never then ReadOnly
    else if s.arbitration == FreeForAll then Granted
    else
      match s.holder
      case Some(h) => if h == id then AlreadyHeld else Denied(h)
      case None =>
        if s.origins[id].writeMode == Held then Granted
        else
          match HeldOriginOtherThan(s, id)
          case Some(held) => Denied(held)
          case None =>
            if s.waiters != [] && s.waiters[0] != id then Denied(s.waiters[0]) else Granted
  }

  function Acquire(s: LockState, id: OriginId): LockState {
    if AcquireOutcome(s, id).Granted? && s.arbitration == Exclusive then s.GrantTo(id) else s
  }

  function Enqueue(s: LockState, id: OriginId): LockState {
    if !s.Writer(id) || s.holder == Some(id) || id in s.waiters then s
    else s.(waiters := s.waiters + [id])
  }

  function Dequeue(s: LockState, id: OriginId): LockState {
    s.(waiters := Without(s.waiters, id))
  }

  function StealOutcome(s: LockState, id: OriginId): StealResult {
    if !s.Writer(id) then CannotSteal
    else if s.arbitration == FreeForAll then Stolen(None)
    else if s.holder == Some(id) then SelfSteal
    else Stolen(s.holder)
  }

  function Steal(s: LockState, id: OriginId): LockState {
    if StealOutcome(s, id).Stolen? && s.arbitration == Exclusive then
      var record :=
        if s.holder.Some?
        then Some(StealRecord(LabelOrEmpty(s, s.holder.value), LabelOrEmpty(s, id)))
        else s.stolen;
      s.GrantTo(id).(stolen := record)
    else s
  }

  function LabelOrEmpty(s: LockState, id: OriginId): string {
    match s.Label(id)
    case Some(l) => l
    case None => ""
  }

  predicate ReclaimOutcome(s: LockState, id: OriginId) {
    s.HeldOrigin(id) && (s.arbitration == FreeForAll || s.holder.None?)
  }

  function ReclaimHeld(s: LockState, id: OriginId): LockState {
    if ReclaimOutcome(s, id) && s.arbitration == Exclusive then s.GrantTo(id) else s
  }

  function Release(s: LockState, id: OriginId): LockState {
    if s.holder == Some(id) then s.(holder := None) else s
  }

  function Renew(s: LockState, id: OriginId): LockState {
    if s.holder == Some(id) then s.(generation := Wrap64(s.generation + 1)) else s
  }

  function RecordPurge(s: LockState, id: OriginId, bytes: U64): LockState {
    if id in s.origins then
      var o := s.origins[id];
      s.(origins := s.origins[id := o.(purged := Saturate64(o.purged + bytes))])
    else s
  }

  // ---- Snapshot ----

  datatype OriginState = OriginState(origin: string, writeMode: WriteMode, holdsLock: bool, purged: U64)

  datatype LockSnapshot = LockSnapshot(
    arbitration: Arbitration, holder: Option<string>, origins: seq<OriginState>,
    waiters: seq<string>, lastSteal: Option<StealRecord>)

  function OriginStates(s: LockState, ids: seq<OriginId>): seq<OriginState>
    requires forall id :: id in ids ==> id in s.origins
  {
    if ids == [] then []
    else
      var o := s.origins[ids[0]];
      [OriginState(o.name, o.writeMode, s.holder == Some(ids[0]), o.purged)] + OriginStates(s, ids[1..])
  }

  /** The labels of the queued origins, skipping any that is not registered. */
  function WaiterLabels(s: LockState, ids: seq<OriginId>): seq<string> {
    if ids == [] then []
    else
      match s.Label(ids[0])
      case Some(l) => [l] + WaiterLabels(s, ids[1..])
      case None => WaiterLabels(s, ids[1..])
  }

  function Snapshot(s: LockState): LockSnapshot {
    LockSnapshot(
      s.arbitration,
      if s.holder.Some? then s.Label(s.holder.value) else None,
      OriginStates(s, Sorted(s.origins.Keys)),
      WaiterLabels(s, s.waiters),
      s.stolen)
  }

  // ---- One step of a run ----

  datatype Op =
    | DoRegister(id: OriginId, name: string, mode: WriteMode)
    | DoUnregister(id: OriginId)
    | DoAcquire(id: OriginId)
    | DoEnqueue(id: OriginId)
    | DoDequeue(id: OriginId)
    | DoSteal(id: OriginId)
    | DoReclaim(id: OriginId)
    | DoRelease(id: OriginId)
    | DoRenew(id: OriginId)
    | DoPurge(id: OriginId, bytes: U64)

  function Step(s: LockState, op: Op): LockState {
    match op
    case DoRegister(id, name, mode) => Register(s, id, name, mode)
    case DoUnregister(id) => Unregister(s, id)
    case DoAcquire(id) => Acquire(s, id)
    case DoEnqueue(id) => Enqueue(s, id)
    case DoDequeue(id) => Dequeue(s, id)
    case DoSteal(id) => Steal(s, id)
    case DoReclaim(id) => ReclaimHeld(s, id)
    case DoRelease(id) => Release(s, id)
    case DoRenew(id) => Renew(s, id)
    case DoPurge(id, bytes) => RecordPurge(s, id, bytes)
  }

  /**
   * A registration that overwrites no entry the lock relies on: it does not silence the holder or a waiter,
   * and does not hand the lock to an origin that is still queued. A fresh id always passes.
   */
  predicate Registrable(s: LockState, id: OriginId, mode: WriteMode) {
    && !(mode == Never && (s.holder == Some(id) || id in s.waiters))
    && !(mode == Held && s.arbitration == Exclusive && s.holder.None? && id in s.waiters)
  }

  predicate Legal(s: LockState, op: Op) {
    op.DoRegister? ==> Registrable(s, op.id, op.mode)
  }

  /** The origin a step freshly grants the lock to: a free-to-held transition or a steal. */
  function FreshGrant(s: LockState, op: Op): Option<OriginId> {
    if s.arbitration == FreeForAll then None
    else
      match op
      case DoRegister(id, _, mode) => if mode == Held && s.holder.None? then Some(id) else None
      case DoAcquire(id) => if AcquireOutcome(s, id).Granted? then Some(id) else None
      case DoSteal(id) => if StealOutcome(s, id).Stolen? then Some(id) else None
      case DoReclaim(id) => if ReclaimOutcome(s, id) then Some(id) else None
      case _ => None
  }

  predicate Renewal(s: LockState, op: Op) {
    op.DoRenew? && s.holder == Some(op.id)
  }

  /** A fresh grant, a steal or a renewal: the steps after which an older lease must not fire. */
  predicate Advances(s: LockState, op: Op) {
    FreshGrant(s, op).Some? || Renewal(s, op)
  }

  // ---- Invariant ----

  ghost predicate DistinctIds(s: seq<OriginId>) {
    forall i, j :: 0 <= i < j < |s| ==> s[i] != s[j]
  }

  ghost predicate Inv(s: LockState) {
    && (s.holder.Some? ==> s.Writer(s.holder.value) && s.holder.value !in s.waiters)
    && DistinctIds(s.waiters)
    && (forall w :: w in s.waiters ==> s.Writer(w))
    && (s.arbitration == FreeForAll ==> s.holder.None?)
  }

  lemma {:induction false} WithoutKeepsDistinct(s: seq<OriginId>, id: OriginId)
    requires DistinctIds(s)
    ensures DistinctIds(Without(s, id))
  {
    if s != [] {
      var rest := s[1..];
      WithoutKeepsDistinct(rest, id);
      assert s[0] !in rest;
      assert s[0] !in Without(rest, id);
    }
  }

  /** Registering any id, present or not, keeps the invariant exactly when it is registrable. */
  lemma RegisterKeepsInvIff(s: LockState, id: OriginId, name: string, mode: WriteMode)
    requires Inv(s)
    ensures Inv(Register(s, id, name, mode)) <==> Registrable(s, id, mode)
  {
    var t := Register(s, id, name, mode);
    assert t.waiters == s.waiters;
    assert mode == Never ==> !t.Writer(id);
    if Registrable(s, id, mode) {
      assert forall w: OriginId :: s.Writer(w) && (w != id || mode != Never) ==> t.Writer(w);
    }
  }

  /** An id that is absent, as the source's callers keep it, is always registrable. */
  lemma FreshIdIsRegistrable(s: LockState, id: OriginId, mode: WriteMode)
    requires Inv(s) && id !in s.origins
    ensures Registrable(s, id, mode)
  {
  }

  lemma UnregisterKeepsInv(s: LockState, id: OriginId)
    requires Inv(s)
    ensures Inv(Unregister(s, id))
  {
    WithoutKeepsDistinct(s.waiters, id);
  }

  lemma GrantKeepsInv(s: LockState, id: OriginId)
    requires Inv(s) && s.arbitration == Exclusive && s.Writer(id)
    ensures Inv(s.GrantTo(id))
  {
    WithoutKeepsDistinct(s.waiters, id);
  }

  lemma EnqueueKeepsInv(s: LockState, id: OriginId)
    requires Inv(s)
    ensures Inv(Enqueue(s, id))
  {
  }

  lemma DequeueKeepsInv(s: LockState, id: OriginId)
    requires Inv(s)
    ensures Inv(Dequeue(s, id))
  {
    WithoutKeepsDistinct(s.waiters, id);
  }

  /** What an acquire comes to: a grant to a writer on an exclusive lock, or nothing. */
  lemma AcquireIsGrantOrNothing(s: LockState, id: OriginId)
    ensures Acquire(s, id) == s || (s.arbitration == Exclusive && s.Writer(id) && Acquire(s, id) == s.GrantTo(id))
  {
  }

  lemma StealIsGrantOrNothing(s: LockState, id: OriginId)
    ensures Steal(s, id) == s ||
      (s.arbitration == Exclusive && s.Writer(id) && Steal(s, id).(stolen := s.stolen) == s.GrantTo(id))
  {
  }

  lemma GrantedKeepsInv(s: LockState, t: LockState, id: OriginId)
    requires Inv(s)
    requires t == s || (s.arbitration == Exclusive && s.Writer(id) && t.(stolen := s.stolen) == s.GrantTo(id))
    ensures Inv(t) && t.arbitration == s.arbitration
  {
    if t != s {
      GrantKeepsInv(s, id);
    }
  }

  lemma PurgeKeepsInv(s: LockState, id: OriginId, bytes: U64)
    requires Inv(s)
    ensures Inv(RecordPurge(s, id, bytes))
  {
  }

  lemma StepKeepsInv(s: LockState, op: Op)
    requires Inv(s) && Legal(s, op)
    ensures Inv(Step(s, op))
    ensures Step(s, op).arbitration == s.arbitration
  {
    match op {
      case DoRegister(id, name, mode) => RegisterKeepsInvIff(s, id, name, mode);
      case DoUnregister(id) => UnregisterKeepsInv(s, id);
      case DoAcquire(id) =>
        AcquireIsGrantOrNothing(s, id);
        GrantedKeepsInv(s, Acquire(s, id), id);
      case DoEnqueue(id) => EnqueueKeepsInv(s, id);
      case DoDequeue(id) => DequeueKeepsInv(s, id);
      case DoSteal(id) =>
        StealIsGrantOrNothing(s, id);
        GrantedKeepsInv(s, Steal(s, id), id);
      case DoReclaim(id) => GrantedKeepsInv(s, ReclaimHeld(s, id), id);
      case DoRelease(_) =>
      case DoRenew(_) =>
      case DoPurge(id, bytes) => PurgeKeepsInv(s, id, bytes);
    }
  }
}
