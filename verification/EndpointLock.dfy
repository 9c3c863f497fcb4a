/** The lock object of one host-facing endpoint, updated in place (core/src/lock.rs). */
module EndpointLock {
  import opened Basics
  import opened Graph
  import L = Lock

  class EndpointLock {
    const arbitration: Arbitration
    var origins: map<L.OriginId, L.Origin>
    var holder: Option<L.OriginId>
    var waiters: seq<L.OriginId>
    var generation: U64
    var stolen: Option<L.StealRecord>

    /** The abstract lock state the operations are specified on. */
    ghost function View(): L.LockState
      reads this
    {
      L.LockState(arbitration, origins, holder, waiters, generation, stolen)
    }

    constructor (arbitration: Arbitration)
      ensures View() == L.NewLock(arbitration)
    {
      this.arbitration := arbitration;
      origins, holder, waiters, generation, stolen := map[], None, [], 0, None;
    }

    method Register(id: L.OriginId, name: string, mode: WriteMode)
      modifies this
      ensures View() == L.Register(old(View()), id, name, mode)
    {
      origins := origins[id := L.Origin(name, mode, 0)];
      if mode == Held && arbitration == Exclusive && holder.None? {
        holder := Some(id);
        generation := Wrap64(generation + 1);
      }
    }

    method Unregister(id: L.OriginId) returns (released: bool)
      modifies this
      ensures View() == L.Unregister(old(View()), id)
      ensures released <==> old(holder) == Some(id)
    {
      origins := origins - {id};
      waiters := L.Without(waiters, id);
      released := holder == Some(id);
      if released {
        holder := None;
      }
    }

    method MayWrite(id: L.OriginId) returns (may: bool)
      ensures may <==> L.MayWrite(View(), id)
    {
      if id !in origins {
        return false;
      }
      if origins[id].writeMode == Never {
        return false;
      }
      match arbitration {
        case FreeForAll => may := true;
        case Exclusive => may := holder == Some(id);
      }
    }

    method GrantTo(id: L.OriginId)
      modifies this
      ensures View() == old(View()).GrantTo(id)
    {
      holder := Some(id);
      waiters := L.Without(waiters, id);
      generation := Wrap64(generation + 1);
    }

    /** The first `held` origin other than `except` in table order, found by one scan of the table. */
    method HeldOriginOtherThan(except: L.OriginId) returns (held: Option<L.OriginId>)
      ensures held == L.HeldOriginOtherThan(View(), except)
    {
      ghost var s := View();
      var ids := L.Sorted(origins.Keys);
      var i := 0;
      while i < |ids|
        invariant 0 <= i <= |ids|
        invariant L.FirstHeld(s, ids[i..], except) == L.FirstHeld(s, ids, except)
      {
        L.FirstHeldAt(s, ids, i, except);
        assert ids[i] in ids;
        if ids[i] != except && origins[ids[i]].writeMode == Held {
          return Some(ids[i]);
        }
        i := i + 1;
      }
      L.FirstHeldAtEnd(s, ids, except);
      held := None;
    }

    method Acquire(id: L.OriginId) returns (r: L.AcquireResult)
      modifies this
      ensures r == L.AcquireOutcome(old(View()), id)
      ensures View() == L.Acquire(old(View()), id)
    {
      if id !in origins {
        return L.Unregistered;
      }
      if origins[id].writeMode == Never {
        return L.ReadOnly;
      }
      if arbitration == FreeForAll {
        return L.Granted;
      }
      match holder {
        case Some(h) =>
          return if h == id then L.AlreadyHeld else L.Denied(h);
        case None =>
          if origins[id].writeMode == Held {
            GrantTo(id);
            return L.Granted;
          }
          var held := HeldOriginOtherThan(id);
          if held.Some? {
            return L.Denied(held.value);
          }
          if waiters != [] && waiters[0] != id {
            return L.Denied(waiters[0]);
          }
          GrantTo(id);
          return L.Granted;
      }
    }

    method Enqueue(id: L.OriginId)
      modifies this
      ensures View() == L.Enqueue(old(View()), id)
    {
      if id !in origins || origins[id].writeMode == Never {
        return;
      }
      if holder == Some(id) || id in waiters {
        return;
      }
      waiters := waiters + [id];
    }

    method Dequeue(id: L.OriginId)
      modifies this
      ensures View() == L.Dequeue(old(View()), id)
    {
      waiters := L.Without(waiters, id);
    }

    method Steal(id: L.OriginId) returns (r: L.StealResult)
      modifies this
      ensures r == L.StealOutcome(old(View()), id)
      ensures View() == L.Steal(old(View()), id)
    {
      if id !in origins || origins[id].writeMode == Never {
        return L.CannotSteal;
      }
      if arbitration == FreeForAll {
        return L.Stolen(None);
      }
      if holder == Some(id) {
        return L.SelfSteal;
      }
      var previous := holder;
      if previous.Some? {
        var from := if previous.value in origins then origins[previous.value].name else "";
        stolen := Some(L.StealRecord(from, origins[id].name));
      }
      waiters := L.Without(waiters, id);
      holder := Some(id);
      generation := Wrap64(generation + 1);
      r := L.Stolen(previous);
    }

    method ReclaimHeld(id: L.OriginId) returns (took: bool)
      modifies this
      ensures took <==> L.ReclaimOutcome(old(View()), id)
      ensures View() == L.ReclaimHeld(old(View()), id)
    {
      if id !in origins || origins[id].writeMode != Held {
        return false;
      }
      if arbitration == FreeForAll {
        return true;
      }
      if holder.None? {
        GrantTo(id);
        return true;
      }
      took := false;
    }

    method Release(id: L.OriginId) returns (released: bool)
      modifies this
      ensures View() == L.Release(old(View()), id)
      ensures released <==> old(holder) == Some(id)
    {
      released := holder == Some(id);
      if released {
        holder := None;
      }
    }

    method Renew(id: L.OriginId) returns (renewed: Option<U64>)
      modifies this
      ensures View() == L.Renew(old(View()), id)
      ensures renewed == if old(holder) == Some(id) then Some(generation) else None
    {
      if holder == Some(id) {
        generation := Wrap64(generation + 1);
        renewed := Some(generation);
      } else {
        renewed := None;
      }
    }

    method RecordPurge(id: L.OriginId, bytes: U64)
      modifies this
      ensures View() == L.RecordPurge(old(View()), id, bytes)
    {
      if id in origins {
        var o := origins[id];
        origins := origins[id := o.(purged := Saturate64(o.purged + bytes))];
      }
    }
  }
}
