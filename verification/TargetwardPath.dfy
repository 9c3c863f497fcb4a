/** The targetward path as objects changed in place: boundary, holdover transforms and the origin (core/src/data.rs). */
module TargetwardPath {
  import opened Basics
  import D = DataPlane

  /** One sink of the chain: the boundary when `next` is null, an interior transform otherwise. */
  class Sink {
    var next: Sink?
    var busy: bool
    var received: seq<Byte>
    /** The holdover: room for one chunk. */
    var slot: Option<D.Chunk>
    ghost var Repr: set<object>
    /** The abstract path from here to the boundary. */
    ghost var path: D.Path

    ghost predicate Valid()
      reads this, Repr
      decreases Repr
    {
      && this in Repr
      && (next == null ==> path == D.Boundary(busy, received))
      && (next != null ==>
            && next in Repr && next.Repr < Repr && this !in next.Repr
            && next.Valid()
            && path == D.Interior(next.path, slot))
    }

    constructor Boundary()
      ensures Valid() && fresh(Repr) && path == D.Boundary(false, [])
    {
      next, busy, received, slot := null, false, [], None;
      Repr := {this};
      path := D.Boundary(false, []);
    }

    constructor Interior(downstream: Sink)
      requires downstream.Valid()
      ensures Valid() && Repr == {this} + downstream.Repr && path == D.Interior(downstream.path, None)
    {
      next, busy, received, slot := downstream, false, [], None;
      Repr := {this} + downstream.Repr;
      path := D.Interior(downstream.path, None);
    }

    method SetBusy(b: bool)
      requires Valid()
      modifies Repr
      ensures Valid() && Repr == old(Repr) && path == old(path).SetBusy(b)
      decreases Repr
    {
      if next == null {
        busy := b;
      } else {
        next.SetBusy(b);
      }
      path := path.SetBusy(b);
    }

    /** Try to push the parked chunk downstream: take it, and park it again if it is refused. */
    method FlushHoldover() returns (empty: bool)
      requires Valid() && next != null
      modifies Repr
      ensures Valid() && Repr == old(Repr) && next == old(next)
      ensures (path, empty) == D.FlushHoldover(old(path))
      ensures empty ==> slot.None?
      decreases Repr, 0
    {
      match slot {
        case None =>
          empty := true;
        case Some(parked) =>
          slot := None;
          var r := next.Deliver(parked);
          empty := r.Accepted?;
          if !empty {
            slot := Some(parked);
          }
          path := D.Interior(next.path, slot);
      }
    }

    method Deliver(c: D.Chunk) returns (r: D.Delivery)
      requires Valid()
      modifies Repr
      ensures Valid() && Repr == old(Repr) && next == old(next)
      ensures (path, r) == D.Deliver(old(path), c)
      decreases Repr, 1
    {
      if next == null {
        if busy {
          return D.Busy;
        }
        received := received + c;
        path := D.Boundary(busy, received);
        return D.Accepted;
      }
      if slot.Some? {
        var empty := FlushHoldover();
        if !empty {
          return D.Busy;
        }
      }
      r := next.Deliver(c);
      if r.Busy? {
        assert slot.None?;
        slot := Some(c);
      }
      path := D.Interior(next.path, slot);
      r := D.Accepted;
    }

    method Flush()
      requires Valid()
      modifies Repr
      ensures Valid() && Repr == old(Repr) && path == D.Flush(old(path))
      decreases Repr, 2
    {
      if next != null {
        next.Flush();
        path := D.Interior(next.path, slot);
        var _ := FlushHoldover();
      }
    }
  }

  class Origin {
    const sink: Sink
    var pending: seq<D.Chunk>
    var paused: bool
    var offered: nat

    ghost predicate Valid()
      reads this, sink, sink.Repr
    {
      sink.Valid() && this !in sink.Repr
    }

    ghost function View(): D.OriginState
      reads this, sink
    {
      D.OriginState(sink.path, pending, paused, offered)
    }

    constructor (sink: Sink)
      requires sink.Valid()
      ensures Valid() && this.sink == sink && View() == D.OriginState(sink.path, [], false, 0)
    {
      this.sink := sink;
      pending, paused, offered := [], false, 0;
    }

    method Pump()
      requires Valid()
      modifies this, sink.Repr
      ensures Valid() && sink.Repr == old(sink.Repr) && View() == D.Pump(old(View()))
    {
      ghost var target := D.Pump(View());
      sink.Flush();
      while pending != []
        invariant Valid() && sink.Repr == old(sink.Repr)
        invariant D.Drain(View()) == target
        decreases |pending|
      {
        var r := sink.Deliver(pending[0]);
        if r.Busy? {
          paused := true;
          return;
        }
        pending := pending[1..];
        paused := false;
      }
    }

    method Offer(c: D.Chunk)
      requires Valid()
      modifies this, sink.Repr
      ensures Valid() && sink.Repr == old(sink.Repr) && View() == D.Offer(old(View()), c)
    {
      offered := offered + |c|;
      pending := pending + [c];
      Pump();
    }

    method Resume()
      requires Valid()
      modifies this, sink.Repr
      ensures Valid() && sink.Repr == old(sink.Repr) && View() == D.Pump(old(View()))
    {
      Pump();
    }
  }
}
