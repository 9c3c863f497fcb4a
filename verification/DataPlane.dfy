/** The targetward backpressure path of core/src/data.rs on values: a chain of one-chunk holdovers before a boundary. */
module DataPlane {
  import opened Basics

  type Chunk = seq<Byte>

  datatype Delivery = Accepted | Busy

  /** A sink: the target boundary, or an interior transform with its one-chunk holdover in front of another sink. */
  datatype Path =
    | Boundary(busy: bool, received: seq<Byte>)
    | Interior(downstream: Path, slot: Option<Chunk>)
  {
    /** Number of interior transforms. */
    function Depth(): nat {
      if Boundary? then 0 else 1 + downstream.Depth()
    }

    function IsBusy(): bool {
      if Boundary? then busy else downstream.IsBusy()
    }

    function Received(): seq<Byte> {
      if Boundary? then received else downstream.Received()
    }

    /** The parked chunks, deepest first. */
    function Held(): seq<Chunk> {
      if Boundary? then [] else downstream.Held() + if slot.Some? then [slot.value] else []
    }

    function SetBusy(b: bool): Path {
      if Boundary? then Boundary(b, received) else Interior(downstream.SetBusy(b), slot)
    }
  }

  function Flatten(chunks: seq<Chunk>): seq<Byte> {
    if chunks == [] then [] else chunks[0] + Flatten(chunks[1..])
  }

  // ---- Delivery and flushing ----

  function Deliver(p: Path, c: Chunk): (r: (Path, Delivery))
    ensures r.0.Depth() == p.Depth()
    decreases p.Depth(), 1
  {
    match p
    case Boundary(busy, received) =>
      if busy then (p, Busy) else (Boundary(busy, received + c), Accepted)
    case Interior(_, slot) =>
      var (drained, empty) := FlushHoldover(p);
      if slot.Some? && !empty then (drained, Busy)
      else
        match Deliver(drained.downstream, c)
        case (d, Accepted) => (Interior(d, None), Accepted)
        case (d, Busy) => (Interior(d, Some(c)), Accepted)
  }

  /** Try to push the parked chunk downstream; true when nothing is parked afterwards. */
  function FlushHoldover(p: Path): (r: (Path, bool))
    requires p.Interior?
    ensures r.0.Interior? && r.0.Depth() == p.Depth()
    ensures r.1 <==> r.0.slot.None?
    decreases p.Depth(), 0
  {
    match p.slot
    case None => (p, true)
    case Some(parked) =>
      match Deliver(p.downstream, parked)
      case (d, Accepted) => (Interior(d, None), true)
      case (d, Busy) => (Interior(d, Some(parked)), false)
  }

  /** Drain towards the boundary, the deepest holdover first. */
  function Flush(p: Path): (r: Path)
    ensures r.Depth() == p.Depth()
  {
    match p
    case Boundary(_, _) => p
    case Interior(d, slot) => FlushHoldover(Interior(Flush(d), slot)).0
  }

  // ---- Nothing is lost, duplicated or reordered ----

  /** `q` is `p` with `cs` put in behind it and the front of the line moved on to the boundary. */
  ghost predicate Moves(p: Path, cs: seq<Chunk>, q: Path) {
    var line := p.Held() + cs;
    var k := |line| - |q.Held()|;
    && 0 <= k
    && q.Held() == line[k..]
    && q.Received() == p.Received() + Flatten(line[..k])
    && q.IsBusy() == p.IsBusy()
    && q.Depth() == p.Depth()
  }

  lemma {:induction false} FlattenAppends(a: seq<Chunk>, b: seq<Chunk>)
    ensures Flatten(a + b) == Flatten(a) + Flatten(b)
  {
    if a == [] {
      assert a + b == b;
    } else {
      assert (a + b)[1..] == a[1..] + b;
      FlattenAppends(a[1..], b);
    }
  }

  /** Cutting a line at `k`, lengthening the rest and cutting again is one cut of the lengthened line. */
  lemma LineSplits<T>(held: seq<T>, a: seq<T>, b: seq<T>, k: nat, j: nat)
    requires k <= |held + a| && j <= |(held + a)[k..] + b|
    ensures (held + (a + b))[..k + j] == (held + a)[..k] + ((held + a)[k..] + b)[..j]
    ensures (held + (a + b))[k + j..] == ((held + a)[k..] + b)[j..]
  {
    var line := held + a;
    Regroup(held, a, b);
    assert line + b == line[..k] + (line[k..] + b);
  }

  lemma MovesCompose(p: Path, a: seq<Chunk>, q: Path, b: seq<Chunk>, r: Path)
    requires Moves(p, a, q) && Moves(q, b, r)
    ensures Moves(p, a + b, r)
  {
    var line := p.Held() + a;
    var k, j := |line| - |q.Held()|, |q.Held() + b| - |r.Held()|;
    LineSplits(p.Held(), a, b, k, j);
    FlattenAppends(line[..k], (q.Held() + b)[..j]);
    Regroup(p.Received(), Flatten(line[..k]), Flatten((q.Held() + b)[..j]));
  }

  /** A refusal changes nothing at all; an acceptance puts the chunk at the end of the line. */
  lemma {:induction false} DeliverMoves(p: Path, c: Chunk)
    ensures Deliver(p, c).1.Busy? ==> Deliver(p, c).0 == p
    ensures Deliver(p, c).1.Accepted? ==> Moves(p, [c], Deliver(p, c).0)
    decreases p.Depth(), 1
  {
    match p
    case Boundary(busy, received) =>
      assert Flatten([c]) == c + Flatten([]);
      assert [] + [c] == [c];
    case Interior(d, slot) =>
      FlushHoldoverMoves(p);
      var (drained, empty) := FlushHoldover(p);
      if empty {
        var (d', r) := Deliver(drained.downstream, c);
        DeliverMoves(drained.downstream, c);
        if r.Accepted? {
          MovesThrough(drained.downstream, [c], d');
        } else {
          KeepInSlot(drained.downstream, c);
        }
        MovesCompose(p, [], drained, [c], Deliver(p, c).0);
        assert [] + [c] == [c];
      }
  }

  lemma KeepInSlot(d: Path, c: Chunk)
    ensures Moves(Interior(d, None), [c], Interior(d, Some(c)))
  {
    var p, q := Interior(d, None), Interior(d, Some(c));
    EmptySlotHolds(d);
    var line := d.Held() + [c];
    assert q.Held() == line;
    MoveByNone(p, [c], q);
  }

  lemma EmptySlotHolds(d: Path)
    ensures Interior(d, None).Held() == d.Held()
  {
    assert d.Held() + [] == d.Held();
  }

  /** Nothing reaches the boundary: the line just got longer. */
  lemma MoveByNone(p: Path, cs: seq<Chunk>, q: Path)
    requires q.Held() == p.Held() + cs && q.Received() == p.Received()
    requires q.IsBusy() == p.IsBusy() && q.Depth() == p.Depth()
    ensures Moves(p, cs, q)
  {
    var line := p.Held() + cs;
    assert line[0..] == line && line[..0] == [];
    assert p.Received() + Flatten([]) == p.Received();
  }

  /** A transform whose slot is empty moves exactly as its downstream does. */
  lemma MovesThrough(d: Path, cs: seq<Chunk>, d': Path)
    requires Moves(d, cs, d')
    ensures Moves(Interior(d, None), cs, Interior(d', None))
  {
    EmptySlotHolds(d);
    EmptySlotHolds(d');
  }

  lemma {:induction false} FlushHoldoverMoves(p: Path)
    requires p.Interior?
    ensures Moves(p, [], FlushHoldover(p).0)
    ensures !FlushHoldover(p).1 ==> FlushHoldover(p).0 == p
    decreases p.Depth(), 0
  {
    match p.slot
    case None =>
      MovesNowhere(p);
    case Some(parked) =>
      DeliverMoves(p.downstream, parked);
      if Deliver(p.downstream, parked).1.Busy? {
        MovesNowhere(p);
      } else {
        assert p.Held() + [] == p.downstream.Held() + [parked];
      }
  }

  lemma MovesNowhere(p: Path)
    ensures Moves(p, [], p)
  {
    assert p.Held() + [] == p.Held();
    MoveByNone(p, [], p);
  }

  lemma {:induction false} FlushMoves(p: Path)
    ensures Moves(p, [], Flush(p))
  {
    match p
    case Boundary(_, _) =>
      MovesNowhere(p);
    case Interior(d, slot) =>
      FlushMoves(d);
      var p' := Interior(Flush(d), slot);
      FlushBelow(d, Flush(d), slot);
      FlushHoldoverMoves(p');
      var none: seq<Chunk> := [];
      MovesCompose(p, none, p', none, Flush(p));
      assert none + none == none;
  }

  lemma FlushBelow(d: Path, d': Path, slot: Option<Chunk>)
    requires Moves(d, [], d')
    ensures Moves(Interior(d, slot), [], Interior(d', slot))
  {
    var own := if slot.Some? then [slot.value] else [];
    var line := d.Held() + [];
    var k := |line| - |d'.Held()|;
    var p := Interior(d, slot);
    assert line == d.Held();
    assert p.Held() + [] == line + own;
    assert (line + own)[k..] == line[k..] + own && (line + own)[..k] == line[..k];
  }

  // ---- A busy path fills up, a ready path drains ----

  /** While the boundary is busy a chunk is accepted exactly when some holdover is empty, and then it stays held. */
  lemma {:induction false} BusyPathFills(p: Path, c: Chunk)
    requires p.IsBusy()
    ensures |p.Held()| <= p.Depth()
    ensures Deliver(p, c).1.Accepted? <==> |p.Held()| < p.Depth()
    ensures Deliver(p, c).1.Accepted? ==> |Deliver(p, c).0.Held()| == |p.Held()| + 1 && Deliver(p, c).0.IsBusy()
    decreases p.Depth()
  {
    match p
    case Boundary(_, _) =>
    case Interior(d, slot) =>
      match slot {
        case None =>
          BusyPathFills(d, c);
          DeliverMoves(d, c);
        case Some(parked) =>
          BusyPathFills(d, parked);
          if Deliver(d, parked).1.Accepted? {
            BusyPathFills(Deliver(d, parked).0, c);
            DeliverMoves(Deliver(d, parked).0, c);
          }
      }
  }

  lemma {:induction false} BusyFlushKeepsCount(p: Path)
    requires p.IsBusy()
    ensures |Flush(p).Held()| == |p.Held()| && Flush(p).IsBusy()
  {
    match p
    case Boundary(_, _) =>
    case Interior(d, slot) =>
      BusyFlushKeepsCount(d);
      if slot.Some? {
        BusyPathFills(Flush(d), slot.value);
        DeliverMoves(Flush(d), slot.value);
      }
  }

  /** While the boundary is ready every chunk is accepted, and a delivery or a flush leaves nothing parked. */
  lemma {:induction false} ReadyPathDrains(p: Path, c: Chunk)
    requires !p.IsBusy()
    ensures Deliver(p, c).1.Accepted? && Deliver(p, c).0.Held() == [] && !Deliver(p, c).0.IsBusy()
    decreases p.Depth()
  {
    match p
    case Boundary(_, _) =>
    case Interior(d, slot) =>
      if slot.Some? {
        ReadyPathDrains(d, slot.value);
        ReadyPathDrains(Deliver(d, slot.value).0, c);
      } else {
        ReadyPathDrains(d, c);
      }
  }

  lemma {:induction false} ReadyFlushDrains(p: Path)
    requires !p.IsBusy()
    ensures Flush(p).Held() == [] && !Flush(p).IsBusy()
  {
    match p
    case Boundary(_, _) =>
    case Interior(d, slot) =>
      ReadyFlushDrains(d);
      if slot.Some? {
        ReadyPathDrains(Flush(d), slot.value);
      }
  }

  // ---- The origin ----

  datatype OriginState = OriginState(sink: Path, pending: seq<Chunk>, paused: bool, offered: nat)

  /** Hand over pending chunks until the path refuses one. */
  function Drain(o: OriginState): OriginState
    decreases |o.pending|
  {
    if o.pending == [] then o
    else
      match Deliver(o.sink, o.pending[0])
      case (sink, Accepted) => Drain(o.(sink := sink, pending := o.pending[1..], paused := false))
      case (sink, Busy) => o.(sink := sink, paused := true)
  }

  /** Flush the path first, so a chunk parked earlier never stays behind a quiet origin. */
  function Pump(o: OriginState): OriginState {
    Drain(o.(sink := Flush(o.sink)))
  }

  function Offer(o: OriginState, c: Chunk): OriginState {
    Pump(o.(offered := o.offered + |c|, pending := o.pending + [c]))
  }

  datatype Op = DoOffer(chunk: Chunk) | DoResume | DoSetBusy(busy: bool)

  function Step(o: OriginState, op: Op): OriginState {
    match op
    case DoOffer(c) => Offer(o, c)
    case DoResume => Pump(o)
    case DoSetBusy(b) => o.(sink := o.sink.SetBusy(b))
  }

  function Run(o: OriginState, ops: seq<Op>): OriginState {
    if ops == [] then o else Step(Run(o, ops[..|ops| - 1]), ops[|ops| - 1])
  }

  function Chain(depth: nat, busy: bool): Path {
    if depth == 0 then Boundary(busy, []) else Interior(Chain(depth - 1, busy), None)
  }

  function Fresh(depth: nat, busy: bool): OriginState {
    OriginState(Chain(depth, busy), [], false, 0)
  }

  lemma {:induction false} ChainIsEmpty(depth: nat, busy: bool)
    ensures var p := Chain(depth, busy);
            p.Held() == [] && p.Received() == [] && p.Depth() == depth && p.IsBusy() == busy
  {
    if depth > 0 {
      ChainIsEmpty(depth - 1, busy);
    }
  }

  function Offered(ops: seq<Op>): seq<Chunk> {
    if ops == [] then []
    else Offered(ops[..|ops| - 1]) + if ops[|ops| - 1].DoOffer? then [ops[|ops| - 1].chunk] else []
  }

  /**
   * Where the chunks `cs` are: a first part has reached the boundary byte for byte, the rest sits whole
   * and in order in the holdovers, deepest first, and then on the client side.
   */
  ghost predicate Located(o: OriginState, cs: seq<Chunk>) {
    var n := |cs| - |o.sink.Held()| - |o.pending|;
    && 0 <= n
    && o.sink.Held() + o.pending == cs[n..]
    && o.sink.Received() == Flatten(cs[..n])
    && o.offered == |Flatten(cs)|
  }

  /** Moving `k` of the line and `j` of the pending chunks on is a later cut of the same list. */
  lemma CutsAgree<T>(cs: seq<T>, n: nat, held: seq<T>, pending: seq<T>, j: nat, k: nat)
    requires n <= |cs| && held + pending == cs[n..] && j <= |pending| && k <= |held + pending[..j]|
    ensures n + k <= |cs| && cs[..n + k] == cs[..n] + (held + pending[..j])[..k]
    ensures (held + pending[..j])[k..] + pending[j..] == cs[n + k..]
  {
    var line := held + pending[..j];
    assert pending == pending[..j] + pending[j..];
    Regroup(held, pending[..j], pending[j..]);
    assert cs == cs[..n] + (line + pending[j..]);
  }

  /** The same on the lists alone: what was received and what is still in line stay the two parts of `cs`. */
  lemma MovedParts(cs: seq<Chunk>, n: nat, received: seq<Byte>, held: seq<Chunk>, pending: seq<Chunk>, j: nat, k: nat)
    requires n <= |cs| && held + pending == cs[n..] && j <= |pending| && k <= |held + pending[..j]|
    requires received == Flatten(cs[..n])
    ensures var line := held + pending[..j];
            && n + k <= |cs| && line[k..] + pending[j..] == cs[n + k..]
            && received + Flatten(line[..k]) == Flatten(cs[..n + k])
  {
    var line := held + pending[..j];
    CutsAgree(cs, n, held, pending, j, k);
    FlattenAppends(cs[..n], line[..k]);
  }

  lemma MovedIsLocated(o: OriginState, o': OriginState, cs: seq<Chunk>, j: nat)
    requires Located(o, cs) && j <= |o.pending|
    requires Moves(o.sink, o.pending[..j], o'.sink) && o'.pending == o.pending[j..] && o'.offered == o.offered
    ensures Located(o', cs)
  {
    var n := |cs| - |o.sink.Held()| - |o.pending|;
    var k := |o.sink.Held() + o.pending[..j]| - |o'.sink.Held()|;
    MovedParts(cs, n, o.sink.Received(), o.sink.Held(), o.pending, j, k);
  }

  /** Draining hands over a first part of the pending chunks and leaves a paused origin exactly when some are left. */
  lemma {:induction false} DrainMoves(o: OriginState) returns (j: nat)
    requires o.pending == [] ==> !o.paused
    ensures j <= |o.pending| && Drain(o).pending == o.pending[j..]
    ensures Moves(o.sink, o.pending[..j], Drain(o).sink)
    ensures Drain(o).offered == o.offered
    ensures Drain(o).paused <==> Drain(o).pending != []
    decreases |o.pending|
  {
    MovesNowhere(o.sink);
    j := 0;
    if o.pending != [] {
      var c := o.pending[0];
      var (sink, r) := Deliver(o.sink, c);
      DeliverMoves(o.sink, c);
      if r.Accepted? {
        var next := o.(sink := sink, pending := o.pending[1..], paused := false);
        var i := DrainMoves(next);
        j := i + 1;
        MovesCompose(o.sink, [c], sink, next.pending[..i], Drain(next).sink);
        assert o.pending[..j] == [c] + next.pending[..i];
      } else {
        assert o.pending[..0] == [];
      }
    } else {
      assert o.pending[..0] == [];
    }
  }

  lemma PumpMoves(o: OriginState) returns (j: nat)
    requires o.pending == [] ==> !o.paused
    ensures j <= |o.pending| && Pump(o).pending == o.pending[j..]
    ensures Moves(o.sink, o.pending[..j], Pump(o).sink)
    ensures Pump(o).offered == o.offered
    ensures Pump(o).paused <==> Pump(o).pending != []
  {
    FlushMoves(o.sink);
    j := DrainMoves(o.(sink := Flush(o.sink)));
    MovesCompose(o.sink, [], Flush(o.sink), o.pending[..j], Pump(o).sink);
    assert [] + o.pending[..j] == o.pending[..j];
  }

  lemma {:induction false} SetBusyKeeps(p: Path, b: bool)
    ensures var q := p.SetBusy(b);
            q.Held() == p.Held() && q.Received() == p.Received() && q.Depth() == p.Depth() && q.IsBusy() == b
  {
    if p.Interior? {
      SetBusyKeeps(p.downstream, b);
    }
  }

  lemma PumpConserves(o: OriginState, cs: seq<Chunk>)
    requires Located(o, cs) && (o.pending == [] ==> !o.paused)
    ensures Located(Pump(o), cs) && (Pump(o).paused <==> Pump(o).pending != []) && Pump(o).sink.Depth() == o.sink.Depth()
  {
    var j := PumpMoves(o);
    MovedIsLocated(o, Pump(o), cs, j);
  }

  lemma BusyConserves(o: OriginState, cs: seq<Chunk>, b: bool)
    requires Located(o, cs)
    ensures Located(o.(sink := o.sink.SetBusy(b)), cs) && o.sink.SetBusy(b).Depth() == o.sink.Depth()
  {
    SetBusyKeeps(o.sink, b);
  }

  lemma OfferedIsLocated(o: OriginState, cs: seq<Chunk>, c: Chunk)
    requires Located(o, cs)
    ensures Located(o.(offered := o.offered + |c|, pending := o.pending + [c]), cs + [c])
  {
    var n := |cs| - |o.sink.Held()| - |o.pending|;
    assert (cs + [c])[n..] == cs[n..] + [c] && (cs + [c])[..n] == cs[..n];
    FlattenAppends(cs, [c]);
    assert Flatten([c]) == c + Flatten([]);
  }

  lemma StepConserves(o: OriginState, cs: seq<Chunk>, op: Op)
    requires Located(o, cs) && (o.paused <==> o.pending != [])
    ensures Located(Step(o, op), cs + if op.DoOffer? then [op.chunk] else [])
    ensures Step(o, op).paused <==> Step(o, op).pending != []
    ensures Step(o, op).sink.Depth() == o.sink.Depth()
  {
    NothingLast(cs);
    match op
    case DoOffer(c) =>
      OfferedIsLocated(o, cs, c);
      PumpConserves(o.(offered := o.offered + |c|, pending := o.pending + [c]), cs + [c]);
    case DoResume => PumpConserves(o, cs);
    case DoSetBusy(b) => BusyConserves(o, cs, b);
  }

  /**
   * Under any schedule of offers, resumes and busy toggles, every offered chunk is accounted for once
   * and in order, at most one whole chunk per transform, and the origin is paused exactly while it
   * still has chunks to hand over.
   */
  lemma {:induction false} RunConserves(depth: nat, busy: bool, ops: seq<Op>)
    ensures var o := Run(Fresh(depth, busy), ops);
            && Located(o, Offered(ops))
            && (o.paused <==> o.pending != [])
            && o.sink.Depth() == depth
            && |o.sink.Held()| <= depth
  {
    var o := Run(Fresh(depth, busy), ops);
    if ops == [] {
      ChainIsEmpty(depth, busy);
    } else {
      var init := ops[..|ops| - 1];
      RunConserves(depth, busy, init);
      StepConserves(Run(Fresh(depth, busy), init), Offered(init), ops[|ops| - 1]);
    }
    HeldWithinDepth(o.sink);
  }

  lemma {:induction false} HeldWithinDepth(p: Path)
    ensures |p.Held()| <= p.Depth()
  {
    if p.Interior? {
      HeldWithinDepth(p.downstream);
    }
  }

  /** Read in bytes: received, then held deepest first, then pending, is everything offered. */
  lemma LocatedInBytes(o: OriginState, cs: seq<Chunk>)
    requires Located(o, cs)
    ensures o.sink.Received() + Flatten(o.sink.Held()) + Flatten(o.pending) == Flatten(cs)
  {
    var n := |cs| - |o.sink.Held()| - |o.pending|;
    assert cs == cs[..n] + cs[n..];
    FlattenAppends(cs[..n], cs[n..]);
    FlattenAppends(o.sink.Held(), o.pending);
  }

  // ---- The boundary's flag ----

  lemma {:induction false} DeliverKeepsFlag(p: Path, c: Chunk)
    ensures Deliver(p, c).0.IsBusy() == p.IsBusy()
    decreases p.Depth(), 1
  {
    if p.Interior? {
      HoldoverKeepsFlag(p);
      DeliverKeepsFlag(FlushHoldover(p).0.downstream, c);
    }
  }

  lemma {:induction false} HoldoverKeepsFlag(p: Path)
    requires p.Interior?
    ensures FlushHoldover(p).0.IsBusy() == p.IsBusy()
    decreases p.Depth(), 0
  {
    if p.slot.Some? {
      DeliverKeepsFlag(p.downstream, p.slot.value);
    }
  }

  lemma {:induction false} FlushKeepsFlag(p: Path)
    ensures Flush(p).IsBusy() == p.IsBusy()
  {
    if p.Interior? {
      FlushKeepsFlag(p.downstream);
      HoldoverKeepsFlag(Interior(Flush(p.downstream), p.slot));
    }
  }

  lemma {:induction false} DrainKeepsFlag(o: OriginState)
    ensures Drain(o).sink.IsBusy() == o.sink.IsBusy()
    decreases |o.pending|
  {
    if o.pending != [] {
      DeliverKeepsFlag(o.sink, o.pending[0]);
      match Deliver(o.sink, o.pending[0])
      case (sink, Accepted) => DrainKeepsFlag(o.(sink := sink, pending := o.pending[1..], paused := false));
      case (sink, Busy) =>
    }
  }

  /** The boundary's flag as the schedule leaves it. */
  function LastBusy(busy: bool, ops: seq<Op>): bool {
    if ops == [] then busy
    else if ops[|ops| - 1].DoSetBusy? then ops[|ops| - 1].busy
    else LastBusy(busy, ops[..|ops| - 1])
  }

  lemma StepKeepsFlag(o: OriginState, op: Op)
    ensures Step(o, op).sink.IsBusy() == if op.DoSetBusy? then op.busy else o.sink.IsBusy()
  {
    match op
    case DoOffer(c) =>
      var queued := o.(offered := o.offered + |c|, pending := o.pending + [c]);
      FlushKeepsFlag(queued.sink);
      DrainKeepsFlag(queued.(sink := Flush(queued.sink)));
    case DoResume =>
      FlushKeepsFlag(o.sink);
      DrainKeepsFlag(o.(sink := Flush(o.sink)));
    case DoSetBusy(b) =>
      SetBusyKeeps(o.sink, b);
  }

  /** The boundary is busy exactly when the schedule last said so. */
  lemma {:induction false} BusyIsLastSet(depth: nat, busy: bool, ops: seq<Op>)
    ensures Run(Fresh(depth, busy), ops).sink.IsBusy() == LastBusy(busy, ops)
  {
    if ops == [] {
      ChainIsEmpty(depth, busy);
    } else {
      BusyIsLastSet(depth, busy, ops[..|ops| - 1]);
      StepKeepsFlag(Run(Fresh(depth, busy), ops[..|ops| - 1]), ops[|ops| - 1]);
    }
  }

  /** One resume with the boundary ready delivers everything that was ever offered. */
  lemma ResumeDrainsAll(depth: nat, busy: bool, ops: seq<Op>)
    requires !LastBusy(busy, ops)
    ensures var o := Pump(Run(Fresh(depth, busy), ops));
            o.sink.Received() == Flatten(Offered(ops)) && o.pending == [] && o.sink.Held() == [] && !o.paused
  {
    var o, cs := Run(Fresh(depth, busy), ops), Offered(ops);
    BusyIsLastSet(depth, busy, ops);
    RunConserves(depth, busy, ops);
    ReadyFlushDrains(o.sink);
    ReadyDrainEmpties(o.(sink := Flush(o.sink)));
    StepConserves(o, cs, DoResume);
    assert cs + [] == cs && cs[..|cs|] == cs;
  }

  lemma {:induction false} ReadyDrainEmpties(o: OriginState)
    requires !o.sink.IsBusy() && o.sink.Held() == []
    ensures Drain(o).pending == [] && Drain(o).sink.Held() == []
    decreases |o.pending|
  {
    if o.pending != [] {
      ReadyPathDrains(o.sink, o.pending[0]);
      ReadyDrainEmpties(o.(sink := Deliver(o.sink, o.pending[0]).0, pending := o.pending[1..], paused := false));
    }
  }

  function Offers(cs: seq<Chunk>): seq<Op> {
    seq(|cs|, i requires 0 <= i < |cs| => DoOffer(cs[i]))
  }

  /** An empty chain of `depth` transforms before a boundary that stays busy absorbs exactly `depth` chunks. */
  lemma {:induction false} BusyChainAbsorbsDepth(depth: nat, cs: seq<Chunk>)
    ensures var o := Run(Fresh(depth, true), Offers(cs));
            && o.sink.IsBusy() && o.sink.Received() == []
            && o.sink.Held() == cs[..Min(depth, |cs|)] && o.pending == cs[Min(depth, |cs|)..]
            && (o.paused <==> |cs| > depth)
  {
    var ops := Offers(cs);
    var o := Run(Fresh(depth, true), ops);
    RunConserves(depth, true, ops);
    OffersOffer(cs);
    BusyOffersCount(depth, cs);
    var n := |cs| - |o.sink.Held()| - |o.pending|;
    assert n == 0 && cs[0..] == cs && cs[..0] == [];
    assert o.sink.Held() == cs[..|o.sink.Held()|] && o.pending == cs[|o.sink.Held()|..];
  }

  lemma {:induction false} OffersOffer(cs: seq<Chunk>)
    ensures Offered(Offers(cs)) == cs
  {
    if cs != [] {
      var init := cs[..|cs| - 1];
      OffersOffer(init);
      assert Offers(cs)[..|cs| - 1] == Offers(init);
    }
  }

  /** Counting: every offer to a busy chain is either held or left pending. */
  lemma {:induction false} BusyOffersCount(depth: nat, cs: seq<Chunk>)
    ensures var o := Run(Fresh(depth, true), Offers(cs));
            && o.sink.IsBusy() && o.sink.Depth() == depth
            && |o.sink.Held()| == Min(depth, |cs|) && |o.pending| == |cs| - Min(depth, |cs|)
  {
    if cs == [] {
      ChainIsEmpty(depth, true);
    } else {
      var init, c := cs[..|cs| - 1], cs[|cs| - 1];
      var o := Run(Fresh(depth, true), Offers(init));
      BusyOffersCount(depth, init);
      assert Offers(cs)[..|cs| - 1] == Offers(init);
      BusyPumpCounts(o.(offered := o.offered + |c|, pending := o.pending + [c]));
    }
  }

  lemma BusyPumpCounts(o: OriginState)
    requires o.sink.IsBusy()
    ensures var o' := Pump(o);
            && o'.sink.IsBusy() && o'.sink.Depth() == o.sink.Depth()
            && |o'.sink.Held()| == Min(o.sink.Depth(), |o.sink.Held()| + |o.pending|)
            && |o'.sink.Held()| + |o'.pending| == |o.sink.Held()| + |o.pending|
  {
    BusyFlushKeepsCount(o.sink);
    BusyDrainCounts(o.(sink := Flush(o.sink)));
  }

  lemma {:induction false} BusyDrainCounts(o: OriginState)
    requires o.sink.IsBusy()
    ensures var o' := Drain(o);
            && o'.sink.IsBusy() && o'.sink.Depth() == o.sink.Depth()
            && |o'.sink.Held()| == Min(o.sink.Depth(), |o.sink.Held()| + |o.pending|)
            && |o'.sink.Held()| + |o'.pending| == |o.sink.Held()| + |o.pending|
    decreases |o.pending|
  {
    HeldWithinDepth(o.sink);
    if o.pending != [] {
      var c := o.pending[0];
      BusyPathFills(o.sink, c);
      DeliverMoves(o.sink, c);
      if Deliver(o.sink, c).1.Accepted? {
        BusyDrainCounts(o.(sink := Deliver(o.sink, c).0, pending := o.pending[1..], paused := false));
      }
    }
  }
}
