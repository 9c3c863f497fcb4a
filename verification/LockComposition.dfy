/** What a clean configuration guarantees about its write locks (core/src/config.rs with core/src/lock.rs). */
module LockComposition {
  import opened Basics
  import opened Graph
  import opened Config
  import V = GraphValidation
  import L = Lock

  // ---- The configuration and the model agree ----

  lemma {:induction false} ShapesOfUnique(nodes: seq<NodeConfig>, i: nat)
    requires UniqueNames(nodes) && i < |nodes|
    ensures nodes[i].name in Shapes(nodes) && Shapes(nodes)[nodes[i].name] == nodes[i].Shape()
  {
    if i < |nodes| - 1 {
      ShapesOfUnique(nodes[..|nodes| - 1], i);
    }
  }

  lemma {:induction false} ShapesAreNodes(nodes: seq<NodeConfig>, name: string)
    requires name in Shapes(nodes)
    ensures exists n :: n in nodes && n.name == name
  {
    if nodes[|nodes| - 1].name != name {
      ShapesAreNodes(nodes[..|nodes| - 1], name);
    }
  }

  /** With unique names, first-match lookup and last-wins insertion find the same node. */
  lemma LookupsAgree(c: GraphConfig, addr: EndpointAddr)
    requires UniqueNames(c.nodes)
    ensures match Resolve(ModelOf(c), addr)
            case Ok(spec) => EndpointFacing(c, addr) == Some(spec.facing)
            case Err(_) => EndpointFacing(c, addr) == None
  {
    match NodeNamed(c.nodes, addr.node)
    case None =>
      if addr.node in Shapes(c.nodes) {
        ShapesAreNodes(c.nodes, addr.node);
      }
    case Some(node) =>
      var i :| 0 <= i < |c.nodes| && c.nodes[i] == node;
      ShapesOfUnique(c.nodes, i);
  }

  lemma EndsAgree(c: GraphConfig, e: EdgeSpec)
    requires UniqueNames(c.nodes)
    ensures EdgeEnds(c, e) == Orient(ModelOf(c), e)
  {
    LookupsAgree(c, e.a);
    LookupsAgree(c, e.b);
  }

  /** The lock of a host-facing endpoint has the policy the edge rules consult. */
  lemma HostEndpointPolicy(c: GraphConfig, addr: EndpointAddr)
    requires UniqueNames(c.nodes)
    requires Resolve(ModelOf(c), addr).Ok? && Resolve(ModelOf(c), addr).value.facing.Host?
    ensures Arbitrates(c, addr) <==> Resolve(ModelOf(c), addr).value.arbitration == Exclusive
  {
    ShapesAreNodes(c.nodes, addr.node);
    var node := NodeNamed(c.nodes, addr.node).value;
    var i :| 0 <= i < |c.nodes| && c.nodes[i] == node;
    ShapesOfUnique(c.nodes, i);
    var spec := Resolve(ModelOf(c), addr).value;
    assert spec in node.Shape().endpoints;
  }

  /** Edge `i` writes into host endpoint `host`. */
  predicate Attached(c: GraphConfig, i: nat, host: EndpointAddr) {
    i < |c.edges| && EdgeEnds(c, c.edges[i]).Some? && EdgeEnds(c, c.edges[i]).value.host == host
  }

  /**
   * In a clean configuration every edge has a host and a target end; two edges held at one arbitrated
   * endpoint are one edge; and an edge into a multiplexed side there is held or never, effectively too.
   */
  lemma CleanEdges(c: GraphConfig, i: nat)
    requires Clean(c) && i < |c.edges|
    ensures EdgeEnds(c, c.edges[i]).Some?
    ensures var ends := EdgeEnds(c, c.edges[i]).value;
            && Attached(c, i, ends.host)
            && (Arbitrates(c, ends.host) && EffectiveMode(c, c.edges[i]) == Held ==>
                  forall j: nat :: j != i && Attached(c, j, ends.host) ==> EffectiveMode(c, c.edges[j]) != Held)
            && (Arbitrates(c, ends.host) && IsMultiplexed(c, ends.target) ==>
                  EffectiveMode(c, c.edges[i]) == c.edges[i].writeMode && !c.edges[i].writeMode.OnDemand?)
  {
    EdgeIsOriented(c, i);
    MultiplexedIsHeldOrNever(c, i);
    var ends := EdgeEnds(c, c.edges[i]).value;
    if Arbitrates(c, ends.host) && EffectiveMode(c, c.edges[i]) == Held {
      forall j: nat | j != i && Attached(c, j, ends.host) ensures EffectiveMode(c, c.edges[j]) != Held {
        OneHeldBothWays(c, i, j, ends.host);
      }
    }
  }

  lemma EdgeIsOriented(c: GraphConfig, i: nat)
    requires UniqueNames(c.nodes) && V.EveryEdgeOriented(ModelOf(c)) && i < |c.edges|
    ensures EdgeEnds(c, c.edges[i]).Some?
  {
    EndsAgree(c, c.edges[i]);
    OrientIffJoins(ModelOf(c), c.edges[i], c.edges[i].a, c.edges[i].b);
    assert ModelOf(c).edges[i] == c.edges[i];
  }

  lemma MultiplexedIsHeldOrNever(c: GraphConfig, i: nat)
    requires i < |c.edges| && !Parks(c, i) && EdgeEnds(c, c.edges[i]).Some?
    ensures var ends := EdgeEnds(c, c.edges[i]).value;
            Arbitrates(c, ends.host) && IsMultiplexed(c, ends.target) ==>
              EffectiveMode(c, c.edges[i]) == c.edges[i].writeMode && !c.edges[i].writeMode.OnDemand?
  {
  }

  lemma OneHeldBothWays(c: GraphConfig, i: nat, j: nat, host: EndpointAddr)
    requires OneHeld(c) && i != j && HeldAt(c, i, host) && Attached(c, j, host)
    ensures EffectiveMode(c, c.edges[j]) != Held
  {
    assert !HeldAt(c, j, host);
  }

  // ---- Registration ----

  /** One call of `register`. */
  datatype Entry = Entry(id: L.OriginId, name: string, mode: WriteMode)

  function RegisterAll(s: L.LockState, entries: seq<Entry>): L.LockState {
    if entries == [] then s
    else
      var e := entries[|entries| - 1];
      L.Register(RegisterAll(s, entries[..|entries| - 1]), e.id, e.name, e.mode)
  }

  ghost predicate DistinctEntries(entries: seq<Entry>) {
    forall i, j :: 0 <= i < j < |entries| ==> entries[i].id != entries[j].id
  }

  ghost predicate SomeHeld(entries: seq<Entry>) {
    exists i :: 0 <= i < |entries| && entries[i].mode == Held
  }

  /** What registering leaves: every origin with its mode, and a lock held exactly when some origin is. */
  ghost predicate Composed(s: L.LockState, entries: seq<Entry>) {
    && (forall i :: 0 <= i < |entries| ==> entries[i].id in s.origins)
    && (forall i :: 0 <= i < |entries| ==> s.origins[entries[i].id] == L.Origin(entries[i].name, entries[i].mode, 0))
    && (s.holder.Some? <==> s.arbitration == Exclusive && SomeHeld(entries))
    && (s.holder.Some? ==>
          exists i :: 0 <= i < |entries| && entries[i].mode == Held && s.holder == Some(entries[i].id))
    && s.waiters == []
  }

  lemma {:induction false} RegistrationComposes(arbitration: Arbitration, entries: seq<Entry>)
    requires DistinctEntries(entries)
    ensures Composed(RegisterAll(L.NewLock(arbitration), entries), entries)
    ensures RegisterAll(L.NewLock(arbitration), entries).arbitration == arbitration
  {
    if entries != [] {
      var init, last := entries[..|entries| - 1], entries[|entries| - 1];
      RegistrationComposes(arbitration, init);
      assert entries == init + [last];
      RegisterStep(RegisterAll(L.NewLock(arbitration), init), init, last);
    }
  }

  lemma RegisterStep(s: L.LockState, init: seq<Entry>, last: Entry)
    requires Composed(s, init) && DistinctEntries(init + [last])
    ensures Composed(L.Register(s, last.id, last.name, last.mode), init + [last])
  {
    var t, entries := L.Register(s, last.id, last.name, last.mode), init + [last];
    assert entries[|init|] == last;
    assert forall i :: 0 <= i < |init| ==> entries[i] == init[i] && entries[i].id != last.id;
    if s.holder.Some? {
      var i :| 0 <= i < |init| && init[i].mode == Held && s.holder == Some(init[i].id);
      assert entries[i].mode == Held && t.holder == Some(entries[i].id);
    }
    if SomeHeld(entries) && last.mode != Held {
      var i :| 0 <= i < |entries| && entries[i].mode == Held;
      assert init[i].mode == Held;
    }
  }

  /** With at most one held entry, that entry's origin is the holder and alone may write. */
  lemma HeldEntryHolds(entries: seq<Entry>, k: nat)
    requires DistinctEntries(entries) && k < |entries|
    requires forall i, j :: 0 <= i < j < |entries| && entries[i].mode == Held ==> entries[j].mode != Held
    ensures var s := RegisterAll(L.NewLock(Exclusive), entries);
            && (s.holder == Some(entries[k].id) <==> entries[k].mode == Held)
            && (L.MayWrite(s, entries[k].id) <==> entries[k].mode == Held)
  {
    var s := RegisterAll(L.NewLock(Exclusive), entries);
    RegistrationComposes(Exclusive, entries);
    if s.holder.Some? {
      var h :| 0 <= h < |entries| && entries[h].mode == Held && s.holder == Some(entries[h].id);
      assert h != k ==> entries[h].id != entries[k].id;
    }
  }

  // ---- The registrations of one endpoint ----

  /** `order` lists the edges that write into `host`, each once, in some order. */
  ghost predicate Lists(c: GraphConfig, host: EndpointAddr, order: seq<nat>) {
    && (forall k: nat :: k in order <==> Attached(c, k, host))
    && (forall i, j :: 0 <= i < j < |order| ==> order[i] != order[j])
  }

  /** `entries` registers those edges: one origin each, labelled by its target end, with its effective mode. */
  ghost predicate Wires(c: GraphConfig, order: seq<nat>, entries: seq<Entry>) {
    && |entries| == |order| && DistinctEntries(entries)
    && (forall i :: 0 <= i < |order| ==> order[i] < |c.edges| && EdgeEnds(c, c.edges[order[i]]).Some?)
    && (forall i :: 0 <= i < |order| ==> entries[i].mode == EffectiveMode(c, c.edges[order[i]]))
    && (forall i :: 0 <= i < |order| ==> entries[i].name == EdgeEnds(c, c.edges[order[i]]).value.target.Display())
  }

  lemma AtMostOneHeldEntry(c: GraphConfig, host: EndpointAddr, order: seq<nat>, entries: seq<Entry>, i: nat, j: nat)
    requires OneHeld(c) && Arbitrates(c, host) && Lists(c, host, order) && Wires(c, order, entries)
    requires i < j < |order| && entries[i].mode == Held
    ensures entries[j].mode != Held
  {
    assert order[i] in order && order[j] in order;
    OneHeldBothWays(c, order[i], order[j], host);
  }

  /** The lock of a declared host-facing endpoint, before anything is registered. */
  function FreshLock(c: GraphConfig, host: EndpointAddr): L.LockState
    requires Resolve(ModelOf(c), host).Ok?
  {
    L.NewLock(Resolve(ModelOf(c), host).value.arbitration)
  }

  /** Who may write after the registrations, and who holds: the held origin alone, or without a lock every writer. */
  ghost predicate Decided(s: L.LockState, entries: seq<Entry>, locked: bool) {
    && (forall k :: 0 <= k < |entries| ==> (s.holder == Some(entries[k].id) <==> locked && entries[k].mode == Held))
    && (forall k :: 0 <= k < |entries| ==>
          (L.MayWrite(s, entries[k].id) <==> if locked then entries[k].mode == Held else entries[k].mode != Never))
    && (s.holder.Some? <==> locked && SomeHeld(entries))
  }

  lemma FreeEntriesWrite(entries: seq<Entry>)
    requires DistinctEntries(entries)
    ensures Decided(RegisterAll(L.NewLock(FreeForAll), entries), entries, false)
  {
    RegistrationComposes(FreeForAll, entries);
  }

  lemma LockedEntriesWait(entries: seq<Entry>)
    requires DistinctEntries(entries)
    requires forall i, j :: 0 <= i < j < |entries| && entries[i].mode == Held ==> entries[j].mode != Held
    ensures Decided(RegisterAll(L.NewLock(Exclusive), entries), entries, true)
  {
    var s := RegisterAll(L.NewLock(Exclusive), entries);
    forall k | 0 <= k < |entries|
      ensures s.holder == Some(entries[k].id) <==> entries[k].mode == Held
      ensures L.MayWrite(s, entries[k].id) <==> entries[k].mode == Held
    {
      HeldEntryHolds(entries, k);
    }
    RegistrationComposes(Exclusive, entries);
  }

  /**
   * Registering the edges of a host endpoint of a clean configuration, in any order, on the lock its own
   * shape gives it: if it is arbitrated the held origin, if there is one, holds it and alone may write,
   * and otherwise it is free; if it is not, nobody holds it and every writer may write.
   */
  lemma HeldOriginHolds(c: GraphConfig, host: EndpointAddr, order: seq<nat>, entries: seq<Entry>)
    requires Clean(c) && Lists(c, host, order) && Wires(c, order, entries)
    requires Resolve(ModelOf(c), host).Ok? && Resolve(ModelOf(c), host).value.facing.Host?
    ensures Decided(RegisterAll(FreshLock(c, host), entries), entries, Arbitrates(c, host))
  {
    HostEndpointPolicy(c, host);
    if Arbitrates(c, host) {
      forall i, j | 0 <= i < j < |entries| && entries[i].mode == Held ensures entries[j].mode != Held {
        AtMostOneHeldEntry(c, host, order, entries, i, j);
      }
      LockedEntriesWait(entries);
    } else {
      FreeEntriesWrite(entries);
    }
  }

  /** A log never writes, whatever its edge declares and whatever the endpoint's policy. */
  lemma LogNeverWrites(c: GraphConfig, arbitration: Arbitration, order: seq<nat>, entries: seq<Entry>, k: nat)
    requires Wires(c, order, entries) && k < |order|
    requires var target := EdgeEnds(c, c.edges[order[k]]).value.target.node;
             NodeNamed(c.nodes, target).Some? && NodeNamed(c.nodes, target).value.Log?
    ensures !L.MayWrite(RegisterAll(L.NewLock(arbitration), entries), entries[k].id)
  {
    RegistrationComposes(arbitration, entries);
    assert entries[k].mode == Never;
  }

  /** A map whose edge is not declared `never` may write to the endpoint it is attached to, and is the holder of its lock. */
  lemma MapOwnsItsWrites(c: GraphConfig, host: EndpointAddr, order: seq<nat>, entries: seq<Entry>, k: nat)
    requires Clean(c) && Lists(c, host, order) && Wires(c, order, entries) && k < |order|
    requires Resolve(ModelOf(c), host).Ok? && Resolve(ModelOf(c), host).value.facing.Host?
    requires var target := EdgeEnds(c, c.edges[order[k]]).value.target;
             && NodeNamed(c.nodes, target.node).Some? && NodeNamed(c.nodes, target.node).value.Map?
             && target.endpoint == MAP_RAW_ENDPOINT
    requires c.edges[order[k]].writeMode != Never
    ensures var s := RegisterAll(FreshLock(c, host), entries);
            L.MayWrite(s, entries[k].id) && (Arbitrates(c, host) ==> s.holder == Some(entries[k].id))
  {
    MapModeIsHeld(c, c.edges[order[k]]);
    assert entries[k].mode == Held;
    HeldOriginHolds(c, host, order, entries);
  }

  lemma MapModeIsHeld(c: GraphConfig, e: EdgeSpec)
    requires EdgeEnds(c, e).Some? && e.writeMode != Never
    requires var target := EdgeEnds(c, e).value.target;
             && NodeNamed(c.nodes, target.node).Some? && NodeNamed(c.nodes, target.node).value.Map?
             && target.endpoint == MAP_RAW_ENDPOINT
    ensures EffectiveMode(c, e) == Held
  {
  }
}
