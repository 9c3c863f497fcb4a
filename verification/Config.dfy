/** Graph configurations: node shapes, effective write modes and the kind-dependent rules (core/src/config.rs). */
module Config {
  import opened Basics
  import opened Graph
  import opened CycleSearch
  import V = GraphValidation

  const MAP_RAW_ENDPOINT := "raw"

  datatype NodeConfig =
    | Serial(name: string, faces: Facing, policy: Arbitration)
    | Pty(name: string)
    | Log(name: string)
    | Codec(name: string, faces: Facing, channels: seq<string>, policy: Arbitration)
    | Leg(name: string, faces: Facing, channels: seq<string>, policy: Arbitration)
    | Map(name: string, policy: Arbitration)
  {
    /** The policy of the node's host-facing endpoints, or the default. */
    function Policy(): Arbitration {
      if Pty? || Log? then Exclusive else policy
    }

    function Shape(): NodeShape {
      match this
      case Serial(_, faces, policy) => NodeShape([EndpointSpec(DEFAULT_ENDPOINT, faces, policy)])
      case Codec(_, faces, channels, policy) =>
        NodeShape([Oriented(DEFAULT_ENDPOINT, faces, policy)] + Channels(channels, faces.Opposite(), policy))
      case Leg(_, faces, channels, policy) => NodeShape(Channels(channels, faces, policy))
      case Map(_, policy) =>
        NodeShape([Oriented(DEFAULT_ENDPOINT, Host, policy), Oriented(MAP_RAW_ENDPOINT, Target, Exclusive)])
      case _ => NodeShape([Oriented(DEFAULT_ENDPOINT, Target, Exclusive)])
    }
  }

  /** An endpoint that carries the node's policy only when it faces host. */
  function Oriented(name: string, facing: Facing, policy: Arbitration): EndpointSpec {
    EndpointSpec(name, facing, if facing.Host? then policy else Exclusive)
  }

  function Channels(names: seq<string>, facing: Facing, policy: Arbitration): seq<EndpointSpec> {
    seq(|names|, i requires 0 <= i < |names| => Oriented(names[i], facing, policy))
  }

  datatype GraphConfig = GraphConfig(nodes: seq<NodeConfig>, edges: seq<EdgeSpec>)

  // ---- Derived facts about an edge ----

  /** The first node declared under a name. */
  function NodeNamed(nodes: seq<NodeConfig>, name: string): (r: Option<NodeConfig>)
    ensures r.Some? ==> r.value in nodes && r.value.name == name
    ensures r.None? ==> forall n :: n in nodes ==> n.name != name
  {
    if nodes == [] then None
    else if nodes[0].name == name then Some(nodes[0])
    else NodeNamed(nodes[1..], name)
  }

  lemma {:induction false} NodeNamedIsFirst(nodes: seq<NodeConfig>, name: string, k: nat)
    requires k < |nodes| && nodes[k].name == name && forall j :: 0 <= j < k ==> nodes[j].name != name
    ensures NodeNamed(nodes, name) == Some(nodes[k])
  {
    if k > 0 {
      NodeNamedIsFirst(nodes[1..], name, k - 1);
    }
  }

  function EndpointFacing(c: GraphConfig, addr: EndpointAddr): Option<Facing> {
    match NodeNamed(c.nodes, addr.node)
    case None => None
    case Some(node) =>
      match FindEndpoint(node.Shape().endpoints, addr.endpoint)
      case None => None
      case Some(spec) => Some(spec.facing)
  }

  /** The ends of an edge whose endpoints face as given. */
  function FacingEnds(a: Option<Facing>, b: Option<Facing>, e: EdgeSpec): Option<Ends> {
    match (a, b)
    case (Some(Host), Some(Target)) => Some(Ends(e.a, e.b))
    case (Some(Target), Some(Host)) => Some(Ends(e.b, e.a))
    case _ => None
  }

  function EdgeEnds(c: GraphConfig, e: EdgeSpec): Option<Ends> {
    FacingEnds(EndpointFacing(c, e.a), EndpointFacing(c, e.b), e)
  }

  /** A codec's default endpoint. */
  predicate IsMultiplexed(c: GraphConfig, addr: EndpointAddr) {
    && addr.endpoint == DEFAULT_ENDPOINT
    && NodeNamed(c.nodes, addr.node).Some? && NodeNamed(c.nodes, addr.node).value.Codec?
  }

  predicate Arbitrates(c: GraphConfig, addr: EndpointAddr) {
    match NodeNamed(c.nodes, addr.node)
    case None => true
    case Some(node) => node.Policy() != FreeForAll
  }

  /** What the data plane registers: a log never writes, and a map's raw side is promoted from on-demand to held. */
  function EffectiveMode(c: GraphConfig, e: EdgeSpec): WriteMode {
    match EdgeEnds(c, e)
    case None => e.writeMode
    case Some(ends) =>
      match NodeNamed(c.nodes, ends.target.node)
      case Some(Log(_)) => Never
      case Some(Map(_, _)) =>
        if e.writeMode.OnDemand? && ends.target.endpoint == MAP_RAW_ENDPOINT then Held else e.writeMode
      case _ => e.writeMode
  }

  /** Shapes by name; a later node of the same name replaces an earlier one. */
  function Shapes(nodes: seq<NodeConfig>): map<string, NodeShape> {
    if nodes == [] then map[]
    else Shapes(nodes[..|nodes| - 1])[nodes[|nodes| - 1].name := nodes[|nodes| - 1].Shape()]
  }

  function ModelOf(c: GraphConfig): GraphModel {
    GraphModel(Shapes(c.nodes), c.edges)
  }

  // ---- What a clean configuration satisfies ----

  ghost predicate UniqueNames(nodes: seq<NodeConfig>) {
    forall i, j :: 0 <= i < j < |nodes| ==> nodes[i].name != nodes[j].name
  }

  predicate SoundNode(node: NodeConfig) {
    && (node.Serial? ==> node.faces.Host?)
    && (node.Leg? ==> node.channels != [] && "" !in node.channels)
  }

  /** The ends of edge `i` if it is an effectively held origin at a host endpoint that arbitrates. */
  function HeldOrigin(c: GraphConfig, i: nat): Option<Ends>
    requires i < |c.edges|
  {
    match EdgeEnds(c, c.edges[i])
    case None => None
    case Some(ends) =>
      if EffectiveMode(c, c.edges[i]) == Held && Arbitrates(c, ends.host) then Some(ends) else None
  }

  predicate HeldAt(c: GraphConfig, i: nat, host: EndpointAddr) {
    i < |c.edges| && At(HeldOrigin(c, i), host)
  }

  /** Edge `i` would park forever: an on-demand origin that feeds a codec's multiplexed side from a locked endpoint. */
  predicate Parks(c: GraphConfig, i: nat) {
    && i < |c.edges| && EdgeEnds(c, c.edges[i]).Some?
    && IsMultiplexed(c, EdgeEnds(c, c.edges[i]).value.target) && Arbitrates(c, EdgeEnds(c, c.edges[i]).value.host)
    && c.edges[i].writeMode.OnDemand?
  }

  ghost predicate OneHeld(c: GraphConfig) {
    forall i: nat, j: nat, host :: i < j && HeldAt(c, i, host) ==> !HeldAt(c, j, host)
  }

  ghost predicate Clean(c: GraphConfig) {
    && UniqueNames(c.nodes)
    && (forall i :: 0 <= i < |c.nodes| ==> SoundNode(c.nodes[i]))
    && (forall i: nat :: !Parks(c, i))
    && OneHeld(c)
    && V.WellFormed(ModelOf(c))
  }

  // ---- The violation each configuration-level error reports ----

  /** What node `i` raises. */
  ghost predicate NodeRaises(nodes: seq<NodeConfig>, i: nat, e: V.ValidationError)
    requires i < |nodes|
  {
    Raised(nodes[i], exists j :: 0 <= j < i && nodes[j].name == nodes[i].name, e)
  }

  predicate Raised(node: NodeConfig, again: bool, e: V.ValidationError) {
    match e
    case DuplicateNodeName(n) => n == node.name && again
    case SerialFacesTarget(n) => n == node.name && node.Serial? && node.faces.Target?
    case DuplicateEndpoint(n, ch) => n == node.name && node.Leg? && ch == "" && "" in node.channels
    case EmptyLeg(n) => n == node.name && node.Leg? && node.channels == []
    case _ => false
  }

  predicate At(origin: Option<Ends>, host: EndpointAddr) {
    origin.Some? && origin.value.host == host
  }

  /** The target end of the first held origin at `host`. */
  function FirstTarget(origins: seq<Option<Ends>>, host: EndpointAddr): Option<EndpointAddr> {
    if origins == [] then None
    else
      var earlier, last := FirstTarget(origins[..|origins| - 1], host), origins[|origins| - 1];
      if earlier.Some? then earlier else if At(last, host) then Some(last.value.target) else None
  }

  /** The held origins among the first `k` edges. */
  function HeldOrigins(c: GraphConfig, k: nat): (r: seq<Option<Ends>>)
    requires k <= |c.edges|
  {
    seq(k, i requires 0 <= i < k => HeldOrigin(c, i))
  }

  predicate EdgeRaises(c: GraphConfig, i: nat, e: V.ValidationError)
    requires i < |c.edges|
  {
    match e
    case MultiplexedEdgeNotHeld(k, origin, mux, mode) =>
      k == i && Parks(c, i) && EdgeEnds(c, c.edges[i]) == Some(Ends(origin, mux)) && mode == c.edges[i].writeMode
    case ConflictingHeldEdges(host, first, second) =>
      HeldOrigin(c, i) == Some(Ends(host, second)) && FirstTarget(HeldOrigins(c, i), host) == Some(first)
    case _ => false
  }

  ghost predicate SomeNodeRaises(nodes: seq<NodeConfig>, k: nat, e: V.ValidationError)
    requires k <= |nodes|
  {
    exists i :: 0 <= i < k && NodeRaises(nodes, i, e)
  }

  ghost predicate SomeEdgeRaises(c: GraphConfig, k: nat, e: V.ValidationError)
    requires k <= |c.edges|
  {
    exists i :: 0 <= i < k && EdgeRaises(c, i, e)
  }

  // ---- The checks ----

  method CheckNode(node: NodeConfig, again: bool) returns (errors: seq<V.ValidationError>)
    ensures forall e :: e in errors <==> Raised(node, again, e)
  {
    errors :=
      When(again, V.DuplicateNodeName(node.name)) +
      When(node.Serial? && node.faces.Target?, V.SerialFacesTarget(node.name));
    if node.Leg? {
      errors := errors +
        When("" in node.channels, V.DuplicateEndpoint(node.name, "")) +
        When(node.channels == [], V.EmptyLeg(node.name));
    }
  }

  method CheckNodes(nodes: seq<NodeConfig>) returns (errors: seq<V.ValidationError>)
    ensures forall e :: e in errors <==> SomeNodeRaises(nodes, |nodes|, e)
  {
    errors := [];
    var seen: set<string> := {};
    for k := 0 to |nodes|
      invariant forall n :: n in seen <==> exists j :: 0 <= j < k && nodes[j].name == n
      invariant forall e :: e in errors <==> SomeNodeRaises(nodes, k, e)
    {
      var found := CheckNode(nodes[k], nodes[k].name in seen);
      assert forall e :: e in found <==> NodeRaises(nodes, k, e);
      seen := seen + {nodes[k].name};
      errors := errors + found;
    }
  }

  function Lookup(held: map<EndpointAddr, EndpointAddr>, host: EndpointAddr): Option<EndpointAddr> {
    if host in held then Some(held[host]) else None
  }

  /** `held` maps each endpoint to the target end of its first held origin. */
  ghost predicate Table(origins: seq<Option<Ends>>, held: map<EndpointAddr, EndpointAddr>) {
    forall h :: Lookup(held, h) == FirstTarget(origins, h)
  }

  lemma TableStays(origins: seq<Option<Ends>>, held: map<EndpointAddr, EndpointAddr>, last: Option<Ends>)
    requires Table(origins, held) && (last.Some? ==> last.value.host in held)
    ensures Table(origins + [last], held)
  {
    assert (origins + [last])[..|origins|] == origins;
    forall h ensures Lookup(held, h) == FirstTarget(origins + [last], h) {
      assert Lookup(held, h) == FirstTarget(origins, h);
    }
  }

  lemma TableGrows(origins: seq<Option<Ends>>, held: map<EndpointAddr, EndpointAddr>, ends: Ends)
    requires Table(origins, held) && ends.host !in held
    ensures Table(origins + [Some(ends)], held[ends.host := ends.target])
  {
    assert (origins + [Some(ends)])[..|origins|] == origins;
    forall h ensures Lookup(held[ends.host := ends.target], h) == FirstTarget(origins + [Some(ends)], h) {
      assert Lookup(held, h) == FirstTarget(origins, h);
    }
  }

  /** The multiplexed-side rule on one edge. */
  method CheckMultiplexed(c: GraphConfig, i: nat) returns (errors: seq<V.ValidationError>)
    requires i < |c.edges|
    ensures forall e :: e in errors <==> e.MultiplexedEdgeNotHeld? && EdgeRaises(c, i, e)
  {
    errors := [];
    if Parks(c, i) {
      var ends := EdgeEnds(c, c.edges[i]).value;
      errors := [V.MultiplexedEdgeNotHeld(i, ends.host, ends.target, c.edges[i].writeMode)];
    }
  }

  lemma HeldOriginsOneMore(c: GraphConfig, i: nat)
    requires i < |c.edges|
    ensures HeldOrigins(c, i + 1) == HeldOrigins(c, i) + [HeldOrigin(c, i)]
  {
  }

  /** The one-held-origin rule on one edge; `held` is the table of held origins met so far. */
  method CheckHeld(c: GraphConfig, i: nat, held: map<EndpointAddr, EndpointAddr>)
    returns (errors: seq<V.ValidationError>, held': map<EndpointAddr, EndpointAddr>)
    requires i < |c.edges| && Table(HeldOrigins(c, i), held)
    ensures forall e :: e in errors <==> e.ConflictingHeldEdges? && EdgeRaises(c, i, e)
    ensures Table(HeldOrigins(c, i + 1), held')
  {
    errors, held' := [], held;
    var origin := HeldOrigin(c, i);
    HeldOriginsOneMore(c, i);
    match origin
    case None =>
      TableStays(HeldOrigins(c, i), held, origin);
    case Some(ends) =>
      assert Lookup(held, ends.host) == FirstTarget(HeldOrigins(c, i), ends.host);
      if ends.host in held {
        TableStays(HeldOrigins(c, i), held, origin);
        errors := [V.ConflictingHeldEdges(ends.host, held[ends.host], ends.target)];
      } else {
        TableGrows(HeldOrigins(c, i), held, ends);
        held' := held[ends.host := ends.target];
      }
  }

  lemma OneMoreEdge(c: GraphConfig, k: nat, e: V.ValidationError)
    requires k < |c.edges|
    ensures SomeEdgeRaises(c, k + 1, e) <==> SomeEdgeRaises(c, k, e) || EdgeRaises(c, k, e)
  {
  }

  method CheckEdges(c: GraphConfig) returns (errors: seq<V.ValidationError>)
    ensures forall e :: e in errors <==> SomeEdgeRaises(c, |c.edges|, e)
  {
    errors := [];
    var held: map<EndpointAddr, EndpointAddr> := map[];
    for k := 0 to |c.edges|
      invariant Table(HeldOrigins(c, k), held)
      invariant forall e :: e in errors <==> SomeEdgeRaises(c, k, e)
    {
      var mux := CheckMultiplexed(c, k);
      var conflicts;
      conflicts, held := CheckHeld(c, k, held);
      forall e ensures SomeEdgeRaises(c, k + 1, e) <==> e in errors + mux + conflicts {
        OneMoreEdge(c, k, e);
        assert EdgeRaises(c, k, e) ==> e.MultiplexedEdgeNotHeld? || e.ConflictingHeldEdges?;
      }
      errors := errors + mux + conflicts;
    }
  }

  lemma ChannelsOneMore(names: seq<string>, i: nat, facing: Facing, policy: Arbitration)
    requires i < |names|
    ensures Channels(names[..i + 1], facing, policy) ==
            Channels(names[..i], facing, policy) + [Oriented(names[i], facing, policy)]
  {
  }

  /** A node's endpoints, collected one channel at a time. */
  method BuildShape(node: NodeConfig) returns (shape: NodeShape)
    ensures shape == node.Shape()
  {
    if !node.Codec? && !node.Leg? {
      return node.Shape();
    }
    var facing := if node.Codec? then node.faces.Opposite() else node.faces;
    var endpoints := if node.Codec? then [Oriented(DEFAULT_ENDPOINT, node.faces, node.policy)] else [];
    ghost var before := endpoints;
    for i := 0 to |node.channels|
      invariant endpoints == before + Channels(node.channels[..i], facing, node.policy)
    {
      ChannelsOneMore(node.channels, i, facing, node.policy);
      Regroup(before, Channels(node.channels[..i], facing, node.policy), [Oriented(node.channels[i], facing, node.policy)]);
      endpoints := endpoints + [Oriented(node.channels[i], facing, node.policy)];
    }
    assert node.channels[..|node.channels|] == node.channels;
    shape := NodeShape(endpoints);
  }

  method BuildModel(c: GraphConfig) returns (g: GraphModel)
    ensures g == ModelOf(c)
  {
    g := GraphModel(map[], []);
    for k := 0 to |c.nodes|
      invariant g == GraphModel(Shapes(c.nodes[..k]), [])
    {
      assert c.nodes[..k + 1][..k] == c.nodes[..k];
      var shape := BuildShape(c.nodes[k]);
      g := g.(shapes := g.shapes[c.nodes[k].name := shape]);
    }
    assert c.nodes[..|c.nodes|] == c.nodes;
    g := g.(edges := c.edges);
  }

  /** Every violation is reported and nothing else is; silence is exactly cleanliness. */
  method Validate(c: GraphConfig) returns (errors: seq<V.ValidationError>)
    ensures forall e: V.ValidationError :: !e.Cycle? ==>
      (e in errors <==>
        SomeNodeRaises(c.nodes, |c.nodes|, e) || SomeEdgeRaises(c, |c.edges|, e) || V.Violation(ModelOf(c), e))
    ensures (exists e :: e in errors && e.Cycle?) <==> !Acyclic(V.Arcs(ModelOf(c), c.edges))
    ensures errors == [] <==> Clean(c)
  {
    var nodeErrors := CheckNodes(c.nodes);
    var edgeErrors := CheckEdges(c);
    var g := BuildModel(c);
    var modelErrors := V.Validate(g);
    errors := nodeErrors + edgeErrors + modelErrors;
    SilenceMeansClean(c, nodeErrors, edgeErrors);
    assert forall e :: e in nodeErrors || e in edgeErrors ==> !e.Cycle?;
  }

  lemma SilenceMeansClean(c: GraphConfig, nodeErrors: seq<V.ValidationError>, edgeErrors: seq<V.ValidationError>)
    requires forall e :: e in nodeErrors <==> SomeNodeRaises(c.nodes, |c.nodes|, e)
    requires forall e :: e in edgeErrors <==> SomeEdgeRaises(c, |c.edges|, e)
    ensures nodeErrors == [] <==>
      UniqueNames(c.nodes) && forall i :: 0 <= i < |c.nodes| ==> SoundNode(c.nodes[i])
    ensures edgeErrors == [] <==> OneHeld(c) && forall i: nat :: !Parks(c, i)
  {
    if nodeErrors == [] {
      forall e ensures !SomeNodeRaises(c.nodes, |c.nodes|, e) {
        assert e !in nodeErrors;
      }
      SilentNodesAreSound(c.nodes);
    } else {
      assert nodeErrors[0] in nodeErrors;
    }
    if edgeErrors == [] {
      forall e ensures !SomeEdgeRaises(c, |c.edges|, e) {
        assert e !in edgeErrors;
      }
      SilentEdgesAreSound(c);
    } else {
      assert edgeErrors[0] in edgeErrors;
      RaisedEdgeIsUnsound(c, edgeErrors[0]);
    }
  }

  lemma SilentNodesAreSound(nodes: seq<NodeConfig>)
    requires forall e :: !SomeNodeRaises(nodes, |nodes|, e)
    ensures UniqueNames(nodes) && forall i :: 0 <= i < |nodes| ==> SoundNode(nodes[i])
  {
    forall i, j | 0 <= i < j < |nodes| ensures nodes[i].name != nodes[j].name {
      assert !NodeRaises(nodes, j, V.DuplicateNodeName(nodes[j].name)) by {
        assert !SomeNodeRaises(nodes, |nodes|, V.DuplicateNodeName(nodes[j].name));
      }
    }
    forall i | 0 <= i < |nodes| ensures SoundNode(nodes[i]) {
      var n := nodes[i].name;
      assert !SomeNodeRaises(nodes, |nodes|, V.SerialFacesTarget(n)) && !SomeNodeRaises(nodes, |nodes|, V.EmptyLeg(n));
      assert !SomeNodeRaises(nodes, |nodes|, V.DuplicateEndpoint(n, ""));
      assert !NodeRaises(nodes, i, V.SerialFacesTarget(n)) && !NodeRaises(nodes, i, V.EmptyLeg(n));
      assert !NodeRaises(nodes, i, V.DuplicateEndpoint(n, ""));
    }
  }

  /** The table finds a held origin exactly when there is one. */
  lemma {:induction false} FirstTargetFinds(origins: seq<Option<Ends>>, host: EndpointAddr)
    ensures FirstTarget(origins, host).Some? <==> exists i :: 0 <= i < |origins| && At(origins[i], host)
  {
    if origins != [] {
      var init := origins[..|origins| - 1];
      FirstTargetFinds(init, host);
      assert forall i :: 0 <= i < |init| ==> init[i] == origins[i];
    }
  }

  /** The entry is that of the first held origin at the endpoint. */
  lemma {:induction false} FirstTargetIsFirst(origins: seq<Option<Ends>>, host: EndpointAddr, k: nat)
    requires k < |origins| && At(origins[k], host) && forall j :: 0 <= j < k ==> !At(origins[j], host)
    ensures FirstTarget(origins, host) == Some(origins[k].value.target)
  {
    var init := origins[..|origins| - 1];
    if k < |origins| - 1 {
      FirstTargetIsFirst(init, host, k);
    } else {
      FirstTargetFinds(init, host);
    }
  }

  /** A held origin behind another one at the same endpoint raises a conflict. */
  lemma ConflictIsRaised(c: GraphConfig, i: nat, j: nat, host: EndpointAddr)
    requires i < j && HeldAt(c, i, host) && HeldAt(c, j, host)
    ensures exists e :: EdgeRaises(c, j, e)
  {
    assert At(HeldOrigins(c, j)[i], host);
    FirstTargetFinds(HeldOrigins(c, j), host);
    assert EdgeRaises(c, j, V.ConflictingHeldEdges(
      host, FirstTarget(HeldOrigins(c, j), host).value, HeldOrigin(c, j).value.target));
  }

  lemma NoConflictMeansOneHeld(c: GraphConfig, i: nat, j: nat, host: EndpointAddr)
    requires forall e :: !SomeEdgeRaises(c, |c.edges|, e)
    requires i < j && HeldAt(c, i, host)
    ensures !HeldAt(c, j, host)
  {
    if HeldAt(c, j, host) {
      ConflictIsRaised(c, i, j, host);
      var e :| EdgeRaises(c, j, e);
      assert SomeEdgeRaises(c, |c.edges|, e);
    }
  }

  lemma NoErrorMeansNoParking(c: GraphConfig, i: nat)
    requires forall e :: !SomeEdgeRaises(c, |c.edges|, e)
    ensures !Parks(c, i)
  {
    if i < |c.edges| && EdgeEnds(c, c.edges[i]).Some? {
      var ends := EdgeEnds(c, c.edges[i]).value;
      var e := V.MultiplexedEdgeNotHeld(i, ends.host, ends.target, c.edges[i].writeMode);
      assert !SomeEdgeRaises(c, |c.edges|, e);
      assert !EdgeRaises(c, i, e);
    }
  }

  lemma SilentEdgesAreSound(c: GraphConfig)
    requires forall e :: !SomeEdgeRaises(c, |c.edges|, e)
    ensures OneHeld(c) && forall i: nat :: !Parks(c, i)
  {
    forall i: nat, j: nat, host | i < j && HeldAt(c, i, host) ensures !HeldAt(c, j, host) {
      NoConflictMeansOneHeld(c, i, j, host);
    }
    forall i: nat ensures !Parks(c, i) {
      NoErrorMeansNoParking(c, i);
    }
  }

  lemma RaisedEdgeIsUnsound(c: GraphConfig, e: V.ValidationError)
    requires SomeEdgeRaises(c, |c.edges|, e)
    ensures !OneHeld(c) || exists i: nat :: Parks(c, i)
  {
    var j :| 0 <= j < |c.edges| && EdgeRaises(c, j, e);
    if e.ConflictingHeldEdges? {
      FirstTargetFinds(HeldOrigins(c, j), e.host);
      var i :| 0 <= i < |HeldOrigins(c, j)| && At(HeldOrigins(c, j)[i], e.host);
      assert HeldAt(c, i, e.host) && HeldAt(c, j, e.host);
    } else {
      assert Parks(c, j);
    }
  }
}
