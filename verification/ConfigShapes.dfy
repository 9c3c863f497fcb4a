/** What the shape of each node kind says of its endpoints, and what that makes of its edges (core/src/config.rs). */
module ConfigShapes {
  import opened Basics
  import opened Graph
  import opened Config

  /** The endpoint a node exposes under a name. */
  function Exposed(node: NodeConfig, name: string): Option<EndpointSpec> {
    FindEndpoint(node.Shape().endpoints, name)
  }

  /** The endpoint faces this way, and carries `policy` if that is towards the host. */
  predicate Turned(ep: Option<EndpointSpec>, facing: Facing, policy: Arbitration) {
    ep.Some? && ep.value.facing == facing && (facing == Host ==> ep.value.arbitration == policy)
  }

  /** A declared channel list exposes exactly its names, all turned the same way. */
  lemma {:induction false} ChannelsExposed(names: seq<string>, facing: Facing, policy: Arbitration, name: string)
    ensures var ep := FindEndpoint(Channels(names, facing, policy), name);
            (ep.Some? <==> name in names) && (ep.Some? ==> Turned(ep, facing, policy))
  {
    if names != [] {
      ChannelsExposed(names[1..], facing, policy, name);
      assert Channels(names, facing, policy)[1..] == Channels(names[1..], facing, policy);
      FirstApart(names);
    }
  }

  lemma FirstOrRest(first: EndpointSpec, rest: seq<EndpointSpec>, name: string)
    ensures FindEndpoint([first] + rest, name) == if first.name == name then Some(first) else FindEndpoint(rest, name)
  {
    assert ([first] + rest)[1..] == rest;
  }

  /** A codec's multiplexed side is its default endpoint and faces as declared; every channel faces the other way. */
  lemma CodecFaces(node: NodeConfig, name: string)
    requires node.Codec?
    ensures Exposed(node, name).Some? <==> name == DEFAULT_ENDPOINT || name in node.channels
    ensures Turned(Exposed(node, DEFAULT_ENDPOINT), node.faces, node.policy)
    ensures name in node.channels && name != DEFAULT_ENDPOINT ==>
      exists facing :: facing != node.faces && Turned(Exposed(node, name), facing, node.policy)
  {
    var first, rest := Oriented(DEFAULT_ENDPOINT, node.faces, node.policy), Channels(node.channels, node.faces.Opposite(), node.policy);
    FirstOrRest(first, rest, name);
    FirstOrRest(first, rest, DEFAULT_ENDPOINT);
    ChannelsExposed(node.channels, node.faces.Opposite(), node.policy, name);
    assert node.faces.Opposite() != node.faces;
  }

  /** A leg exposes its channels and nothing else, all facing as declared; a sound one has no default endpoint. */
  lemma LegFaces(node: NodeConfig, name: string)
    requires node.Leg?
    ensures Exposed(node, name).Some? <==> name in node.channels
    ensures name in node.channels ==> Turned(Exposed(node, name), node.faces, node.policy)
    ensures SoundNode(node) ==> Exposed(node, DEFAULT_ENDPOINT).None?
  {
    ChannelsExposed(node.channels, node.faces, node.policy, name);
    ChannelsExposed(node.channels, node.faces, node.policy, DEFAULT_ENDPOINT);
  }

  /** A map's mapped side is its default endpoint and faces host; its raw side faces target. */
  lemma MapFaces(node: NodeConfig, name: string)
    requires node.Map?
    ensures Exposed(node, name).Some? <==> name in {DEFAULT_ENDPOINT, "raw"}
    ensures Turned(Exposed(node, DEFAULT_ENDPOINT), Host, node.policy)
    ensures Exposed(node, "raw").Some? && Exposed(node, "raw").value.facing == Target
  {
    var mapped, raw := Oriented(DEFAULT_ENDPOINT, Host, node.policy), Oriented(MAP_RAW_ENDPOINT, Target, Exclusive);
    assert node.Shape().endpoints == [mapped] + [raw] && [raw] == [raw] + [];
    forall n ensures Exposed(node, n) == if n == "" then Some(mapped) else if n == "raw" then Some(raw) else None {
      FirstOrRest(mapped, [raw], n);
      FirstOrRest(raw, [], n);
    }
  }

  /** A serial has one endpoint and it faces as declared; ptys and logs have one and it faces target. */
  lemma SingleFaces(node: NodeConfig, name: string)
    requires node.Serial? || node.Pty? || node.Log?
    ensures Exposed(node, name).Some? <==> name == DEFAULT_ENDPOINT
    ensures node.Serial? ==> Turned(Exposed(node, DEFAULT_ENDPOINT), node.faces, node.policy)
    ensures !node.Serial? ==> Exposed(node, DEFAULT_ENDPOINT).value.facing == Target
  {
    assert |node.Shape().endpoints| == 1 && node.Shape().endpoints[1..] == [];
  }

  // ---- Edges ----

  lemma FacingsDecide(a: Option<Facing>, b: Option<Facing>, e: EdgeSpec, host: EndpointAddr, target: EndpointAddr)
    requires e.a == e.b ==> a == b
    ensures FacingEnds(a, b, e) == Some(Ends(host, target)) <==>
      || (host == e.a && target == e.b && a == Some(Host) && b == Some(Target))
      || (host == e.b && target == e.a && b == Some(Host) && a == Some(Target))
  {
  }

  /** An edge's ends in a configuration are decided by the facings of the two endpoints alone. */
  lemma EdgeEndsIff(c: GraphConfig, e: EdgeSpec, host: EndpointAddr, target: EndpointAddr)
    ensures EdgeEnds(c, e) == Some(Ends(host, target)) <==>
      && ((host == e.a && target == e.b) || (host == e.b && target == e.a))
      && EndpointFacing(c, host) == Some(Host) && EndpointFacing(c, target) == Some(Target)
  {
    FacingsDecide(EndpointFacing(c, e.a), EndpointFacing(c, e.b), e, host, target);
  }

  /** The facing of an address is that of the endpoint its node exposes. */
  lemma FacingIsExposed(c: GraphConfig, k: nat, name: string)
    requires UniqueNames(c.nodes) && k < |c.nodes|
    ensures EndpointFacing(c, EndpointAddr(c.nodes[k].name, name)) ==
            match Exposed(c.nodes[k], name) { case Some(ep) => Some(ep.facing) case None => None }
  {
    NodeNamedIsFirst(c.nodes, c.nodes[k].name, k);
  }

  /** The edge meets this address with its host-facing or with its target-facing end. */
  predicate MeetsAt(c: GraphConfig, e: EdgeSpec, addr: EndpointAddr) {
    EdgeEnds(c, e).Some? && (EdgeEnds(c, e).value.host == addr || EdgeEnds(c, e).value.target == addr)
  }

  /** An edge at a codec's multiplexed side and an edge at one of its channels meet it from opposite ends. */
  lemma CodecTurnsEdges(c: GraphConfig, k: nat, mux: EdgeSpec, channel: EdgeSpec, name: string)
    requires UniqueNames(c.nodes) && k < |c.nodes| && c.nodes[k].Codec?
    requires name in c.nodes[k].channels && name != DEFAULT_ENDPOINT
    requires MeetsAt(c, mux, EndpointAddr(c.nodes[k].name, DEFAULT_ENDPOINT))
    requires MeetsAt(c, channel, EndpointAddr(c.nodes[k].name, name))
    ensures EdgeEnds(c, mux).value.host == EndpointAddr(c.nodes[k].name, DEFAULT_ENDPOINT) <==>
            EdgeEnds(c, channel).value.target == EndpointAddr(c.nodes[k].name, name)
    ensures EdgeEnds(c, mux).value.host == EndpointAddr(c.nodes[k].name, DEFAULT_ENDPOINT) <==> c.nodes[k].faces == Host
  {
    CodecFaces(c.nodes[k], name);
    FacingIsExposed(c, k, DEFAULT_ENDPOINT);
    FacingIsExposed(c, k, name);
    var m, ch := EdgeEnds(c, mux).value, EdgeEnds(c, channel).value;
    EdgeEndsIff(c, mux, m.host, m.target);
    EdgeEndsIff(c, channel, ch.host, ch.target);
  }

  /** The edge between a demultiplexer's channel and a pty is oriented from the channel to the pty. */
  lemma DemultiplexerFeedsPty(c: GraphConfig, k: nat, p: nat, name: string, e: EdgeSpec)
    requires UniqueNames(c.nodes) && k < |c.nodes| && p < |c.nodes| && c.nodes[p].Pty?
    requires c.nodes[k].Codec? && c.nodes[k].faces == Target && name in c.nodes[k].channels && name != DEFAULT_ENDPOINT
    requires var ch, pty := EndpointAddr(c.nodes[k].name, name), EndpointAddr(c.nodes[p].name, DEFAULT_ENDPOINT);
             (e.a == ch && e.b == pty) || (e.a == pty && e.b == ch)
    ensures EdgeEnds(c, e) ==
            Some(Ends(EndpointAddr(c.nodes[k].name, name), EndpointAddr(c.nodes[p].name, DEFAULT_ENDPOINT)))
  {
    CodecFaces(c.nodes[k], name);
    SingleFaces(c.nodes[p], DEFAULT_ENDPOINT);
    FacingIsExposed(c, k, name);
    FacingIsExposed(c, p, DEFAULT_ENDPOINT);
    EdgeEndsIff(c, e, EndpointAddr(c.nodes[k].name, name), EndpointAddr(c.nodes[p].name, DEFAULT_ENDPOINT));
  }

  // ---- Effective write modes ----

  /** The address is of a log node. */
  predicate AtLog(c: GraphConfig, addr: EndpointAddr) {
    NodeNamed(c.nodes, addr.node).Some? && NodeNamed(c.nodes, addr.node).value.Log?
  }

  /** The address is of the raw side of a map node. */
  predicate AtRawSide(c: GraphConfig, addr: EndpointAddr) {
    addr.endpoint == "raw" && NodeNamed(c.nodes, addr.node).Some? && NodeNamed(c.nodes, addr.node).value.Map?
  }

  /** Exactly which edges write never, held and on demand, by what they declare and where they lead. */
  lemma EffectiveModeIff(c: GraphConfig, e: EdgeSpec)
    requires EdgeEnds(c, e).Some?
    ensures var target := EdgeEnds(c, e).value.target;
            && (EffectiveMode(c, e) == Never <==> e.writeMode == Never || AtLog(c, target))
            && (EffectiveMode(c, e) == Held <==>
                  !AtLog(c, target) && (e.writeMode == Held || (e.writeMode == OnDemand && AtRawSide(c, target))))
  {
  }
}
