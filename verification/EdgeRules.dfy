/** What the two kind-dependent edge rules of a configuration mean for the locks its edges meet (core/src/config.rs). */
module EdgeRules {
  import opened Basics
  import opened Graph
  import opened Config
  import opened ConfigShapes
  import L = Lock

  /** The policy of the lock at a host-facing endpoint, from the shape of its node. */
  function LockPolicy(c: GraphConfig, host: EndpointAddr): Arbitration {
    match NodeNamed(c.nodes, host.node)
    case None => Exclusive
    case Some(node) =>
      match Exposed(node, host.endpoint)
      case None => Exclusive
      case Some(ep) => ep.arbitration
  }

  /** The rules consult the node's policy; it is the policy of the endpoint's own lock. */
  lemma ArbitratesIff(c: GraphConfig, host: EndpointAddr)
    requires EndpointFacing(c, host) == Some(Host)
    ensures Arbitrates(c, host) <==> LockPolicy(c, host) == Exclusive
  {
    var node := NodeNamed(c.nodes, host.node).value;
    match node
    case Codec(_, _, _, _) => CodecFaces(node, host.endpoint);
    case Leg(_, _, _, _) => LegFaces(node, host.endpoint);
    case Map(_, _) => MapFaces(node, host.endpoint);
    case _ => SingleFaces(node, host.endpoint);
  }

  /** The node is a codec that takes its multiplexed side's bytes from a host-facing endpoint. */
  predicate Demultiplexer(c: GraphConfig, name: string) {
    var node := NodeNamed(c.nodes, name);
    node.Some? && node.value.Codec? && node.value.faces == Target
  }

  /** Where an edge ends in a codec, it ends in the multiplexed side exactly if the codec demultiplexes. */
  lemma MultiplexedIff(c: GraphConfig, target: EndpointAddr)
    requires EndpointFacing(c, target) == Some(Target)
    ensures IsMultiplexed(c, target) <==> Demultiplexer(c, target.node)
  {
    var node := NodeNamed(c.nodes, target.node).value;
    if node.Codec? {
      CodecFaces(node, target.endpoint);
    }
  }

  /** The lock of a host-facing endpoint with one origin registered. */
  function Alone(c: GraphConfig, host: EndpointAddr, mode: WriteMode): L.LockState {
    L.Register(L.NewLock(LockPolicy(c, host)), 0, "", mode)
  }

  /** A pump that reclaims before it writes stays shut out, although it is a writer and nobody else is there. */
  predicate ShutOut(s: L.LockState) {
    s.Writer(0) && !L.MayWrite(L.ReclaimHeld(s, 0), 0)
  }

  lemma ShutOutIff(c: GraphConfig, host: EndpointAddr, mode: WriteMode)
    requires EndpointFacing(c, host) == Some(Host)
    ensures ShutOut(Alone(c, host, mode)) <==> mode == OnDemand && Arbitrates(c, host)
  {
    ArbitratesIff(c, host);
  }

  /**
   * An edge is refused as parking exactly when it feeds a demultiplexer and the codec's pump could never write
   * through the endpoint's lock, not even with the lock to itself.
   */
  lemma ParksIff(c: GraphConfig, i: nat)
    requires i < |c.edges|
    ensures var e := c.edges[i];
            Parks(c, i) <==>
              && EdgeEnds(c, e).Some?
              && Demultiplexer(c, EdgeEnds(c, e).value.target.node)
              && ShutOut(Alone(c, EdgeEnds(c, e).value.host, e.writeMode))
  {
    var e := c.edges[i];
    if EdgeEnds(c, e).Some? {
      var ends := EdgeEnds(c, e).value;
      EdgeEndsIff(c, e, ends.host, ends.target);
      MultiplexedIff(c, ends.target);
      ShutOutIff(c, ends.host, e.writeMode);
    }
  }

  /** An edge is a held origin of its endpoint exactly when registering it alone makes it the holder. */
  lemma HeldAtIff(c: GraphConfig, i: nat, host: EndpointAddr)
    requires i < |c.edges|
    ensures HeldAt(c, i, host) <==>
      && EdgeEnds(c, c.edges[i]).Some? && EdgeEnds(c, c.edges[i]).value.host == host
      && Alone(c, host, EffectiveMode(c, c.edges[i])).holder == Some(0)
  {
    if EdgeEnds(c, c.edges[i]).Some? {
      var ends := EdgeEnds(c, c.edges[i]).value;
      EdgeEndsIff(c, c.edges[i], ends.host, ends.target);
      ArbitratesIff(c, ends.host);
    }
  }

  /** Of two edges held at one endpoint, the one registered later is left a writer that may not write, nor reclaim. */
  lemma ConflictShutsOut(c: GraphConfig, i: nat, j: nat, host: EndpointAddr)
    requires i < |c.edges| && j < |c.edges| && HeldAt(c, i, host) && HeldAt(c, j, host)
    ensures EndpointFacing(c, host) == Some(Host)
    ensures var s := L.Register(Alone(c, host, EffectiveMode(c, c.edges[i])), 1, "", EffectiveMode(c, c.edges[j]));
            s.Writer(1) && !L.MayWrite(s, 1) && L.ReclaimHeld(s, 1) == s
  {
    HeldAtIff(c, i, host);
    HeldAtIff(c, j, host);
    EdgeEndsIff(c, c.edges[i], host, EdgeEnds(c, c.edges[i]).value.target);
    ArbitratesIff(c, host);
  }
}
