/** Structural validation of a graph model against its naming rules and three graph rules (core/src/graph.rs). */
module GraphValidation {
  import opened Basics
  import opened Text
  import opened Graph
  import opened CycleSearch

  datatype ValidationError =
    | InvalidName(node: string, endpoint: Option<string>)
    | EmptyName(node: string)
    | BlankName(node: string, endpoint: Option<string>)
    | NameTooLong(node: string, endpoint: Option<string>, len: nat, max: nat)
    | DuplicateEndpoint(node: string, channel: string)
    | UnknownNode(edge: nat, node: string)
    | UnknownEndpoint(edge: nat, addr: EndpointAddr)
    | SameFacingEdge(edge: nat, facing: Facing)
    | TargetEndpointOversubscribed(addr: EndpointAddr, count: nat)
    | Cycle(nodes: seq<string>)
    // Raised on the configuration rather than on the model.
    | DuplicateNodeName(node: string)
    | SerialFacesTarget(node: string)
    | EmptyLeg(node: string)
    | MultiplexedEdgeNotHeld(edge: nat, origin: EndpointAddr, mux: EndpointAddr, writeMode: WriteMode)
    | ConflictingHeldEdges(host: EndpointAddr, first: EndpointAddr, second: EndpointAddr)

  // ---- What the rules demand, stated without reference to the checks ----

  ghost predicate LegalName(name: string) {
    '/' !in name && (name == "" || !AllWhitespace(name)) && ByteLength(name) <= MAX_NAME_LEN
  }

  /** Names are legal, node names are non-empty, and a node's endpoint names are pairwise different. */
  ghost predicate LegalNames(g: GraphModel) {
    forall n :: n in g.shapes ==>
      && n != "" && LegalName(n)
      && LegalEndpoints(g.shapes[n].endpoints)
  }

  ghost predicate LegalEndpoints(endpoints: seq<EndpointSpec>) {
    && (forall i :: 0 <= i < |endpoints| ==> LegalName(endpoints[i].name))
    && (forall i, j :: 0 <= i < j < |endpoints| ==> endpoints[i].name != endpoints[j].name)
  }

  /** Rule 1: every edge resolves and joins one host-facing to one target-facing endpoint. */
  ghost predicate EveryEdgeOriented(g: GraphModel) {
    forall i :: 0 <= i < |g.edges| ==> Joins(g, g.edges[i].a, g.edges[i].b) || Joins(g, g.edges[i].b, g.edges[i].a)
  }

  /** The edge joins a host-facing endpoint to the target-facing endpoint `addr`. */
  predicate EndsAt(g: GraphModel, e: EdgeSpec, addr: EndpointAddr) {
    (addr == e.b && Joins(g, e.a, addr)) || (addr == e.a && Joins(g, e.b, addr))
  }

  /** Rule 2: no two edges end at the same target-facing endpoint. */
  ghost predicate OneProducer(g: GraphModel) {
    forall i, j, addr :: 0 <= i < j < |g.edges| && EndsAt(g, g.edges[i], addr) ==> !EndsAt(g, g.edges[j], addr)
  }

  /** The arc an edge contributes: from the node of its host-facing end to the node of its target-facing end. */
  function ArcOf(g: GraphModel, e: EdgeSpec): seq<Arc> {
    if Joins(g, e.a, e.b) then [(e.a.node, e.b.node)]
    else if Joins(g, e.b, e.a) then [(e.b.node, e.a.node)]
    else []
  }

  /** The arcs of the edges that are oriented, in edge order. */
  function Arcs(g: GraphModel, edges: seq<EdgeSpec>): seq<Arc> {
    if edges == [] then [] else Arcs(g, edges[..|edges| - 1]) + ArcOf(g, edges[|edges| - 1])
  }

  /** Rule 3 on top of the others: the host-to-target node relation has no closed walk. */
  ghost predicate WellFormed(g: GraphModel) {
    LegalNames(g) && EveryEdgeOriented(g) && OneProducer(g) && Acyclic(Arcs(g, g.edges))
  }

  // ---- The violation each error reports ----

  ghost predicate Named(endpoints: seq<EndpointSpec>, name: string) {
    exists i :: 0 <= i < |endpoints| && endpoints[i].name == name
  }

  ghost predicate NamedTwice(endpoints: seq<EndpointSpec>, name: string) {
    exists i, j :: 0 <= i < j < |endpoints| && endpoints[i].name == name && endpoints[j].name == name
  }

  ghost predicate NameViolation(node: string, e: ValidationError) {
    match e
    case EmptyName(n) => n == node == ""
    case BlankName(n, None) => n == node && node != "" && AllWhitespace(node)
    case InvalidName(n, None) => n == node && '/' in node
    case NameTooLong(n, None, len, max) => n == node && len == ByteLength(node) > MAX_NAME_LEN == max
    case _ => false
  }

  ghost predicate EndpointViolation(node: string, endpoints: seq<EndpointSpec>, e: ValidationError) {
    match e
    case BlankName(n, Some(ep)) => n == node && Named(endpoints, ep) && ep != "" && AllWhitespace(ep)
    case InvalidName(n, Some(ep)) => n == node && Named(endpoints, ep) && '/' in ep
    case NameTooLong(n, Some(ep), len, max) =>
      n == node && Named(endpoints, ep) && len == ByteLength(ep) > MAX_NAME_LEN == max
    case DuplicateEndpoint(n, ep) => n == node && NamedTwice(endpoints, ep)
    case _ => false
  }

  ghost predicate NodeViolation(g: GraphModel, node: string, e: ValidationError)
    requires node in g.shapes
  {
    NameViolation(node, e) || EndpointViolation(node, g.shapes[node].endpoints, e)
  }

  /** A declared node that exposes no endpoint of that name. */
  ghost predicate NotExposed(g: GraphModel, addr: EndpointAddr) {
    addr.node in g.shapes && forall ep :: ep in g.shapes[addr.node].endpoints ==> ep.name != addr.endpoint
  }

  /** What edge `i` is refused for: its first end that does not resolve, or two ends that face alike. */
  ghost predicate EdgeViolation(g: GraphModel, i: nat, e: ValidationError)
    requires i < |g.edges|
  {
    var edge := g.edges[i];
    match e
    case UnknownNode(k, n) =>
      k == i && n !in g.shapes && (n == edge.a.node || (n == edge.b.node && Resolve(g, edge.a).Ok?))
    case UnknownEndpoint(k, addr) =>
      k == i && NotExposed(g, addr) && (addr == edge.a || (addr == edge.b && Resolve(g, edge.a).Ok?))
    case SameFacingEdge(k, facing) => k == i && Faces(g, edge.a, facing) && Faces(g, edge.b, facing)
    case _ => false
  }

  /** The reference or facing error of edge `i`, if it has one. */
  function EdgeError(g: GraphModel, i: nat): Option<ValidationError>
    requires i < |g.edges|
  {
    var e := g.edges[i];
    match (Resolve(g, e.a), Resolve(g, e.b))
    case (Err(NoNode), _) => Some(UnknownNode(i, e.a.node))
    case (Err(NoEndpoint), _) => Some(UnknownEndpoint(i, e.a))
    case (_, Err(NoNode)) => Some(UnknownNode(i, e.b.node))
    case (_, Err(NoEndpoint)) => Some(UnknownEndpoint(i, e.b))
    case (Ok(a), Ok(b)) => if a.facing == b.facing then Some(SameFacingEdge(i, a.facing)) else None
  }

  /** An edge has at most one error, and it is the violation of that edge. */
  lemma EdgeErrorIsViolation(g: GraphModel, i: nat, e: ValidationError)
    requires i < |g.edges|
    ensures EdgeError(g, i) == Some(e) <==> EdgeViolation(g, i, e)
  {
    ResolveIff(g, g.edges[i].a);
    ResolveIff(g, g.edges[i].b);
  }

  /** How many of the edges end at target-facing endpoint `addr`. */
  function Producers(g: GraphModel, edges: seq<EdgeSpec>, addr: EndpointAddr): nat {
    if edges == [] then 0
    else Producers(g, edges[..|edges| - 1], addr) + if EndsAt(g, edges[|edges| - 1], addr) then 1 else 0
  }

  ghost predicate BadNames(g: GraphModel, e: ValidationError) {
    exists n :: n in g.shapes && NodeViolation(g, n, e)
  }

  ghost predicate BadEdge(g: GraphModel, e: ValidationError) {
    exists i :: 0 <= i < |g.edges| && EdgeViolation(g, i, e)
  }

  ghost predicate Oversubscribed(g: GraphModel, e: ValidationError) {
    e.TargetEndpointOversubscribed? && e.count == Producers(g, g.edges, e.addr) > 1
  }

  /** Everything the validator may report apart from a cycle. */
  ghost predicate Violation(g: GraphModel, e: ValidationError) {
    BadNames(g, e) || BadEdge(g, e) || Oversubscribed(g, e)
  }

  lemma EdgeErrorIffNotOriented(g: GraphModel, i: nat)
    requires i < |g.edges|
    ensures EdgeError(g, i).None? <==> Joins(g, g.edges[i].a, g.edges[i].b) || Joins(g, g.edges[i].b, g.edges[i].a)
  {
  }

  ghost predicate ProducedBy(g: GraphModel, edges: seq<EdgeSpec>, addr: EndpointAddr, i: nat)
    requires i < |edges|
  {
    EndsAt(g, edges[i], addr)
  }

  /** A positive count is witnessed by an edge. */
  lemma {:induction false} ProducersWitness(g: GraphModel, edges: seq<EdgeSpec>, addr: EndpointAddr)
    ensures Producers(g, edges, addr) >= 1 <==> exists i :: 0 <= i < |edges| && ProducedBy(g, edges, addr, i)
  {
    if edges != [] {
      var n := |edges| - 1;
      var init := edges[..n];
      ProducersWitness(g, init, addr);
      assert forall i :: 0 <= i < n ==> ProducedBy(g, init, addr, i) == ProducedBy(g, edges, addr, i);
      assert ProducedBy(g, edges, addr, n) <==> Producers(g, edges, addr) == Producers(g, init, addr) + 1;
    }
  }

  /** A count above one is witnessed by two edges. */
  lemma {:induction false} ProducersWitnessTwo(g: GraphModel, edges: seq<EdgeSpec>, addr: EndpointAddr)
    ensures Producers(g, edges, addr) >= 2 <==>
            exists i, j :: 0 <= i < j < |edges| && ProducedBy(g, edges, addr, i) && ProducedBy(g, edges, addr, j)
  {
    if edges != [] {
      var n := |edges| - 1;
      var init := edges[..n];
      ProducersWitness(g, init, addr);
      ProducersWitnessTwo(g, init, addr);
      assert forall i :: 0 <= i < n ==> ProducedBy(g, init, addr, i) == ProducedBy(g, edges, addr, i);
      assert ProducedBy(g, edges, addr, n) <==> Producers(g, edges, addr) == Producers(g, init, addr) + 1;
    }
  }

  lemma OneProducerIffCountsSmall(g: GraphModel)
    ensures OneProducer(g) <==> forall addr :: Producers(g, g.edges, addr) <= 1
  {
    if OneProducer(g) {
      forall addr ensures Producers(g, g.edges, addr) <= 1 {
        ProducersWitnessTwo(g, g.edges, addr);
        if i, j :| 0 <= i < j < |g.edges| && ProducedBy(g, g.edges, addr, i) && ProducedBy(g, g.edges, addr, j) {
          assert false;
        }
      }
    } else {
      var i, j, addr :| 0 <= i < j < |g.edges| && EndsAt(g, g.edges[i], addr) && EndsAt(g, g.edges[j], addr);
      assert ProducedBy(g, g.edges, addr, i) && ProducedBy(g, g.edges, addr, j);
      ProducersWitnessTwo(g, g.edges, addr);
    }
  }

  lemma {:induction false} ArcsOverNodes(g: GraphModel, edges: seq<EdgeSpec>)
    ensures ArcsOver(Arcs(g, edges), g.shapes.Keys)
  {
    if edges != [] {
      ArcsOverNodes(g, edges[..|edges| - 1]);
    }
  }

  lemma ArcIsCarried(g: GraphModel, e: EdgeSpec, arc: Arc)
    ensures arc in ArcOf(g, e) <==> Carries(g, e, arc)
  {
  }

  /** One of the edges carries the arc. */
  ghost predicate SomeCarries(g: GraphModel, edges: seq<EdgeSpec>, arc: Arc) {
    exists i :: 0 <= i < |edges| && Carries(g, edges[i], arc)
  }

  lemma CarriedOneMore(g: GraphModel, init: seq<EdgeSpec>, last: EdgeSpec, arc: Arc)
    ensures SomeCarries(g, init + [last], arc) <==> SomeCarries(g, init, arc) || Carries(g, last, arc)
  {
    var edges := init + [last];
    assert edges[|init|] == last;
    if i :| 0 <= i < |init| && Carries(g, init[i], arc) {
      assert Carries(g, edges[i], arc);
    }
  }

  /** The arcs are exactly the node pairs that some edge joins, host-facing end first. */
  lemma {:induction false} ArcsAreJoins(g: GraphModel, edges: seq<EdgeSpec>, arc: Arc)
    ensures arc in Arcs(g, edges) <==> SomeCarries(g, edges, arc)
  {
    if edges != [] {
      var init, last := edges[..|edges| - 1], edges[|edges| - 1];
      ArcsAreJoins(g, init, arc);
      ArcIsCarried(g, last, arc);
      LastApart(edges);
      CarriedOneMore(g, init, last, arc);
    }
  }

  /** The edge leads from a host-facing endpoint of node `arc.0` to a target-facing one of node `arc.1`. */
  ghost predicate Carries(g: GraphModel, e: EdgeSpec, arc: Arc) {
    || (Joins(g, e.a, e.b) && arc == (e.a.node, e.b.node))
    || (Joins(g, e.b, e.a) && arc == (e.b.node, e.a.node))
  }

  // ---- The checks ----

  /** Non-empty, yet nothing is left once trimmed. */
  method IsBlank(name: string) returns (blank: bool)
    ensures blank <==> name != "" && AllWhitespace(name)
  {
    BlankIffAllWhitespace(name);
    blank := name != "" && Trim(name) == "";
  }

  method CheckNodeName(node: string) returns (errors: seq<ValidationError>)
    ensures forall e :: e in errors <==> NameViolation(node, e)
  {
    var len := ByteLength(node);
    var blank := IsBlank(node);
    var empty := When(node == "", EmptyName(node)) + When(blank, BlankName(node, None));
    var invalid := When('/' in node, InvalidName(node, None));
    var long := When(len > MAX_NAME_LEN, NameTooLong(node, None, len, MAX_NAME_LEN));
    errors := empty + invalid + long;
    assert forall e :: e in errors <==>
      || (e == EmptyName(node) && node == "") || (e == BlankName(node, None) && blank)
      || (e == InvalidName(node, None) && '/' in node)
      || (e == NameTooLong(node, None, len, MAX_NAME_LEN) && len > MAX_NAME_LEN);
  }

  method CheckEndpointName(node: string, name: string) returns (errors: seq<ValidationError>)
    ensures forall e :: e in errors <==>
      !e.DuplicateEndpoint? && EndpointViolation(node, [EndpointSpec(name, Host, Exclusive)], e)
  {
    assert forall n :: Named([EndpointSpec(name, Host, Exclusive)], n) <==> n == name by {
      assert [EndpointSpec(name, Host, Exclusive)][0].name == name;
    }
    var len := ByteLength(name);
    var blank := IsBlank(name);
    var invalid := When('/' in name, InvalidName(node, Some(name)));
    var blanks := When(blank, BlankName(node, Some(name)));
    var long := When(len > MAX_NAME_LEN, NameTooLong(node, Some(name), len, MAX_NAME_LEN));
    errors := invalid + blanks + long;
    assert forall e :: e in errors <==>
      || (e == InvalidName(node, Some(name)) && '/' in name) || (e == BlankName(node, Some(name)) && blank)
      || (e == NameTooLong(node, Some(name), len, MAX_NAME_LEN) && len > MAX_NAME_LEN);
  }

  /** One more endpoint adds its own name errors, and a duplicate when the name was there before. */
  lemma NamedOneMore(before: seq<EndpointSpec>, ep: EndpointSpec, n: string)
    ensures Named(before + [ep], n) <==> Named(before, n) || n == ep.name
  {
    var after := before + [ep];
    assert after[|before|] == ep;
    if i :| 0 <= i < |before| && before[i].name == n {
      assert after[i].name == n;
    }
  }

  lemma NamedTwiceOneMore(before: seq<EndpointSpec>, ep: EndpointSpec, n: string)
    ensures NamedTwice(before + [ep], n) <==> NamedTwice(before, n) || (n == ep.name && Named(before, n))
  {
    var after := before + [ep];
    assert after[|before|] == ep && forall i :: 0 <= i < |before| ==> after[i] == before[i];
    if i, j :| 0 <= i < j < |before| && before[i].name == n && before[j].name == n {
      assert after[i].name == n && after[j].name == n;
    }
    if i :| 0 <= i < |before| && before[i].name == n && n == ep.name {
      assert after[i].name == n && after[|before|].name == n;
    }
  }

  lemma NamedAlone(ep: EndpointSpec, n: string)
    ensures Named([ep], n) <==> n == ep.name
  {
    assert [ep][0] == ep;
  }

  lemma EndpointViolationGrows(node: string, before: seq<EndpointSpec>, ep: EndpointSpec, e: ValidationError)
    ensures EndpointViolation(node, before + [ep], e) <==>
            || EndpointViolation(node, before, e)
            || (!e.DuplicateEndpoint? && EndpointViolation(node, [EndpointSpec(ep.name, Host, Exclusive)], e))
            || (e == DuplicateEndpoint(node, ep.name) && Named(before, ep.name))
  {
    match e
    case DuplicateEndpoint(_, ch) => NamedTwiceOneMore(before, ep, ch);
    case BlankName(_, Some(n)) =>
      NamedOneMore(before, ep, n);
      NamedAlone(EndpointSpec(ep.name, Host, Exclusive), n);
    case InvalidName(_, Some(n)) =>
      NamedOneMore(before, ep, n);
      NamedAlone(EndpointSpec(ep.name, Host, Exclusive), n);
    case NameTooLong(_, Some(n), _, _) =>
      NamedOneMore(before, ep, n);
      NamedAlone(EndpointSpec(ep.name, Host, Exclusive), n);
    case _ =>
  }

  /** Every endpoint name of one node, with the names already met in `seen`. */
  method CheckEndpoints(node: string, endpoints: seq<EndpointSpec>) returns (errors: seq<ValidationError>)
    ensures forall e :: e in errors <==> EndpointViolation(node, endpoints, e)
  {
    errors := [];
    var seen: set<string> := {};
    for i := 0 to |endpoints|
      invariant forall n :: n in seen <==> Named(endpoints[..i], n)
      invariant forall e :: e in errors <==> EndpointViolation(node, endpoints[..i], e)
    {
      var ep := endpoints[i];
      var own := CheckEndpointName(node, ep.name);
      var duplicate := if ep.name in seen then [DuplicateEndpoint(node, ep.name)] else [];
      ghost var before := endpoints[..i];
      assert endpoints[..i + 1] == before + [ep];
      forall e
        ensures e in errors + own + duplicate <==> EndpointViolation(node, before + [ep], e)
      {
        EndpointViolationGrows(node, before, ep, e);
      }
      forall n ensures n in seen + {ep.name} <==> Named(before + [ep], n) {
        if Named(before, n) {
          var k :| 0 <= k < |before| && before[k].name == n;
          assert (before + [ep])[k].name == n;
        }
        assert (before + [ep])[i].name == ep.name;
      }
      seen := seen + {ep.name};
      errors := errors + own + duplicate;
    }
    assert endpoints[..|endpoints|] == endpoints;
  }

  /** The naming rules over every node, in whatever order the table yields them. */
  method CheckNames(g: GraphModel) returns (errors: seq<ValidationError>)
    ensures forall e :: e in errors <==> BadNames(g, e)
  {
    errors := [];
    var remaining := g.shapes.Keys;
    while remaining != {}
      invariant remaining <= g.shapes.Keys
      invariant forall e :: e in errors <==> exists n :: n in g.shapes && n !in remaining && NodeViolation(g, n, e)
      decreases remaining
    {
      var node :| node in remaining;
      var named := CheckNodeName(node);
      var exposed := CheckEndpoints(node, g.shapes[node].endpoints);
      remaining := remaining - {node};
      errors := errors + named + exposed;
    }
  }

  /** One edge: the error it is refused with, or its oriented ends. */
  method CheckEdge(g: GraphModel, i: nat) returns (refused: Option<ValidationError>, ends: Option<Ends>)
    requires i < |g.edges|
    ensures refused == EdgeError(g, i) && ends == Orient(g, g.edges[i])
  {
    refused, ends := None, None;
    var edge := g.edges[i];
    match (Resolve(g, edge.a), Resolve(g, edge.b)) {
      case (Err(e), _) =>
        refused := Some(ReferenceError(i, edge.a, e));
      case (_, Err(e)) =>
        refused := Some(ReferenceError(i, edge.b, e));
      case (Ok(a), Ok(b)) =>
        match (a.facing, b.facing) {
          case (Host, Target) => ends := Some(Ends(edge.a, edge.b));
          case (Target, Host) => ends := Some(Ends(edge.b, edge.a));
          case (facing, _) => refused := Some(SameFacingEdge(i, facing));
        }
    }
  }

  function Tally(producers: map<EndpointAddr, nat>, addr: EndpointAddr): nat {
    if addr in producers then producers[addr] else 0
  }

  /** `producers` counts the edges that end at each target-facing endpoint. */
  ghost predicate Tallies(g: GraphModel, edges: seq<EdgeSpec>, producers: map<EndpointAddr, nat>) {
    forall addr :: Producers(g, edges, addr) == Tally(producers, addr)
  }

  lemma TallyOneMore(g: GraphModel, edges: seq<EdgeSpec>, e: EdgeSpec, producers: map<EndpointAddr, nat>)
    requires Tallies(g, edges, producers)
    ensures Orient(g, e).None? ==> Tallies(g, edges + [e], producers)
    ensures Orient(g, e).Some? ==>
      var t := Orient(g, e).value.target; Tallies(g, edges + [e], producers[t := Tally(producers, t) + 1])
  {
    assert (edges + [e])[..|edges|] == edges;
    if Orient(g, e).Some? {
      var t := Orient(g, e).value.target;
      var producers' := producers[t := Tally(producers, t) + 1];
      forall addr ensures Producers(g, edges + [e], addr) == Tally(producers', addr) {
        assert Producers(g, edges, addr) == Tally(producers, addr);
        assert EndsAt(g, e, addr) <==> addr == t;
      }
    }
  }

  lemma ArcsOneMore(g: GraphModel, edges: seq<EdgeSpec>, e: EdgeSpec)
    ensures Arcs(g, edges + [e]) == Arcs(g, edges) + match Orient(g, e)
                                                    case Some(ends) => [(ends.host.node, ends.target.node)]
                                                    case None => []
  {
    assert (edges + [e])[..|edges|] == edges;
  }

  /** The error of one of the first `n` edges. */
  ghost predicate BadEdgeBelow(g: GraphModel, n: nat, e: ValidationError)
    requires n <= |g.edges|
  {
    exists k :: 0 <= k < n && EdgeViolation(g, k, e)
  }

  lemma BadEdgeOneMore(g: GraphModel, n: nat, e: ValidationError)
    requires n < |g.edges|
    ensures BadEdgeBelow(g, n + 1, e) <==> BadEdgeBelow(g, n, e) || EdgeError(g, n) == Some(e)
  {
    EdgeErrorIsViolation(g, n, e);
  }

  /** What the loop has established about the first `n` edges. */
  ghost predicate Checked(g: GraphModel, n: nat, errors: seq<ValidationError>, producers: map<EndpointAddr, nat>, arcs: seq<Arc>) {
    && n <= |g.edges|
    && (forall e :: e in errors <==> BadEdgeBelow(g, n, e))
    && Tallies(g, g.edges[..n], producers)
    && arcs == Arcs(g, g.edges[..n])
  }

  lemma ErrorsOneMore(g: GraphModel, n: nat, errors: seq<ValidationError>)
    requires n < |g.edges| && forall e :: e in errors <==> BadEdgeBelow(g, n, e)
    ensures EdgeError(g, n).None? ==> forall e :: e in errors <==> BadEdgeBelow(g, n + 1, e)
    ensures EdgeError(g, n).Some? ==> forall e :: e in errors + [EdgeError(g, n).value] <==> BadEdgeBelow(g, n + 1, e)
  {
    forall e ensures BadEdgeBelow(g, n + 1, e) <==> e in errors || EdgeError(g, n) == Some(e) {
      BadEdgeOneMore(g, n, e);
    }
  }

  /** Taking edge `n` into account: its error, or its tally and arc. */
  lemma CheckedOneMore(g: GraphModel, n: nat, errors: seq<ValidationError>, producers: map<EndpointAddr, nat>, arcs: seq<Arc>,
                       errors': seq<ValidationError>, producers': map<EndpointAddr, nat>, arcs': seq<Arc>)
    requires Checked(g, n, errors, producers, arcs) && n < |g.edges|
    requires errors' == match EdgeError(g, n) { case Some(e) => errors + [e] case None => errors }
    requires producers' == match Orient(g, g.edges[n]) {
                             case Some(ends) => producers[ends.target := Tally(producers, ends.target) + 1]
                             case None => producers
                           }
    requires arcs' == match Orient(g, g.edges[n]) {
                        case Some(ends) => arcs + [(ends.host.node, ends.target.node)]
                        case None => arcs
                      }
    ensures Checked(g, n + 1, errors', producers', arcs')
  {
    assert g.edges[..n + 1] == g.edges[..n] + [g.edges[n]];
    TallyOneMore(g, g.edges[..n], g.edges[n], producers);
    ArcsOneMore(g, g.edges[..n], g.edges[n]);
    NothingLast(arcs);
    ErrorsOneMore(g, n, errors);
  }

  /** Rule 1 and reference integrity; the tallies and arcs that rules 2 and 3 work on. */
  method CheckEdges(g: GraphModel)
    returns (errors: seq<ValidationError>, producers: map<EndpointAddr, nat>, arcs: seq<Arc>)
    ensures forall e :: e in errors <==> BadEdge(g, e)
    ensures Tallies(g, g.edges, producers)
    ensures arcs == Arcs(g, g.edges)
  {
    errors, producers, arcs := [], map[], [];
    for i := 0 to |g.edges|
      invariant Checked(g, i, errors, producers, arcs)
    {
      ghost var errors0, producers0, arcs0 := errors, producers, arcs;
      var refused, ends := CheckEdge(g, i);
      if refused.Some? {
        errors := errors + [refused.value];
      }
      if ends.Some? {
        var Ends(host, target) := ends.value;
        producers := producers[target := Tally(producers, target) + 1];
        arcs := arcs + [(host.node, target.node)];
      }
      CheckedOneMore(g, i, errors0, producers0, arcs0, errors, producers, arcs);
    }
    assert g.edges[..|g.edges|] == g.edges;
  }

  function ReferenceError(edge: nat, addr: EndpointAddr, e: ResolveErr): ValidationError {
    match e
    case NoNode => UnknownNode(edge, addr.node)
    case NoEndpoint => UnknownEndpoint(edge, addr)
  }

  /** Rule 2: one error for every target-facing endpoint with more than one edge. */
  method CheckProducers(producers: map<EndpointAddr, nat>) returns (errors: seq<ValidationError>)
    ensures forall e :: e in errors <==>
      e.TargetEndpointOversubscribed? && e.addr in producers && e.count == producers[e.addr] > 1
    ensures forall i, j :: 0 <= i < j < |errors| ==> errors[i].addr != errors[j].addr
  {
    errors := [];
    var remaining := producers.Keys;
    while remaining != {}
      invariant remaining <= producers.Keys
      invariant forall e :: e in errors <==>
        && e.TargetEndpointOversubscribed? && e.addr in producers && e.addr !in remaining
        && e.count == producers[e.addr] > 1
      invariant forall i, j :: 0 <= i < j < |errors| ==> errors[i].addr != errors[j].addr
      decreases remaining
    {
      var addr :| addr in remaining;
      remaining := remaining - {addr};
      if producers[addr] > 1 {
        errors := errors + [TargetEndpointOversubscribed(addr, producers[addr])];
      }
    }
  }

  /** The naming rules and rules 1 and 2, leaving the arcs for rule 3. */
  method CheckRules(g: GraphModel) returns (errors: seq<ValidationError>, arcs: seq<Arc>)
    ensures forall e :: e in errors <==> Violation(g, e)
    ensures forall e :: e in errors ==> !e.Cycle?
    ensures arcs == Arcs(g, g.edges)
  {
    var names := CheckNames(g);
    var edges, producers;
    edges, producers, arcs := CheckEdges(g);
    var oversubscribed := CheckProducers(producers);
    errors := names + edges + oversubscribed;
    forall e ensures e in errors <==> Violation(g, e) {
      if e.TargetEndpointOversubscribed? {
        assert Producers(g, g.edges, e.addr) == Tally(producers, e.addr);
      }
      assert e in oversubscribed <==> Oversubscribed(g, e);
    }
  }

  /**
   * All violations at once. The reported errors other than a cycle are exactly the violations of the
   * model; a cycle is reported exactly when the arcs have one; and silence means the model is well formed.
   */
  method Validate(g: GraphModel) returns (errors: seq<ValidationError>)
    ensures forall e: ValidationError :: !e.Cycle? ==> (e in errors <==> Violation(g, e))
    ensures forall e :: e in errors && e.Cycle? ==> IsSimpleCycle(e.nodes, Arcs(g, g.edges))
    ensures (exists e :: e in errors && e.Cycle?) <==> !Acyclic(Arcs(g, g.edges))
    ensures errors == [] <==> WellFormed(g)
  {
    var arcs;
    errors, arcs := CheckRules(g);
    NoViolationIffRules(g);
    assert errors == [] <==> forall e :: e !in errors by {
      assert errors != [] ==> errors[0] in errors;
    }
    ArcsOverNodes(g, g.edges);
    var cycle := FindCycle(g.shapes.Keys, arcs);
    if cycle.Some? {
      errors := errors + [Cycle(cycle.value)];
      assert errors[|errors| - 1] == Cycle(cycle.value);
    }
  }

  /** No violation is left exactly when the naming rules and rules 1 and 2 hold. */
  lemma NoViolationIffRules(g: GraphModel)
    ensures (forall e :: !Violation(g, e)) <==> LegalNames(g) && EveryEdgeOriented(g) && OneProducer(g)
  {
    if forall e :: !Violation(g, e) {
      SilenceMeansRules(g);
    }
    if LegalNames(g) && EveryEdgeOriented(g) && OneProducer(g) {
      forall e ensures !Violation(g, e) {
        RulesMeanSilence(g, e);
      }
    }
  }

  lemma SilenceMeansRules(g: GraphModel)
    requires forall e :: !Violation(g, e)
    ensures LegalNames(g) && EveryEdgeOriented(g) && OneProducer(g)
  {
    forall n | n in g.shapes ensures n != "" && LegalName(n) && LegalEndpoints(g.shapes[n].endpoints) {
      forall e ensures !NodeViolation(g, n, e) {
        assert !Violation(g, e) && !BadNames(g, e);
      }
      SilentNodeIsLegal(g, n);
    }
    forall i | 0 <= i < |g.edges|
      ensures Joins(g, g.edges[i].a, g.edges[i].b) || Joins(g, g.edges[i].b, g.edges[i].a)
    {
      EdgeErrorIffNotOriented(g, i);
      if EdgeError(g, i).Some? {
        EdgeErrorIsViolation(g, i, EdgeError(g, i).value);
        assert BadEdge(g, EdgeError(g, i).value);
        assert Violation(g, EdgeError(g, i).value);
      }
    }
    forall addr ensures Producers(g, g.edges, addr) <= 1 {
      assert !Violation(g, TargetEndpointOversubscribed(addr, Producers(g, g.edges, addr)));
    }
    OneProducerIffCountsSmall(g);
  }

  lemma RulesMeanSilence(g: GraphModel, e: ValidationError)
    requires LegalNames(g) && EveryEdgeOriented(g) && OneProducer(g)
    ensures !Violation(g, e)
  {
    OneProducerIffCountsSmall(g);
    OrientedEdgesAreSilent(g, e);
    if n :| n in g.shapes && NodeViolation(g, n, e) {
      LegalNodeIsSilent(g, n, e);
    }
    if e.TargetEndpointOversubscribed? {
      assert Producers(g, g.edges, e.addr) <= 1;
    }
  }

  lemma OrientedEdgesAreSilent(g: GraphModel, e: ValidationError)
    requires EveryEdgeOriented(g)
    ensures !BadEdge(g, e)
  {
    if i :| 0 <= i < |g.edges| && EdgeViolation(g, i, e) {
      EdgeErrorIsViolation(g, i, e);
      EdgeErrorIffNotOriented(g, i);
    }
  }

  lemma LegalNodeIsSilent(g: GraphModel, n: string, e: ValidationError)
    requires n in g.shapes && n != "" && LegalName(n) && LegalEndpoints(g.shapes[n].endpoints)
    ensures !NodeViolation(g, n, e)
  {
    var endpoints := g.shapes[n].endpoints;
    assert forall name :: Named(endpoints, name) ==> LegalName(name);
    assert forall name :: !NamedTwice(endpoints, name);
  }

  lemma SilentNodeIsLegal(g: GraphModel, n: string)
    requires n in g.shapes && forall e :: !NodeViolation(g, n, e)
    ensures n != "" && LegalName(n) && LegalEndpoints(g.shapes[n].endpoints)
  {
    var endpoints := g.shapes[n].endpoints;
    assert !NodeViolation(g, n, EmptyName(n));
    assert !NodeViolation(g, n, BlankName(n, None));
    assert !NodeViolation(g, n, InvalidName(n, None));
    assert !NodeViolation(g, n, NameTooLong(n, None, ByteLength(n), MAX_NAME_LEN));
    forall i | 0 <= i < |endpoints| ensures LegalName(endpoints[i].name) {
      var name := endpoints[i].name;
      assert Named(endpoints, name);
      assert !NodeViolation(g, n, BlankName(n, Some(name)));
      assert !NodeViolation(g, n, InvalidName(n, Some(name)));
      assert !NodeViolation(g, n, NameTooLong(n, Some(name), ByteLength(name), MAX_NAME_LEN));
    }
    forall i, j | 0 <= i < j < |endpoints| ensures endpoints[i].name != endpoints[j].name {
      assert !NodeViolation(g, n, DuplicateEndpoint(n, endpoints[i].name));
    }
  }
}
