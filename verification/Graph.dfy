/** Node shapes, endpoint addresses and edges (core/src/graph.rs). */
module Graph {
  import opened Basics
  import opened Text

  datatype Facing = Target | Host {
    function Opposite(): Facing {
      if Target? then Host else Target
    }
  }

  datatype WriteMode = Never | OnDemand | Held

  datatype Arbitration = Exclusive | FreeForAll

  const DEFAULT_ENDPOINT := ""
  const MAX_NAME_LEN := 256

  datatype EndpointAddr = EndpointAddr(node: string, endpoint: string) {
    /** `node` for the default endpoint, `node/endpoint` otherwise. */
    function Display(): string {
      if endpoint == DEFAULT_ENDPOINT then node else node + "/" + endpoint
    }
  }

  function ParseAddr(s: string): EndpointAddr {
    match SplitOnce(s, '/')
    case Some((node, endpoint)) => EndpointAddr(node, endpoint)
    case None => EndpointAddr(s, DEFAULT_ENDPOINT)
  }

  /** The display form parses back exactly when the node name carries no slash. */
  lemma ParseDisplay(a: EndpointAddr)
    ensures ParseAddr(a.Display()) == a <==> '/' !in a.node
  {
    if '/' !in a.node && a.endpoint != DEFAULT_ENDPOINT {
      SplitOnceAtFirst(a.node, '/', a.endpoint);
    }
    if '/' in a.node {
      assert '/' in a.Display();
    }
  }

  /** Parsing loses nothing except a trailing slash with an empty endpoint behind it. */
  lemma DisplayParse(s: string)
    ensures ParseAddr(s).Display() == s <==> !(exists n :: '/' !in n && s == n + "/")
  {
    match SplitOnce(s, '/')
    case None =>
      assert forall n :: '/' in n + "/";
    case Some((node, endpoint)) =>
      if endpoint == "" {
        assert s == node + "/";
        assert |ParseAddr(s).Display()| < |s|;
      } else if exists n :: '/' !in n && s == n + "/" {
        var n :| '/' !in n && s == n + "/";
        assert s == n + "/" + "";
        SplitOnceAtFirst(n, '/', "");
      }
  }

  /** Declared names carry no slash, so two endpoints never share a display form. */
  lemma DisplayInjective(a: EndpointAddr, b: EndpointAddr)
    requires '/' !in a.node && '/' !in b.node
    requires a.Display() == b.Display()
    ensures a == b
  {
    ParseDisplay(a);
    ParseDisplay(b);
  }

  datatype EndpointSpec = EndpointSpec(name: string, facing: Facing, arbitration: Arbitration)

  datatype NodeShape = NodeShape(endpoints: seq<EndpointSpec>)

  datatype EdgeSpec = EdgeSpec(a: EndpointAddr, b: EndpointAddr, writeMode: WriteMode)

  datatype GraphModel = GraphModel(shapes: map<string, NodeShape>, edges: seq<EdgeSpec>)

  datatype ResolveErr = NoNode | NoEndpoint

  /** The first endpoint of that name: a later duplicate would be shadowed. */
  function FindEndpoint(endpoints: seq<EndpointSpec>, name: string): (r: Option<EndpointSpec>)
    ensures r.None? <==> forall e :: e in endpoints ==> e.name != name
    ensures r.Some? ==> r.value in endpoints && r.value.name == name
  {
    if endpoints == [] then None
    else if endpoints[0].name == name then Some(endpoints[0])
    else FindEndpoint(endpoints[1..], name)
  }

  lemma {:induction false} FindEndpointIsFirst(endpoints: seq<EndpointSpec>, name: string, k: nat)
    requires k < |endpoints| && endpoints[k].name == name && forall j :: 0 <= j < k ==> endpoints[j].name != name
    ensures FindEndpoint(endpoints, name) == Some(endpoints[k])
  {
    if k > 0 {
      FindEndpointIsFirst(endpoints[1..], name, k - 1);
    }
  }

  function Resolve(g: GraphModel, addr: EndpointAddr): Result<EndpointSpec, ResolveErr> {
    if addr.node !in g.shapes then Err(NoNode)
    else
      match FindEndpoint(g.shapes[addr.node].endpoints, addr.endpoint)
      case None => Err(NoEndpoint)
      case Some(e) => Ok(e)
  }

  /** The address is of a declared endpoint that faces this way. */
  predicate Faces(g: GraphModel, addr: EndpointAddr, facing: Facing) {
    Resolve(g, addr).Ok? && Resolve(g, addr).value.facing == facing
  }

  /** A host-facing endpoint and a target-facing one: the two ends an edge may join. */
  predicate Joins(g: GraphModel, host: EndpointAddr, target: EndpointAddr) {
    Faces(g, host, Host) && Faces(g, target, Target)
  }

  /** A reference fails exactly on an undeclared node, or on a declared one that exposes no such endpoint. */
  lemma ResolveIff(g: GraphModel, addr: EndpointAddr)
    ensures Resolve(g, addr) == Err(NoNode) <==> addr.node !in g.shapes
    ensures Resolve(g, addr) == Err(NoEndpoint) <==>
      addr.node in g.shapes && forall e :: e in g.shapes[addr.node].endpoints ==> e.name != addr.endpoint
    ensures Resolve(g, addr).Ok? ==>
      && addr.node in g.shapes && Resolve(g, addr).value.name == addr.endpoint
      && Resolve(g, addr).value in g.shapes[addr.node].endpoints
  {
  }

  /** An edge oriented along the target-host axis. */
  datatype Ends = Ends(host: EndpointAddr, target: EndpointAddr)

  /** The ends of an edge that joins one host-facing to one target-facing endpoint. */
  function Orient(g: GraphModel, e: EdgeSpec): Option<Ends> {
    match (Resolve(g, e.a), Resolve(g, e.b))
    case (Ok(a), Ok(b)) =>
      if a.facing == b.facing then None
      else if a.facing.Host? then Some(Ends(e.a, e.b))
      else Some(Ends(e.b, e.a))
    case _ => None
  }

  /** The orientation is decided by the facings: the host end faces host, the target end faces target. */
  lemma OrientIffJoins(g: GraphModel, e: EdgeSpec, host: EndpointAddr, target: EndpointAddr)
    ensures Orient(g, e) == Some(Ends(host, target)) <==>
      ((host == e.a && target == e.b) || (host == e.b && target == e.a)) && Joins(g, host, target)
    ensures Orient(g, e).Some? <==> Joins(g, e.a, e.b) || Joins(g, e.b, e.a)
  {
  }
}
