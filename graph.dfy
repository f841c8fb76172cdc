/** The topology graph the discovery services return: a list of node records and
    a list of edge records, both in append order. Node ids are IPs, or
    `ip:interface` for a degraded port. */
module Graph {
  import opened Common
  import opened ClientService

  datatype NodeType = Router | Switch | Client | Ap {
    /** The value written under the node's `type` key. */
    function Name(): string {
      match this
      case Router => "router"
      case Switch => "switch"
      case Client => "client"
      case Ap => "ap"
    }
  }

  /** One node record, by the shape it is created with; `caption` is the record's
      `label`. A client node's `merged` holds the association fields the enricher
      wrote into it, if any. */
  datatype Node =
    | RouterNode(id: string, caption: string, status: bool)
    | PortNode(id: string, caption: string, linkSpeed: Option<string>)
    | NeighborNode(id: string, caption: string)
    | ClientNode(id: string, caption: string, signal: Option<int>, merged: Option<Association>)
    | ApNode(id: string, caption: string)
  {
    function Type(): NodeType {
      match this
      case RouterNode(_, _, _) => Router
      case PortNode(_, _, _) => Switch
      case NeighborNode(_, _) => Switch
      case ClientNode(_, _, _, _) => Client
      case ApNode(_, _) => Ap
    }
  }

  /** The attributes an edge carries besides its endpoints. */
  datatype EdgeKind =
    | PortLink(linkSpeed: Option<string>)   // `degraded: True` and `link_speed`
    | NeighborLink(puerto: Option<string>)  // the local interface, `puerto`
    | Plain                                 // router to client, AP to client
    | TrunkLink(iface: Option<string>)      // `interface` in the trunk graph

  datatype Edge = Edge(source: string, target: string, kind: EdgeKind)

  datatype Topology = Topology(nodes: seq<Node>, edges: seq<Edge>)

  /** `[n["id"] for n in nodes]`. */
  function Ids(nodes: seq<Node>): (ids: seq<string>)
    ensures |ids| == |nodes|
    ensures forall i :: 0 <= i < |nodes| ==> ids[i] == nodes[i].id
  {
    seq(|nodes|, i requires 0 <= i < |nodes| => nodes[i].id)
  }

  lemma IdsAppend(a: seq<Node>, b: seq<Node>)
    ensures Ids(a + b) == Ids(a) + Ids(b)
  {
  }

  /** Every edge endpoint is the id of some node. */
  ghost predicate Closed(nodes: seq<Node>, edges: seq<Edge>) {
    forall e :: e in edges ==> e.source in Ids(nodes) && e.target in Ids(nodes)
  }

  /** The router nodes, in order. */
  function Routers(nodes: seq<Node>): (r: seq<Node>)
    ensures forall n :: n in r ==> n.RouterNode? && n in nodes
  {
    if |nodes| == 0 then []
    else Routers(nodes[..|nodes| - 1]) + (if nodes[|nodes| - 1].RouterNode? then [nodes[|nodes| - 1]] else [])
  }

  lemma {:induction false} RoutersAppend(a: seq<Node>, b: seq<Node>)
    ensures Routers(a + b) == Routers(a) + Routers(b)
    decreases |b|
  {
    if |b| > 0 {
      var n := |b|;
      assert (a + b)[..|a + b| - 1] == a + b[..n - 1];
      RoutersAppend(a, b[..n - 1]);
    } else {
      assert a + b == a;
    }
  }

  /** One router node per IP, with the status its session gave. */
  function RouterNodesFor(ips: seq<string>, reachable: string -> bool): (r: seq<Node>)
    ensures |r| == |ips|
  {
    seq(|ips|, i requires 0 <= i < |ips| => RouterNode(ips[i], ips[i], reachable(ips[i])))
  }

  lemma RouterNodesForSnoc(ips: seq<string>, x: string, reachable: string -> bool)
    ensures RouterNodesFor(ips + [x], reachable) == RouterNodesFor(ips, reachable) + [RouterNode(x, x, reachable(x))]
  {
    var a, b := RouterNodesFor(ips + [x], reachable), RouterNodesFor(ips, reachable) + [RouterNode(x, x, reachable(x))];
    forall i | 0 <= i < |a| ensures a[i] == b[i] {
      if i < |ips| {
        assert (ips + [x])[i] == ips[i];
      }
    }
  }
}
