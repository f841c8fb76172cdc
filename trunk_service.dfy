/** `get_trunk_topology` of app/services/trunk_service.py: the seed routers and the
    LLDP/CDP links among them. The seed list is drained in order; each new IP gets
    a router node, and when its session opens, one edge per neighbour row whose
    address is itself a seed. */
module TrunkService {
  import opened Common
  import opened RouterApi
  import opened Graph

  /** The traversal state: `visited` (the IPs in the order they were added), `nodes`
      and `edges`. */
  datatype TrunkWalk = TrunkWalk(visited: seq<string>, nodes: seq<Node>, edges: seq<Edge>)

  /** The edge one neighbour row gives, if its address is a seed. */
  function TrunkEdgeOf(ip: string, seeds: seq<string>, n: NeighborRow): Option<Edge> {
    if n.address.Some? && n.address.value in seeds then Some(Edge(ip, n.address.value, TrunkLink(n.iface))) else None
  }

  /** The edges router `ip` gets from the neighbour rows delivered, in order. */
  function TrunkEdges(ip: string, seeds: seq<string>, rows: seq<NeighborRow>): seq<Edge> {
    if |rows| == 0 then []
    else
      var e := TrunkEdgeOf(ip, seeds, rows[|rows| - 1]);
      TrunkEdges(ip, seeds, rows[..|rows| - 1]) + (if e.Some? then [e.value] else [])
  }

  /** One dequeued IP. */
  function TrunkVisit(w: TrunkWalk, ip: string, seeds: seq<string>, session: Option<Session>): TrunkWalk {
    if ip in w.visited then w
    else if session.None? then TrunkWalk(w.visited + [ip], w.nodes + [RouterNode(ip, ip, false)], w.edges)
    else TrunkWalk(w.visited + [ip], w.nodes + [RouterNode(ip, ip, true)],
                   w.edges + TrunkEdges(ip, seeds, session.value.neighbors.rows))
  }

  /** The state once the IPs in `done` (a prefix of `seeds`) have been dequeued. */
  function TrunkWalked(seeds: seq<string>, done: seq<string>, sessions: string -> Option<Session>): TrunkWalk {
    if |done| == 0 then TrunkWalk([], [], [])
    else
      var ip := done[|done| - 1];
      TrunkVisit(TrunkWalked(seeds, done[..|done| - 1], sessions), ip, seeds, sessions(ip))
  }

  function TrunkTopology(seeds: seq<string>, sessions: string -> Option<Session>): Topology {
    var w := TrunkWalked(seeds, seeds, sessions);
    Topology(w.nodes, w.edges)
  }

  /** `e` is the edge from `ip` that some delivered neighbour row gives. */
  ghost predicate LinkedBy(ip: string, seeds: seq<string>, rows: seq<NeighborRow>, e: Edge) {
    exists n :: n in rows && TrunkEdgeOf(ip, seeds, n) == Some(e)
  }

  /** `e` is an edge of some reachable router among `done`. */
  ghost predicate TrunkEdgeFrom(seeds: seq<string>, done: seq<string>, sessions: string -> Option<Session>, e: Edge) {
    exists s :: s in done && sessions(s).Some? && LinkedBy(s, seeds, sessions(s).value.neighbors.rows, e)
  }

  /** A router's edges are exactly those its neighbour rows with a seed address give:
      each starts at the router, ends at a seed, and carries the row's interface. */
  lemma {:induction false} TrunkEdgesSpec(ip: string, seeds: seq<string>, rows: seq<NeighborRow>)
    ensures forall e :: e in TrunkEdges(ip, seeds, rows) <==> LinkedBy(ip, seeds, rows, e)
    ensures forall e :: e in TrunkEdges(ip, seeds, rows) ==> e.source == ip && e.target in seeds && e.kind.TrunkLink?
  {
    if |rows| > 0 {
      var p := rows[..|rows| - 1];
      TrunkEdgesSpec(ip, seeds, p);
      assert rows == p + [rows[|rows| - 1]];
      forall e | LinkedBy(ip, seeds, rows, e) ensures e in TrunkEdges(ip, seeds, rows) {
        var n :| n in rows && TrunkEdgeOf(ip, seeds, n) == Some(e);
        if n in p {
          assert LinkedBy(ip, seeds, p, e);
        }
      }
    }
  }

  /** The queue is only the seeds: `visited` is the distinct seeds dequeued so far in
      first-occurrence order, there is exactly one router node per distinct seed
      with `status` true iff its session opened, and the edges are exactly those of
      the reachable routers. */
  lemma {:induction false} TrunkWalkedSpec(seeds: seq<string>, done: seq<string>, sessions: string -> Option<Session>)
    ensures TrunkWalked(seeds, done, sessions).visited == Dedup(done)
    ensures TrunkWalked(seeds, done, sessions).nodes == RouterNodesFor(Dedup(done), Reachable(sessions))
    ensures forall e :: e in TrunkWalked(seeds, done, sessions).edges <==> TrunkEdgeFrom(seeds, done, sessions, e)
  {
    if |done| > 0 {
      var p, ip := done[..|done| - 1], done[|done| - 1];
      assert done == p + [ip];
      TrunkWalkedSpec(seeds, p, sessions);
      TrunkStep(seeds, p, ip, sessions, TrunkWalked(seeds, p, sessions));
    }
  }

  /** One dequeued seed keeps the guarantees of `TrunkWalkedSpec`. */
  lemma TrunkStep(seeds: seq<string>, p: seq<string>, ip: string, sessions: string -> Option<Session>, w: TrunkWalk)
    requires w.visited == Dedup(p) && w.nodes == RouterNodesFor(Dedup(p), Reachable(sessions))
    requires forall e :: e in w.edges <==> TrunkEdgeFrom(seeds, p, sessions, e)
    ensures var w' := TrunkVisit(w, ip, seeds, sessions(ip));
            && w'.visited == Dedup(p + [ip])
            && w'.nodes == RouterNodesFor(Dedup(p + [ip]), Reachable(sessions))
            && forall e :: e in w'.edges <==> TrunkEdgeFrom(seeds, p + [ip], sessions, e)
  {
    DedupSnoc(p, ip);
    DedupSpec(p);
    assert forall s :: s in p + [ip] <==> s in p || s == ip;
    if ip in w.visited {
      assert ip in Elems(p);
      forall e | TrunkEdgeFrom(seeds, p + [ip], sessions, e) ensures TrunkEdgeFrom(seeds, p, sessions, e) {
        var s :| s in p + [ip] && sessions(s).Some? && LinkedBy(s, seeds, sessions(s).value.neighbors.rows, e);
        assert s in p;
      }
    } else {
      RouterNodesForSnoc(Dedup(p), ip, Reachable(sessions));
      if sessions(ip).Some? {
        TrunkEdgesSpec(ip, seeds, sessions(ip).value.neighbors.rows);
      }
    }
  }

  /** Only router nodes, one per distinct seed in first-occurrence order; every edge
      runs from a reachable seed to a seed, so every endpoint is a node id. */
  lemma TrunkTopologySpec(seeds: seq<string>, sessions: string -> Option<Session>)
    ensures TrunkTopology(seeds, sessions).nodes == RouterNodesFor(Dedup(seeds), Reachable(sessions))
    ensures forall n :: n in TrunkTopology(seeds, sessions).nodes ==> n.RouterNode?
    ensures forall e :: e in TrunkTopology(seeds, sessions).edges ==>
              e.source in seeds && sessions(e.source).Some? && e.target in seeds && e.kind.TrunkLink?
    ensures Closed(TrunkTopology(seeds, sessions).nodes, TrunkTopology(seeds, sessions).edges)
  {
    TrunkWalkedSpec(seeds, seeds, sessions);
    DedupSpec(seeds);
    var t := TrunkTopology(seeds, sessions);
    var d := Dedup(seeds);
    forall e | e in t.edges
      ensures e.source in seeds && sessions(e.source).Some? && e.target in seeds && e.kind.TrunkLink?
    {
      assert TrunkEdgeFrom(seeds, seeds, sessions, e);
      var s :| s in seeds && sessions(s).Some? && LinkedBy(s, seeds, sessions(s).value.neighbors.rows, e);
      TrunkEdgesSpec(s, seeds, sessions(s).value.neighbors.rows);
    }
    assert Ids(t.nodes) == d;
    forall x | x in seeds ensures x in Ids(t.nodes) {
      assert x in Elems(seeds);
    }
  }

  /** `get_trunk_topology`. */
  method GetTrunkTopology(seeds: seq<string>, sessions: string -> Option<Session>) returns (topology: Topology)
    ensures topology == TrunkTopology(seeds, sessions)
    ensures topology.nodes == RouterNodesFor(Dedup(seeds), Reachable(sessions))
    ensures Closed(topology.nodes, topology.edges)
  {
    var nodes: seq<Node> := [];
    var edges: seq<Edge> := [];
    var visited: seq<string> := [];
    var queue := seeds;
    ghost var k := 0;
    while |queue| > 0
      invariant 0 <= k <= |seeds| && queue == seeds[k..]
      invariant TrunkWalk(visited, nodes, edges) == TrunkWalked(seeds, seeds[..k], sessions)
      decreases |queue|
    {
      var ip := queue[0];
      queue := queue[1..];
      assert seeds[..k + 1][..k] == seeds[..k] && seeds[k] == ip;
      k := k + 1;
      if ip in visited {
        continue;
      }
      visited := visited + [ip];
      var api := sessions(ip);
      nodes := nodes + [RouterNode(ip, ip, api.Some?)];
      if api.None? {
        continue;
      }
      var neigh := api.value.neighbors.rows;
      ghost var e0 := edges;
      for j := 0 to |neigh|
        invariant edges == e0 + TrunkEdges(ip, seeds, neigh[..j])
      {
        assert neigh[..j + 1][..j] == neigh[..j];
        var nbrIp := neigh[j].address;
        if nbrIp.Some? && nbrIp.value in seeds {
          edges := edges + [Edge(ip, nbrIp.value, TrunkLink(neigh[j].iface))];
        }
      }
      assert neigh[..|neigh|] == neigh;
    }
    assert seeds[..k] == seeds;
    topology := Topology(nodes, edges);
    TrunkTopologySpec(seeds, sessions);
  }
}
