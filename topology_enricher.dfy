/** Steps 1-4 of `get_enriched_topology` in app/services/topology_enricher.py: the
    discovered topology, the roster associated with the inventory, and every
    client node merged with the association whose `ip` is the node's id. */
module TopologyEnricher {
  import opened Common
  import opened Inventory
  import opened RouterApi
  import opened Graph
  import opened ClientService
  import opened DiscoveryService

  /** `{a["ip"]: a for a in associations}`: for each IP, the last association with
      that IP. */
  function AssocIndex(assocs: seq<Association>): map<string, Association> {
    if |assocs| == 0 then map[]
    else
      var a := assocs[|assocs| - 1];
      AssocIndex(assocs[..|assocs| - 1])[a.ip := a]
  }

  /** An IP is a key exactly when some association has it, and it maps to the last
      association with that IP, matched or not. */
  lemma {:induction false} AssocIndexLastWins(assocs: seq<Association>, ip: string)
    ensures ip in AssocIndex(assocs) <==> exists i :: 0 <= i < |assocs| && assocs[i].ip == ip
    ensures ip in AssocIndex(assocs) ==>
              exists i :: 0 <= i < |assocs| && assocs[i].ip == ip && AssocIndex(assocs)[ip] == assocs[i] &&
                          forall j :: i < j < |assocs| ==> assocs[j].ip != ip
  {
    if |assocs| > 0 {
      var n := |assocs|;
      var p := assocs[..n - 1];
      AssocIndexLastWins(p, ip);
      assert forall i :: 0 <= i < n - 1 ==> p[i] == assocs[i];
      if assocs[n - 1].ip != ip && ip in AssocIndex(assocs) {
        var i :| 0 <= i < n - 1 && p[i].ip == ip && AssocIndex(p)[ip] == p[i] &&
                 forall j :: i < j < n - 1 ==> p[j].ip != ip;
        assert assocs[i].ip == ip && AssocIndex(assocs)[ip] == assocs[i];
      }
    }
  }

  /** What the loop body makes of one node: a client node with an association for
      its id gets that association's fields; every other node is kept. */
  function EnrichedNode(n: Node, assocMap: map<string, Association>): Node {
    if n.ClientNode? && n.id in assocMap then ClientNode(n.id, n.caption, n.signal, Some(assocMap[n.id])) else n
  }

  function EnrichedNodes(nodes: seq<Node>, assocMap: map<string, Association>): seq<Node> {
    seq(|nodes|, i requires 0 <= i < |nodes| => EnrichedNode(nodes[i], assocMap))
  }

  /** Step 4: the node count and order are kept; no node changes its id, type or
      caption; only client nodes change, and a client node changes exactly when an
      association has its id, receiving that association. */
  method EnrichNodes(nodes: seq<Node>, assocMap: map<string, Association>) returns (enriched: seq<Node>)
    ensures enriched == EnrichedNodes(nodes, assocMap)
    ensures |enriched| == |nodes|
    ensures forall i :: 0 <= i < |nodes| ==>
              && enriched[i].id == nodes[i].id
              && enriched[i].Type() == nodes[i].Type()
              && enriched[i].caption == nodes[i].caption
              && (nodes[i].Type() != Client ==> enriched[i] == nodes[i])
              && (nodes[i].Type() == Client && nodes[i].id !in assocMap ==> enriched[i] == nodes[i])
              && (nodes[i].Type() == Client && nodes[i].id in assocMap ==>
                    enriched[i].merged == Some(assocMap[nodes[i].id]) && enriched[i].signal == nodes[i].signal)
  {
    enriched := [];
    for i := 0 to |nodes|
      invariant enriched == EnrichedNodes(nodes[..i], assocMap)
    {
      var node := nodes[i];
      if node.Type() == Client {
        if node.id in assocMap {
          node := ClientNode(node.id, node.caption, node.signal, Some(assocMap[node.id]));
        }
      }
      enriched := enriched + [node];
    }
    assert nodes[..|nodes|] == nodes;
  }

  /** The associations of the roster, one per row. */
  function Associations(rows: seq<Row>, devices: seq<Device>, threshold: real, sim: (string, string) -> Ratio): seq<Association> {
    var ix := IndicesOf(devices);
    seq(|rows|, i requires 0 <= i < |rows| => EntryOf(rows[i], ix, threshold, sim))
  }

  /** Steps 1-4 of `get_enriched_topology`, at the default fuzzy threshold. Both
      inventory reads see the same device list. */
  method GetEnrichedTopology(seeds: seq<string>, sessions: string -> Option<Session>, devices: seq<Device>,
                             rows: seq<Row>, sim: (string, string) -> Ratio)
    returns (topology: Topology)
    ensures topology.edges == Discovered(seeds, sessions, devices).edges
    ensures topology.nodes ==
            EnrichedNodes(Discovered(seeds, sessions, devices).nodes, AssocIndex(Associations(rows, devices, DefaultFuzzyThreshold, sim)))
  {
    var discovered, _, _ := DiscoverTopology(seeds, sessions, devices);
    var associations := AssociateClientsToDevices(rows, devices, DefaultFuzzyThreshold, sim);
    assert associations == Associations(rows, devices, DefaultFuzzyThreshold, sim);
    var assocMap := AssocIndex(associations);
    var nodes := EnrichNodes(discovered.nodes, assocMap);
    topology := Topology(nodes, discovered.edges);
  }

  /** A client node whose id is the IP of some roster row ends up with the entry of
      the LAST such row, whether that entry is matched or not; a client node no row
      names is left as it was. */
  lemma EnrichedFromRoster(nodes: seq<Node>, rows: seq<Row>, devices: seq<Device>, threshold: real,
                           sim: (string, string) -> Ratio, k: nat)
    requires k < |nodes| && nodes[k].ClientNode?
    ensures var assocs := Associations(rows, devices, threshold, sim);
            var r := EnrichedNodes(nodes, AssocIndex(assocs))[k];
            && ((exists i :: 0 <= i < |rows| && ClientIp(rows[i]) == nodes[k].id) ==>
                  exists i :: 0 <= i < |rows| && ClientIp(rows[i]) == nodes[k].id && r.merged == Some(assocs[i]) &&
                              forall j :: i < j < |rows| ==> ClientIp(rows[j]) != nodes[k].id)
            && ((forall i :: 0 <= i < |rows| ==> ClientIp(rows[i]) != nodes[k].id) ==> r == nodes[k])
  {
    var assocs := Associations(rows, devices, threshold, sim);
    AssocIndexLastWins(assocs, nodes[k].id);
    assert forall i :: 0 <= i < |rows| ==> assocs[i].ip == ClientIp(rows[i]);
  }
}
