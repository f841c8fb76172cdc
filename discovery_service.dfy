/** The topology discoverer of app/services/discovery_service.py. The seed list is
    drained in order; each new IP is probed once: it gets a router node, and when
    a session opens, its degraded running ports, its LLDP/CDP neighbours and its
    clients (queue targets and ARP entries) are added. A second pass over the
    inventory links APs to their clients. Database upserts and alarms are kept
    as an event log in the order they are issued. */
module DiscoveryService {
  import opened Common
  import opened Inventory
  import opened RouterApi
  import opened Graph

  /** `DEGRADED_SPEEDS`: link speeds reported as a degraded link. */
  const DegradedSpeeds: set<string> := {"10Mbps", "10M"}

  /** The upserts into `topologia` (timestamps left out) and the raised alarms. */
  datatype Event =
    | UpsertRouter(ip: string)
    | UpsertPort(ip: string, port: Option<string>, linkSpeed: Option<string>)
    | UpsertNeighbor(ip: string, nombre: string)
    | UpsertClient(ip: string, nombre: string, signal: Option<int>)
    | UpsertAp(ip: string, nombre: string)
    | Alarm(severity: string, message: string)

  /** The traversal state: the `visited` set (as the sequence of IPs added to it),
      the node and edge lists, and the event log. */
  datatype Walk = Walk(visited: seq<string>, nodes: seq<Node>, edges: seq<Edge>, events: seq<Event>)

  // ---------------------------------------------------------------- _interface_details

  datatype InterfaceDetail = InterfaceDetail(name: Option<string>, running: bool, linkSpeed: Option<string>, degraded: bool)

  function DetailOf(row: InterfaceRow): InterfaceDetail {
    InterfaceDetail(row.name, row.running == Some("true"), row.linkSpeed,
                    row.linkSpeed.Some? && row.linkSpeed.value in DegradedSpeeds)
  }

  function Details(rows: seq<InterfaceRow>): seq<InterfaceDetail> {
    seq(|rows|, i requires 0 <= i < |rows| => DetailOf(rows[i]))
  }

  /** One detail per ethernet row delivered, in order; a failing query keeps the
      rows delivered before it failed. */
  method InterfaceDetails(eth: Reply<InterfaceRow>) returns (details: seq<InterfaceDetail>)
    ensures |details| == |eth.rows|
    ensures forall i :: 0 <= i < |details| ==>
              details[i].name == eth.rows[i].name && details[i].linkSpeed == eth.rows[i].linkSpeed &&
              (details[i].running <==> eth.rows[i].running == Some("true")) &&
              (details[i].degraded <==> eth.rows[i].linkSpeed.Some? && eth.rows[i].linkSpeed.value in DegradedSpeeds)
    ensures details == Details(eth.rows)
  {
    details := [];
    for i := 0 to |eth.rows|
      invariant |details| == i
      invariant forall k :: 0 <= k < i ==> details[k] == DetailOf(eth.rows[k])
    {
      var inf := eth.rows[i];
      details := details + [InterfaceDetail(inf.name, inf.running == Some("true"), inf.linkSpeed,
                                            inf.linkSpeed.Some? && inf.linkSpeed.value in DegradedSpeeds)];
    }
  }

  // ---------------------------------------------------------------- _discover_switch_neighbors

  datatype Neighbor = Neighbor(address: string, identity: Option<string>, iface: Option<string>)

  /** The neighbour rows with a non-empty address, in order. */
  function NeighborsOf(rows: seq<NeighborRow>): seq<Neighbor> {
    if |rows| == 0 then []
    else
      var n := rows[|rows| - 1];
      NeighborsOf(rows[..|rows| - 1]) +
      (if Truthy(n.address) then [Neighbor(n.address.value, n.identity, n.iface)] else [])
  }

  /** A neighbour is reported exactly for each row with a non-empty address, carrying
      that row's identity and interface. */
  lemma {:induction false} NeighborsOfSpec(rows: seq<NeighborRow>)
    ensures |NeighborsOf(rows)| <= |rows|
    ensures forall n :: n in NeighborsOf(rows) <==>
              exists i :: 0 <= i < |rows| && Truthy(rows[i].address) &&
                          n == Neighbor(rows[i].address.value, rows[i].identity, rows[i].iface)
  {
    if |rows| > 0 {
      var p := rows[..|rows| - 1];
      NeighborsOfSpec(p);
      assert forall i :: 0 <= i < |p| ==> p[i] == rows[i];
    }
  }

  method SwitchNeighbors(reply: Reply<NeighborRow>) returns (neighbors: seq<Neighbor>)
    ensures neighbors == NeighborsOf(reply.rows)
  {
    neighbors := [];
    for i := 0 to |reply.rows|
      invariant neighbors == NeighborsOf(reply.rows[..i])
    {
      var n := reply.rows[i];
      assert reply.rows[..i + 1][..i] == reply.rows[..i];
      if n.address.Some? && n.address.value != "" {
        neighbors := neighbors + [Neighbor(n.address.value, n.identity, n.iface)];
      }
    }
    assert reply.rows[..|reply.rows|] == reply.rows;
  }

  // ---------------------------------------------------------------- _discover_clients_from_router

  /** A queue counts when its target is non-empty and not the default route. */
  predicate CountsTarget(q: QueueRow) {
    Truthy(q.target) && q.target.value != "0.0.0.0/0"
  }

  /** The hosts a target names: each comma-separated part, cut at its first "/". */
  function TargetHosts(target: string): seq<string> {
    var parts := Split(target, ',');
    seq(|parts|, j requires 0 <= j < |parts| => Split(parts[j], '/')[0])
  }

  /** Every host named by a counting queue, in scan order. */
  function QueueHosts(rows: seq<QueueRow>): seq<string> {
    if |rows| == 0 then []
    else
      var q := rows[|rows| - 1];
      QueueHosts(rows[..|rows| - 1]) + (if CountsTarget(q) then TargetHosts(q.target.value) else [])
  }

  /** Every non-empty ARP address, in scan order. */
  function ArpHosts(rows: seq<ArpRow>): seq<string> {
    if |rows| == 0 then []
    else
      var a := rows[|rows| - 1];
      ArpHosts(rows[..|rows| - 1]) + (if Truthy(a.address) then [a.address.value] else [])
  }

  function WithoutEmpty(s: seq<string>): seq<string> {
    if |s| == 0 then []
    else WithoutEmpty(s[..|s| - 1]) + (if s[|s| - 1] != "" then [s[|s| - 1]] else [])
  }

  /** The client set, as its elements in first-insertion order. */
  function ClientIps(s: Session): seq<string> {
    WithoutEmpty(Dedup(QueueHosts(s.queues.rows) + ArpHosts(s.arp.rows)))
  }

  ghost predicate NamedByQueue(rows: seq<QueueRow>, x: string) {
    exists i :: 0 <= i < |rows| && CountsTarget(rows[i]) && x in TargetHosts(rows[i].target.value)
  }

  ghost predicate NamedByArp(rows: seq<ArpRow>, x: string) {
    exists i :: 0 <= i < |rows| && rows[i].address == Some(x)
  }

  lemma {:induction false} QueueHostsSpec(rows: seq<QueueRow>)
    ensures forall x :: x in QueueHosts(rows) <==> NamedByQueue(rows, x)
  {
    if |rows| > 0 {
      var p := rows[..|rows| - 1];
      QueueHostsSpec(p);
      assert forall i :: 0 <= i < |p| ==> p[i] == rows[i];
      forall x | NamedByQueue(rows, x) && !NamedByQueue(p, x)
        ensures CountsTarget(rows[|rows| - 1]) && x in TargetHosts(rows[|rows| - 1].target.value)
      {
      }
    }
  }

  lemma {:induction false} ArpHostsSpec(rows: seq<ArpRow>)
    ensures forall x :: x in ArpHosts(rows) <==> x != "" && NamedByArp(rows, x)
  {
    if |rows| > 0 {
      var p := rows[..|rows| - 1];
      ArpHostsSpec(p);
      assert forall i :: 0 <= i < |p| ==> p[i] == rows[i];
    }
  }

  lemma {:induction false} WithoutEmptySpec(s: seq<string>)
    ensures forall x :: x in WithoutEmpty(s) <==> x in s && x != ""
    ensures NoDup(s) ==> NoDup(WithoutEmpty(s))
  {
    if |s| > 0 {
      var p := s[..|s| - 1];
      WithoutEmptySpec(p);
      assert s == p + [s[|s| - 1]];
      if NoDup(s) {
        assert NoDup(p);
        assert s[|s| - 1] !in p;
      }
    }
  }

  /** The client IPs are duplicate-free, never empty strings, and exactly the hosts
      named by a counting queue target or by an ARP entry. */
  lemma ClientIpsSpec(s: Session)
    ensures NoDup(ClientIps(s))
    ensures "" !in ClientIps(s)
    ensures forall x :: x in ClientIps(s) <==>
              x != "" && (NamedByQueue(s.queues.rows, x) || NamedByArp(s.arp.rows, x))
  {
    var all := QueueHosts(s.queues.rows) + ArpHosts(s.arp.rows);
    DedupSpec(all);
    WithoutEmptySpec(Dedup(all));
    QueueHostsSpec(s.queues.rows);
    ArpHostsSpec(s.arp.rows);
    assert forall x :: x in Dedup(all) <==> x in Elems(all);
  }

  /** Dedup over a growing prefix gains the next element exactly when it is new. */
  lemma SnocStep(before: seq<string>, hosts: seq<string>, j: nat)
    requires j < |hosts|
    ensures Dedup(before + hosts[..j + 1]) ==
            if hosts[j] in Dedup(before + hosts[..j]) then Dedup(before + hosts[..j]) else Dedup(before + hosts[..j]) + [hosts[j]]
  {
    assert before + hosts[..j + 1] == before + hosts[..j] + [hosts[j]];
    DedupSnoc(before + hosts[..j], hosts[j]);
  }

  /** The inner loop over one queue target: each part's host is added to the set. */
  method AddTargetHosts(seen: seq<string>, ghost before: seq<string>, target: string) returns (seen': seq<string>)
    requires seen == Dedup(before)
    ensures seen' == Dedup(before + TargetHosts(target))
  {
    seen' := seen;
    var parts := Split(target, ',');
    ghost var hosts := TargetHosts(target);
    assert before + hosts[..0] == before;
    for j := 0 to |parts|
      invariant seen' == Dedup(before + hosts[..j])
    {
      var ip := Split(parts[j], '/')[0];
      SnocStep(before, hosts, j);
      if ip !in seen' {
        seen' := seen' + [ip];
      }
    }
    assert hosts[..|parts|] == hosts;
  }

  /** `_discover_clients_from_router`: the queue scan, the ARP scan, then the set
      without its empty member. */
  method ClientsFromRouter(s: Session) returns (ips: seq<string>)
    ensures ips == ClientIps(s)
  {
    var seen := ScanQueues(s.queues.rows);
    seen := ScanArp(seen, QueueHosts(s.queues.rows), s.arp.rows);
    ips := DropEmpty(seen);
  }

  /** The loop over `/queue/simple`. */
  method ScanQueues(queues: seq<QueueRow>) returns (seen: seq<string>)
    ensures seen == Dedup(QueueHosts(queues))
  {
    seen := [];
    for i := 0 to |queues|
      invariant seen == Dedup(QueueHosts(queues[..i]))
    {
      var q := queues[i];
      QueueStep(queues, i);
      if q.target.Some? && q.target.value != "" && q.target.value != "0.0.0.0/0" {
        seen := AddTargetHosts(seen, QueueHosts(queues[..i]), q.target.value);
      }
    }
    assert queues[..|queues|] == queues;
  }

  lemma QueueStep(queues: seq<QueueRow>, i: nat)
    requires i < |queues|
    ensures QueueHosts(queues[..i + 1]) ==
            if CountsTarget(queues[i]) then QueueHosts(queues[..i]) + TargetHosts(queues[i].target.value)
            else QueueHosts(queues[..i])
  {
    assert queues[..i + 1][..i] == queues[..i];
  }

  /** The loop over `/ip/arp`, adding to the queue scan's set. */
  method ScanArp(seen0: seq<string>, ghost before: seq<string>, arp: seq<ArpRow>) returns (seen: seq<string>)
    requires seen0 == Dedup(before)
    ensures seen == Dedup(before + ArpHosts(arp))
  {
    seen := seen0;
    assert before + ArpHosts(arp[..0]) == before;
    for i := 0 to |arp|
      invariant seen == Dedup(before + ArpHosts(arp[..i]))
    {
      var entry := arp[i];
      ArpStep(before, arp, i);
      if entry.address.Some? && entry.address.value != "" {
        if entry.address.value !in seen {
          seen := seen + [entry.address.value];
        }
      }
    }
    assert arp[..|arp|] == arp;
  }

  lemma ArpStep(before: seq<string>, arp: seq<ArpRow>, i: nat)
    requires i < |arp|
    ensures var x := Dedup(before + ArpHosts(arp[..i]));
            Dedup(before + ArpHosts(arp[..i + 1])) ==
            if Truthy(arp[i].address) && arp[i].address.value !in x then x + [arp[i].address.value] else x
  {
    assert arp[..i + 1][..i] == arp[..i];
    if Truthy(arp[i].address) {
      assert before + ArpHosts(arp[..i + 1]) == before + ArpHosts(arp[..i]) + [arp[i].address.value];
      DedupSnoc(before + ArpHosts(arp[..i]), arp[i].address.value);
    } else {
      assert before + ArpHosts(arp[..i + 1]) == before + ArpHosts(arp[..i]);
    }
  }

  /** `clients.discard("")`. */
  method DropEmpty(seen: seq<string>) returns (ips: seq<string>)
    ensures ips == WithoutEmpty(seen)
  {
    ips := [];
    for i := 0 to |seen|
      invariant ips == WithoutEmpty(seen[..i])
    {
      assert seen[..i + 1][..i] == seen[..i];
      if seen[i] != "" {
        ips := ips + [seen[i]];
      }
    }
    assert seen[..|seen|] == seen;
  }

  // ---------------------------------------------------------------- degraded ports

  predicate Flagged(d: InterfaceDetail) {
    d.running && d.degraded
  }

  function PortId(ip: string, d: InterfaceDetail): string {
    ip + ":" + Text(d.name)
  }

  function PortNodeFor(ip: string, d: InterfaceDetail): Node {
    PortNode(PortId(ip, d), Text(d.name) + " (" + Text(d.linkSpeed) + ")", d.linkSpeed)
  }

  function PortEdgeFor(ip: string, d: InterfaceDetail): Edge {
    Edge(ip, PortId(ip, d), PortLink(d.linkSpeed))
  }

  function AlarmFor(ip: string, d: InterfaceDetail): Event {
    Alarm("warning", "Enlace degradado a " + Text(d.linkSpeed) + " en " + ip + " interfaz " + Text(d.name))
  }

  function PortNodes(ip: string, ds: seq<InterfaceDetail>): seq<Node> {
    if |ds| == 0 then []
    else PortNodes(ip, ds[..|ds| - 1]) + (if Flagged(ds[|ds| - 1]) then [PortNodeFor(ip, ds[|ds| - 1])] else [])
  }

  function PortEdges(ip: string, ds: seq<InterfaceDetail>): seq<Edge> {
    if |ds| == 0 then []
    else PortEdges(ip, ds[..|ds| - 1]) + (if Flagged(ds[|ds| - 1]) then [PortEdgeFor(ip, ds[|ds| - 1])] else [])
  }

  function PortEvents(ip: string, ds: seq<InterfaceDetail>): seq<Event> {
    if |ds| == 0 then []
    else
      var d := ds[|ds| - 1];
      PortEvents(ip, ds[..|ds| - 1]) + (if Flagged(d) then [AlarmFor(ip, d), UpsertPort(ip, d.name, d.linkSpeed)] else [])
  }

  /** The port loop: every flagged interface adds its node, its edge, an alarm and an
      upsert; nothing else changes. */
  function WithPorts(w: Walk, ip: string, ds: seq<InterfaceDetail>): Walk {
    Walk(w.visited, w.nodes + PortNodes(ip, ds), w.edges + PortEdges(ip, ds), w.events + PortEvents(ip, ds))
  }

  /** A port node exists exactly for each running interface with a degraded link
      speed. */
  lemma {:induction false} PortNodesSpec(ip: string, ds: seq<InterfaceDetail>)
    ensures forall p :: p in PortNodes(ip, ds) <==>
              exists j :: 0 <= j < |ds| && Flagged(ds[j]) && p == PortNodeFor(ip, ds[j])
  {
    if |ds| > 0 {
      var p := ds[..|ds| - 1];
      PortNodesSpec(ip, p);
      assert forall j :: 0 <= j < |p| ==> p[j] == ds[j];
    }
  }

  /** The k-th port edge joins the router to the k-th port node, marked degraded with
      that port's link speed. */
  lemma {:induction false} PortEdgesSpec(ip: string, ds: seq<InterfaceDetail>)
    ensures |PortEdges(ip, ds)| == |PortNodes(ip, ds)|
    ensures forall k :: 0 <= k < |PortNodes(ip, ds)| ==>
              && PortNodes(ip, ds)[k].PortNode?
              && PortEdges(ip, ds)[k] == Edge(ip, PortNodes(ip, ds)[k].id, PortLink(PortNodes(ip, ds)[k].linkSpeed))
  {
    if |ds| > 0 {
      PortEdgesSpec(ip, ds[..|ds| - 1]);
    }
  }

  /** A warning alarm is raised exactly for each flagged interface. */
  lemma {:induction false} PortAlarmsSpec(ip: string, ds: seq<InterfaceDetail>)
    ensures forall e :: e in PortEvents(ip, ds) && e.Alarm? <==>
              exists j :: 0 <= j < |ds| && Flagged(ds[j]) && e == AlarmFor(ip, ds[j])
  {
    if |ds| > 0 {
      var p := ds[..|ds| - 1];
      PortAlarmsSpec(ip, p);
      assert forall j :: 0 <= j < |p| ==> p[j] == ds[j];
    }
  }

  lemma {:induction false} PortRouters(ip: string, ds: seq<InterfaceDetail>)
    ensures Routers(PortNodes(ip, ds)) == []
  {
    if |ds| > 0 {
      var p := ds[..|ds| - 1];
      PortRouters(ip, p);
      var last: seq<Node> := if Flagged(ds[|ds| - 1]) then [PortNodeFor(ip, ds[|ds| - 1])] else [];
      RoutersAppend(PortNodes(ip, p), last);
      assert Routers(last) == [] by {
        if |last| == 1 {
          assert last[..0] == [];
        }
      }
    }
  }

  method ProbePorts(w0: Walk, ip: string, details: seq<InterfaceDetail>) returns (w: Walk)
    ensures w == WithPorts(w0, ip, details)
  {
    var nodes, edges, events := w0.nodes, w0.edges, w0.events;
    for j := 0 to |details|
      invariant nodes == w0.nodes + PortNodes(ip, details[..j])
      invariant edges == w0.edges + PortEdges(ip, details[..j])
      invariant events == w0.events + PortEvents(ip, details[..j])
    {
      var inf := details[j];
      assert details[..j + 1][..j] == details[..j];
      if inf.running && inf.degraded {
        var portId := ip + ":" + Text(inf.name);
        nodes := nodes + [PortNode(portId, Text(inf.name) + " (" + Text(inf.linkSpeed) + ")", inf.linkSpeed)];
        edges := edges + [Edge(ip, portId, PortLink(inf.linkSpeed))];
        events := events + [AlarmFor(ip, inf), UpsertPort(ip, inf.name, inf.linkSpeed)];
      }
    }
    assert details[..|details|] == details;
    w := Walk(w0.visited, nodes, edges, events);
  }

  // ---------------------------------------------------------------- neighbours and clients

  /** What one neighbour or client adds: a node and its upsert when no node has that
      id yet, and the edge in every case. */
  datatype Addition = Addition(node: Node, upsert: Event, edge: Edge)

  function AddStep(w: Walk, a: Addition): Walk {
    var w1 := if a.node.id in Ids(w.nodes) then w else Walk(w.visited, w.nodes + [a.node], w.edges, w.events + [a.upsert]);
    Walk(w1.visited, w1.nodes, w1.edges + [a.edge], w1.events)
  }

  function AddAll(w: Walk, adds: seq<Addition>): Walk {
    if |adds| == 0 then w else AddStep(AddAll(w, adds[..|adds| - 1]), adds[|adds| - 1])
  }

  function EdgesOf(adds: seq<Addition>): seq<Edge> {
    seq(|adds|, i requires 0 <= i < |adds| => adds[i].edge)
  }

  /** Appending with the id check changes neither `visited` nor anything already in
      the lists, and appends every addition's edge. */
  lemma {:induction false} AddAllEdges(w: Walk, adds: seq<Addition>)
    ensures AddAll(w, adds).visited == w.visited
    ensures AddAll(w, adds).edges == w.edges + EdgesOf(adds)
    ensures w.nodes <= AddAll(w, adds).nodes
  {
    if |adds| > 0 {
      var p := adds[..|adds| - 1];
      AddAllEdges(w, p);
      assert EdgesOf(adds) == EdgesOf(p) + [adds[|adds| - 1].edge];
    }
  }

  /** Every appended node is one of the additions' and its id was absent when it was
      appended; every addition's id is present afterwards. */
  lemma {:induction false} AddAllFresh(w: Walk, adds: seq<Addition>)
    ensures var w' := AddAll(w, adds);
            && (forall k :: |w.nodes| <= k < |w'.nodes| ==>
                  w'.nodes[k].id !in Ids(w'.nodes[..k]) && exists a :: a in adds && w'.nodes[k] == a.node)
            && (forall a :: a in adds ==> a.node.id in Ids(w'.nodes))
  {
    if |adds| > 0 {
      var p := adds[..|adds| - 1];
      var a := adds[|adds| - 1];
      AddAllFresh(w, p);
      AddAllEdges(w, p);
      var v := AddAll(w, p);
      var v' := AddAll(w, adds);
      assert forall b :: b in p ==> b in adds;
      if a.node.id !in Ids(v.nodes) {
        IdsAppend(v.nodes, [a.node]);
        assert v'.nodes[..|v.nodes|] == v.nodes;
      }
      forall k | |w.nodes| <= k < |v'.nodes|
        ensures v'.nodes[k].id !in Ids(v'.nodes[..k]) && exists b :: b in adds && v'.nodes[k] == b.node
      {
        if k < |v.nodes| {
          assert v'.nodes[..k] == v.nodes[..k];
          assert v'.nodes[k] == v.nodes[k];
        } else {
          assert v'.nodes[..k] == v.nodes;
        }
      }
    }
  }

  /** Node ids are only ever added. */
  lemma IdsGrow(a: seq<Node>, b: seq<Node>)
    requires a <= b
    ensures forall x :: x in Ids(a) ==> x in Ids(b)
  {
    assert a + b[|a|..] == b;
    IdsAppend(a, b[|a|..]);
  }

  lemma {:induction false} AddAllRouters(w: Walk, adds: seq<Addition>)
    requires forall a :: a in adds ==> !a.node.RouterNode?
    ensures Routers(AddAll(w, adds).nodes) == Routers(w.nodes)
  {
    if |adds| > 0 {
      var p := adds[..|adds| - 1];
      var a := adds[|adds| - 1];
      AddAllRouters(w, p);
      var v := AddAll(w, p);
      if a.node.id !in Ids(v.nodes) {
        RoutersAppend(v.nodes, [a.node]);
        assert Routers([a.node]) == [] by {
          assert [a.node][..0] == [];
        }
      }
    }
  }

  /** Edges whose target is their node's id and whose source is already a node keep
      every endpoint a node id. */
  lemma {:induction false} AddAllClosed(w: Walk, adds: seq<Addition>)
    requires Closed(w.nodes, w.edges)
    requires forall a :: a in adds ==> a.edge.target == a.node.id && a.edge.source in Ids(w.nodes)
    ensures Closed(AddAll(w, adds).nodes, AddAll(w, adds).edges)
  {
    if |adds| > 0 {
      var p := adds[..|adds| - 1];
      var a := adds[|adds| - 1];
      assert forall b :: b in p ==> b in adds;
      AddAllClosed(w, p);
      AddAllEdges(w, p);
      AddAllFresh(w, adds);
      var v := AddAll(w, p);
      var v' := AddAll(w, adds);
      IdsGrow(w.nodes, v.nodes);
      AddAllEdges(w, adds);
      IdsGrow(v.nodes, v'.nodes);
    }
  }

  function NeighborAddition(ip: string, n: Neighbor): Addition {
    var caption := OrText(n.identity, n.address);
    Addition(NeighborNode(n.address, caption), UpsertNeighbor(n.address, caption), Edge(ip, n.address, NeighborLink(n.iface)))
  }

  function NeighborAdditions(ip: string, ns: seq<Neighbor>): seq<Addition> {
    seq(|ns|, i requires 0 <= i < |ns| => NeighborAddition(ip, ns[i]))
  }

  /** `dev["identification"]["name"] if dev else c_ip`. */
  function ClientCaption(c: string, ipToUisp: map<string, Device>): string {
    if c in ipToUisp then ipToUisp[c].identification.name else c
  }

  /** `dev.get("rssi") if dev else None`. */
  function ClientSignal(c: string, ipToUisp: map<string, Device>): Option<int> {
    if c in ipToUisp then ipToUisp[c].rssi else None
  }

  function ClientAddition(ip: string, c: string, ipToUisp: map<string, Device>): Addition {
    Addition(ClientNode(c, ClientCaption(c, ipToUisp), ClientSignal(c, ipToUisp), None),
             UpsertClient(c, ClientCaption(c, ipToUisp), ClientSignal(c, ipToUisp)),
             Edge(ip, c, Plain))
  }

  function ClientAdditions(ip: string, cs: seq<string>, ipToUisp: map<string, Device>): seq<Addition> {
    seq(|cs|, i requires 0 <= i < |cs| => ClientAddition(ip, cs[i], ipToUisp))
  }

  /** A client node is captioned with the name of the LAST inventory device with that
      IP and carries its `rssi`; with no such device it is captioned with the IP and
      has no signal. */
  lemma ClientFromInventory(devices: seq<Device>, c: string)
    ensures (exists i :: 0 <= i < |devices| && IpKey(devices[i]) == Some(c)) ==>
              exists i :: 0 <= i < |devices| && IpKey(devices[i]) == Some(c) &&
                          (forall j :: i < j < |devices| ==> IpKey(devices[j]) != Some(c)) &&
                          ClientCaption(c, Index(devices, IpKey)) == devices[i].identification.name &&
                          ClientSignal(c, Index(devices, IpKey)) == devices[i].rssi
    ensures (forall i :: 0 <= i < |devices| ==> IpKey(devices[i]) != Some(c)) ==>
              ClientCaption(c, Index(devices, IpKey)) == c && ClientSignal(c, Index(devices, IpKey)).None?
  {
    IndexLastWins(devices, IpKey, c);
  }

  method ProbeNeighbors(w0: Walk, ip: string, neighbors: seq<Neighbor>) returns (w: Walk)
    ensures w == AddAll(w0, NeighborAdditions(ip, neighbors))
  {
    ghost var adds := NeighborAdditions(ip, neighbors);
    w := w0;
    for j := 0 to |neighbors|
      invariant w == AddAll(w0, adds[..j])
    {
      assert adds[..j + 1][..j] == adds[..j];
      var neigh := neighbors[j];
      var neighborIp := neigh.address;
      if neighborIp !in Ids(w.nodes) {
        w := Walk(w.visited, w.nodes + [NeighborNode(neighborIp, OrText(neigh.identity, neighborIp))], w.edges,
                  w.events + [UpsertNeighbor(neighborIp, OrText(neigh.identity, neighborIp))]);
      }
      w := Walk(w.visited, w.nodes, w.edges + [Edge(ip, neighborIp, NeighborLink(neigh.iface))], w.events);
    }
    assert adds[..|neighbors|] == adds;
  }

  method ProbeClients(w0: Walk, ip: string, clientIps: seq<string>, ipToUisp: map<string, Device>) returns (w: Walk)
    ensures w == AddAll(w0, ClientAdditions(ip, clientIps, ipToUisp))
  {
    ghost var adds := ClientAdditions(ip, clientIps, ipToUisp);
    w := w0;
    for j := 0 to |clientIps|
      invariant w == AddAll(w0, adds[..j])
    {
      assert adds[..j + 1][..j] == adds[..j];
      var cIp := clientIps[j];
      if cIp !in Ids(w.nodes) {
        var caption := if cIp in ipToUisp then ipToUisp[cIp].identification.name else cIp;
        var signal := if cIp in ipToUisp then ipToUisp[cIp].rssi else None;
        w := Walk(w.visited, w.nodes + [ClientNode(cIp, caption, signal, None)], w.edges,
                  w.events + [UpsertClient(cIp, caption, signal)]);
      }
      w := Walk(w.visited, w.nodes, w.edges + [Edge(ip, cIp, Plain)], w.events);
    }
    assert adds[..|clientIps|] == adds;
  }

  // ---------------------------------------------------------------- the traversal

  /** Everything an open session adds for router `ip`. */
  function Probe(w: Walk, ip: string, s: Session, ipToUisp: map<string, Device>): Walk {
    var w1 := WithPorts(w, ip, Details(s.ethernet.rows));
    var w2 := AddAll(w1, NeighborAdditions(ip, NeighborsOf(s.neighbors.rows)));
    AddAll(w2, ClientAdditions(ip, ClientIps(s), ipToUisp))
  }

  /** One dequeued IP: skipped when visited; otherwise marked visited, given a router
      node and an upsert, and probed when its session opened. */
  function Visit(w: Walk, ip: string, session: Option<Session>, ipToUisp: map<string, Device>): Walk {
    if ip in w.visited then w
    else
      var w1 := Marked(w, ip, session.Some?);
      if session.None? then w1 else Probe(w1, ip, session.value, ipToUisp)
  }

  /** `visited.add(ip)`, the router node with its status, and its upsert. */
  function Marked(w: Walk, ip: string, status: bool): Walk {
    Walk(w.visited + [ip], w.nodes + [RouterNode(ip, ip, status)], w.edges, w.events + [UpsertRouter(ip)])
  }

  /** The state once the seeds have been drained in order. */
  function Walked(seeds: seq<string>, sessions: string -> Option<Session>, ipToUisp: map<string, Device>): Walk {
    if |seeds| == 0 then Walk([], [], [], [])
    else
      var ip := seeds[|seeds| - 1];
      Visit(Walked(seeds[..|seeds| - 1], sessions, ipToUisp), ip, sessions(ip), ipToUisp)
  }

  /** What the traversal guarantees, for the seeds drained so far. */
  ghost predicate WalkInvariant(w: Walk, seeds: seq<string>, sessions: string -> Option<Session>) {
    && w.visited == Dedup(seeds)
    && Routers(w.nodes) == RouterNodesFor(Dedup(seeds), Reachable(sessions))
    && (forall e :: e in w.edges ==> e.source in seeds && sessions(e.source).Some?)
    && Closed(w.nodes, w.edges)
  }

  /** What a phase of `Probe` keeps, for the router `ip` it probes. */
  ghost predicate PhaseKeeps(w: Walk, w': Walk, ip: string) {
    && w'.visited == w.visited
    && Routers(w'.nodes) == Routers(w.nodes)
    && (forall e :: e in w'.edges ==> e in w.edges || e.source == ip)
    && (ip in Ids(w.nodes) ==> ip in Ids(w'.nodes))
    && (ip in Ids(w.nodes) && Closed(w.nodes, w.edges) ==> Closed(w'.nodes, w'.edges))
  }

  lemma PortPhase(w: Walk, ip: string, ds: seq<InterfaceDetail>)
    ensures PhaseKeeps(w, WithPorts(w, ip, ds), ip)
  {
    var w1 := WithPorts(w, ip, ds);
    PortRouters(ip, ds);
    RoutersAppend(w.nodes, PortNodes(ip, ds));
    IdsGrow(w.nodes, w1.nodes);
    PortEdgesSpec(ip, ds);
    if ip in Ids(w.nodes) && Closed(w.nodes, w.edges) {
      PortsClosed(w, ip, ds);
    }
  }

  lemma AddPhase(w: Walk, ip: string, adds: seq<Addition>)
    requires forall a :: a in adds ==> !a.node.RouterNode? && a.edge.source == ip && a.edge.target == a.node.id
    ensures PhaseKeeps(w, AddAll(w, adds), ip)
  {
    var w' := AddAll(w, adds);
    AddAllEdges(w, adds);
    AddAllRouters(w, adds);
    IdsGrow(w.nodes, w'.nodes);
    forall e | e in w'.edges ensures e in w.edges || e.source == ip {
      if e !in w.edges {
        var k :| 0 <= k < |adds| && EdgesOf(adds)[k] == e;
        assert adds[k] in adds;
      }
    }
    if ip in Ids(w.nodes) && Closed(w.nodes, w.edges) {
      AddAllClosed(w, adds);
    }
  }

  lemma ProbeSpec(w: Walk, ip: string, s: Session, ipToUisp: map<string, Device>)
    ensures PhaseKeeps(w, Probe(w, ip, s, ipToUisp), ip)
  {
    var w1 := WithPorts(w, ip, Details(s.ethernet.rows));
    PortPhase(w, ip, Details(s.ethernet.rows));
    var ns := NeighborAdditions(ip, NeighborsOf(s.neighbors.rows));
    var w2 := AddAll(w1, ns);
    AddPhase(w1, ip, ns);
    var cs := ClientAdditions(ip, ClientIps(s), ipToUisp);
    AddPhase(w2, ip, cs);
  }

  lemma PortsClosed(w: Walk, ip: string, ds: seq<InterfaceDetail>)
    requires ip in Ids(w.nodes) && Closed(w.nodes, w.edges)
    ensures Closed(WithPorts(w, ip, ds).nodes, WithPorts(w, ip, ds).edges)
  {
    var pn, pe := PortNodes(ip, ds), PortEdges(ip, ds);
    var nodes := w.nodes + pn;
    PortEdgesSpec(ip, ds);
    IdsGrow(w.nodes, nodes);
    forall e | e in w.edges + pe ensures e.source in Ids(nodes) && e.target in Ids(nodes) {
      if e !in w.edges {
        var k :| 0 <= k < |pe| && pe[k] == e;
        assert e.source == ip && e.target == pn[k].id;
        assert Ids(nodes)[|w.nodes| + k] == pn[k].id;
      }
    }
  }

  /** The queue is only the seeds: the IPs probed are the distinct seeds in first
      occurrence order, with exactly one router node each whose status says whether
      its session opened; every edge starts at a seed whose session opened; and every
      edge endpoint is a node id. */
  lemma {:induction false} WalkedSpec(seeds: seq<string>, sessions: string -> Option<Session>, ipToUisp: map<string, Device>)
    ensures WalkInvariant(Walked(seeds, sessions, ipToUisp), seeds, sessions)
  {
    if |seeds| > 0 {
      var p, ip := seeds[..|seeds| - 1], seeds[|seeds| - 1];
      assert seeds == p + [ip];
      WalkedSpec(p, sessions, ipToUisp);
      VisitStep(Walked(p, sessions, ipToUisp), p, ip, sessions, ipToUisp);
    }
  }

  /** One dequeued IP keeps the traversal's guarantees. */
  lemma VisitStep(w: Walk, p: seq<string>, ip: string, sessions: string -> Option<Session>, ipToUisp: map<string, Device>)
    requires WalkInvariant(w, p, sessions)
    ensures WalkInvariant(Visit(w, ip, sessions(ip), ipToUisp), p + [ip], sessions)
  {
    if ip in w.visited {
      SkipStep(w, p, ip, sessions);
    } else {
      var w1 := Marked(w, ip, sessions(ip).Some?);
      MarkStep(w, p, ip, sessions);
      if sessions(ip).Some? {
        ProbeSpec(w1, ip, sessions(ip).value, ipToUisp);
        ProbeStep(w1, Probe(w1, ip, sessions(ip).value, ipToUisp), p + [ip], ip, sessions);
      }
    }
  }

  /** A repeated IP changes nothing. */
  lemma SkipStep(w: Walk, p: seq<string>, ip: string, sessions: string -> Option<Session>)
    requires WalkInvariant(w, p, sessions) && ip in w.visited
    ensures WalkInvariant(w, p + [ip], sessions)
  {
    DedupSnoc(p, ip);
  }

  /** Probing a reachable router that is already a node keeps the guarantees. */
  lemma ProbeStep(w: Walk, w': Walk, seeds: seq<string>, ip: string, sessions: string -> Option<Session>)
    requires WalkInvariant(w, seeds, sessions) && PhaseKeeps(w, w', ip)
    requires ip in seeds && sessions(ip).Some? && ip in Ids(w.nodes)
    ensures WalkInvariant(w', seeds, sessions)
  {
  }

  /** A new IP's router node keeps the traversal's guarantees. */
  lemma MarkStep(w: Walk, p: seq<string>, ip: string, sessions: string -> Option<Session>)
    requires WalkInvariant(w, p, sessions) && ip !in w.visited
    ensures WalkInvariant(Marked(w, ip, sessions(ip).Some?), p + [ip], sessions)
    ensures ip in Ids(Marked(w, ip, sessions(ip).Some?).nodes)
  {
    DedupSnoc(p, ip);
    MarkRouters(w.nodes, Dedup(p), ip, sessions);
    MarkClosed(w.nodes, w.edges, RouterNode(ip, ip, sessions(ip).Some?));
  }

  lemma MarkRouters(nodes: seq<Node>, d: seq<string>, ip: string, sessions: string -> Option<Session>)
    requires Routers(nodes) == RouterNodesFor(d, Reachable(sessions))
    ensures Routers(nodes + [RouterNode(ip, ip, sessions(ip).Some?)]) == RouterNodesFor(d + [ip], Reachable(sessions))
  {
    var r := RouterNode(ip, ip, sessions(ip).Some?);
    RoutersAppend(nodes, [r]);
    assert Routers([r]) == [r] by {
      assert [r][..0] == [];
    }
    RouterNodesForSnoc(d, ip, Reachable(sessions));
    assert Reachable(sessions)(ip) == sessions(ip).Some?;
  }

  lemma MarkClosed(nodes: seq<Node>, edges: seq<Edge>, r: Node)
    requires Closed(nodes, edges)
    ensures Closed(nodes + [r], edges)
    ensures r.id in Ids(nodes + [r])
  {
    IdsAppend(nodes, [r]);
    assert Ids(nodes + [r])[|nodes|] == r.id;
  }

  // ---------------------------------------------------------------- the AP pass

  /** `next((d for d in devices if d["id"] == id), None)`. */
  function FirstWithId(devices: seq<Device>, id: string): (r: Option<Device>)
    ensures r.Some? ==> exists i :: 0 <= i < |devices| && devices[i] == r.value && r.value.id == id &&
                                    forall j :: 0 <= j < i ==> devices[j].id != id
    ensures r.None? ==> forall i :: 0 <= i < |devices| ==> devices[i].id != id
  {
    if |devices| == 0 then None
    else if devices[0].id == id then Some(devices[0])
    else
      var r := FirstWithId(devices[1..], id);
      assert forall i :: 1 <= i < |devices| ==> devices[i] == devices[1..][i - 1];
      r
  }

  method FindParent(devices: seq<Device>, id: string) returns (parent: Option<Device>)
    ensures parent == FirstWithId(devices, id)
  {
    parent := None;
    var i := 0;
    while i < |devices|
      invariant 0 <= i <= |devices|
      invariant FirstWithId(devices, id) == FirstWithId(devices[i..], id)
    {
      if devices[i].id == id {
        parent := Some(devices[i]);
        return;
      }
      assert devices[i..][1..] == devices[i + 1..];
      i := i + 1;
    }
  }

  /** An AP-to-client link: the parent's IP and name and the child's IP. */
  datatype ApLink = ApLink(parentIp: string, parentName: string, childIp: string)

  /** The link a device yields: it has a parent id, a device with that id exists (the
      first one is taken), and both IPs are non-empty. */
  function ApLinkOf(devices: seq<Device>, dev: Device): Option<ApLink> {
    if !Truthy(dev.parentId) then None
    else
      match FirstWithId(devices, dev.parentId.value)
      case None => None
      case Some(parent) =>
        if Truthy(dev.ipAddress) && Truthy(parent.ipAddress)
        then Some(ApLink(parent.ipAddress.value, parent.identification.name, dev.ipAddress.value))
        else None
  }

  function ApLinks(devices: seq<Device>, todo: seq<Device>): seq<ApLink> {
    if |todo| == 0 then []
    else
      var l := ApLinkOf(devices, todo[|todo| - 1]);
      ApLinks(devices, todo[..|todo| - 1]) + (if l.Some? then [l.value] else [])
  }

  function ApEdges(links: seq<ApLink>): seq<Edge> {
    seq(|links|, i requires 0 <= i < |links| => Edge(links[i].parentIp, links[i].childIp, Plain))
  }

  function ApNodes(links: seq<ApLink>): seq<Node> {
    seq(|links|, i requires 0 <= i < |links| => ApNode(links[i].parentIp, links[i].parentName))
  }

  function ApEvents(links: seq<ApLink>): seq<Event> {
    seq(|links|, i requires 0 <= i < |links| => UpsertAp(links[i].parentIp, links[i].parentName))
  }

  /** The AP pass: one edge, one AP node (no id check) and one upsert per link. */
  function WithAps(w: Walk, devices: seq<Device>): Walk {
    var links := ApLinks(devices, devices);
    Walk(w.visited, w.nodes + ApNodes(links), w.edges + ApEdges(links), w.events + ApEvents(links))
  }

  /** A link exists exactly for the devices whose `parentId` names an existing device
      and whose own and parent IPs are both non-empty, in device order. */
  lemma {:induction false} ApLinksSpec(devices: seq<Device>, todo: seq<Device>)
    ensures |ApLinks(devices, todo)| <= |todo|
    ensures forall l :: l in ApLinks(devices, todo) <==> exists i :: 0 <= i < |todo| && ApLinkOf(devices, todo[i]) == Some(l)
  {
    if |todo| > 0 {
      var p := todo[..|todo| - 1];
      ApLinksSpec(devices, p);
      assert forall i :: 0 <= i < |p| ==> p[i] == todo[i];
    }
  }

  /** Every AP edge is followed by its AP node: the k-th AP node has the k-th AP
      edge's source as id, and the child end is the child device's IP. */
  lemma ApPassSpec(w: Walk, devices: seq<Device>)
    ensures var w' := WithAps(w, devices);
            var links := ApLinks(devices, devices);
            && w'.visited == w.visited
            && w.nodes <= w'.nodes && w.edges <= w'.edges
            && |w'.nodes| - |w.nodes| == |w'.edges| - |w.edges| == |links|
            && (forall k :: 0 <= k < |links| ==>
                  && w'.edges[|w.edges| + k] == Edge(links[k].parentIp, links[k].childIp, Plain)
                  && w'.nodes[|w.nodes| + k] == ApNode(links[k].parentIp, links[k].parentName)
                  && exists i :: 0 <= i < |devices| && ApLinkOf(devices, devices[i]) == Some(links[k]))
  {
    var w' := WithAps(w, devices);
    var links := ApLinks(devices, devices);
    var an, ae := ApNodes(links), ApEdges(links);
    assert w'.nodes == w.nodes + an && w'.edges == w.edges + ae;
    ApLinksSpec(devices, devices);
    forall k | 0 <= k < |links|
      ensures w'.edges[|w.edges| + k] == Edge(links[k].parentIp, links[k].childIp, Plain)
      ensures w'.nodes[|w.nodes| + k] == ApNode(links[k].parentIp, links[k].parentName)
      ensures exists i :: 0 <= i < |devices| && ApLinkOf(devices, devices[i]) == Some(links[k])
    {
      assert w'.edges[|w.edges| + k] == ae[k];
      assert w'.nodes[|w.nodes| + k] == an[k];
      assert links[k] in links;
    }
  }

  /** Links keep the order of the devices that yield them. */
  lemma {:induction false} ApLinksOrdered(devices: seq<Device>, todo: seq<Device>, i: nat, j: nat)
    requires i < j < |todo|
    requires ApLinkOf(devices, todo[i]).Some? && ApLinkOf(devices, todo[j]).Some?
    ensures exists k1, k2 :: 0 <= k1 < k2 < |ApLinks(devices, todo)| &&
              ApLinks(devices, todo)[k1] == ApLinkOf(devices, todo[i]).value &&
              ApLinks(devices, todo)[k2] == ApLinkOf(devices, todo[j]).value
  {
    var p := todo[..|todo| - 1];
    var links := ApLinks(devices, todo);
    assert ApLinks(devices, p) <= links;
    if j == |todo| - 1 {
      ApLinksSpec(devices, p);
      assert p[i] == todo[i];
      var k1 :| 0 <= k1 < |ApLinks(devices, p)| && ApLinks(devices, p)[k1] == ApLinkOf(devices, todo[i]).value;
      assert links[k1] == ApLinkOf(devices, todo[i]).value;
      assert links[|ApLinks(devices, p)|] == ApLinkOf(devices, todo[j]).value;
    } else {
      assert p[i] == todo[i] && p[j] == todo[j];
      ApLinksOrdered(devices, p, i, j);
      var k1, k2 :| 0 <= k1 < k2 < |ApLinks(devices, p)| &&
                    ApLinks(devices, p)[k1] == ApLinkOf(devices, todo[i]).value &&
                    ApLinks(devices, p)[k2] == ApLinkOf(devices, todo[j]).value;
      assert links[k1] == ApLinks(devices, p)[k1] && links[k2] == ApLinks(devices, p)[k2];
    }
  }

  /** The AP pass appends AP nodes without looking at the ids already present: two
      devices under the same parent give two AP nodes with one id, so the node ids
      of a result are not unique in general. */
  lemma ApNodesRepeat(w: Walk, devices: seq<Device>, i: nat, j: nat)
    requires i < j < |devices|
    requires ApLinkOf(devices, devices[i]).Some? && ApLinkOf(devices, devices[j]).Some?
    requires ApLinkOf(devices, devices[i]).value.parentIp == ApLinkOf(devices, devices[j]).value.parentIp
    ensures !NoDup(Ids(WithAps(w, devices).nodes))
  {
    var links := ApLinks(devices, devices);
    ApLinksOrdered(devices, devices, i, j);
    var k1, k2 :| 0 <= k1 < k2 < |links| &&
                  links[k1] == ApLinkOf(devices, devices[i]).value && links[k2] == ApLinkOf(devices, devices[j]).value;
    ApIdAt(w, devices, k1);
    ApIdAt(w, devices, k2);
  }

  /** The id of the k-th AP node is the k-th link's parent IP. */
  lemma ApIdAt(w: Walk, devices: seq<Device>, k: nat)
    requires k < |ApLinks(devices, devices)|
    ensures |w.nodes| + k < |Ids(WithAps(w, devices).nodes)|
    ensures Ids(WithAps(w, devices).nodes)[|w.nodes| + k] == ApLinks(devices, devices)[k].parentIp
  {
  }

  /** The child end of an AP edge need not be a node: when no node has the child's
      IP before the pass and the child is nobody's parent, the result has an edge
      whose target is no node id. */
  lemma ApChildMayDangle(w: Walk, devices: seq<Device>, i: nat)
    requires i < |devices| && ApLinkOf(devices, devices[i]).Some?
    requires ApLinkOf(devices, devices[i]).value.childIp !in Ids(w.nodes)
    requires forall m :: 0 <= m < |devices| && ApLinkOf(devices, devices[m]).Some? ==>
               ApLinkOf(devices, devices[m]).value.parentIp != ApLinkOf(devices, devices[i]).value.childIp
    ensures !Closed(WithAps(w, devices).nodes, WithAps(w, devices).edges)
  {
    var links := ApLinks(devices, devices);
    var l := ApLinkOf(devices, devices[i]).value;
    ApLinksSpec(devices, devices);
    assert l in links;
    var k :| 0 <= k < |links| && links[k] == l;
    var w' := WithAps(w, devices);
    assert w'.edges[|w.edges| + k] == Edge(l.parentIp, l.childIp, Plain);
    IdsAppend(w.nodes, ApNodes(links));
    forall k' | 0 <= k' < |links| ensures Ids(ApNodes(links))[k'] != l.childIp {
      assert links[k'] in links;
    }
  }

  /** The AP pass over `uisp_devices`. */
  method LinkAps(w0: Walk, devices: seq<Device>) returns (w: Walk)
    ensures w == WithAps(w0, devices)
  {
    var nodes, edges, events := w0.nodes, w0.edges, w0.events;
    ghost var links: seq<ApLink> := [];
    for i := 0 to |devices|
      invariant links == ApLinks(devices, devices[..i])
      invariant nodes == w0.nodes + ApNodes(links)
      invariant edges == w0.edges + ApEdges(links)
      invariant events == w0.events + ApEvents(links)
    {
      var link := LinkOf(devices, devices[i]);
      ApLinksSnoc(devices, i);
      if link.Some? {
        var l := link.value;
        ApSnoc(links, l);
        var e, n, ev := Edge(l.parentIp, l.childIp, Plain), ApNode(l.parentIp, l.parentName), UpsertAp(l.parentIp, l.parentName);
        assert edges + [e] == w0.edges + (ApEdges(links) + [e]);
        assert nodes + [n] == w0.nodes + (ApNodes(links) + [n]);
        assert events + [ev] == w0.events + (ApEvents(links) + [ev]);
        edges := edges + [e];
        nodes := nodes + [n];
        events := events + [ev];
        links := links + [l];
      }
    }
    assert devices[..|devices|] == devices;
    w := Walk(w0.visited, nodes, edges, events);
  }

  /** The body of the AP loop for one device: the parent lookup and the IP checks. */
  method LinkOf(devices: seq<Device>, dev: Device) returns (link: Option<ApLink>)
    ensures link == ApLinkOf(devices, dev)
  {
    link := None;
    if dev.parentId.Some? && dev.parentId.value != "" {
      var parent := FindParent(devices, dev.parentId.value);
      if parent.Some? {
        var childIp, parentIp := dev.ipAddress, parent.value.ipAddress;
        if childIp.Some? && childIp.value != "" && parentIp.Some? && parentIp.value != "" {
          link := Some(ApLink(parentIp.value, parent.value.identification.name, childIp.value));
        }
      }
    }
  }

  lemma ApLinksSnoc(devices: seq<Device>, i: nat)
    requires i < |devices|
    ensures var l := ApLinkOf(devices, devices[i]);
            ApLinks(devices, devices[..i + 1]) == ApLinks(devices, devices[..i]) + (if l.Some? then [l.value] else [])
  {
    assert devices[..i + 1][..i] == devices[..i];
  }

  lemma ApSnoc(links: seq<ApLink>, l: ApLink)
    ensures ApNodes(links + [l]) == ApNodes(links) + [ApNode(l.parentIp, l.parentName)]
    ensures ApEdges(links + [l]) == ApEdges(links) + [Edge(l.parentIp, l.childIp, Plain)]
    ensures ApEvents(links + [l]) == ApEvents(links) + [UpsertAp(l.parentIp, l.parentName)]
  {
  }

  // ---------------------------------------------------------------- discover_topology

  /** The whole result: the drained seeds, then the AP pass. */
  function Discovered(seeds: seq<string>, sessions: string -> Option<Session>, devices: seq<Device>): Walk {
    WithAps(Walked(seeds, sessions, Index(devices, IpKey)), devices)
  }

  /** `discover_topology`: `probed` is the sequence of IPs a connection is opened for. */
  method DiscoverTopology(seeds: seq<string>, sessions: string -> Option<Session>, devices: seq<Device>)
    returns (topology: Topology, events: seq<Event>, probed: seq<string>)
    ensures Walk(probed, topology.nodes, topology.edges, events) == Discovered(seeds, sessions, devices)
    ensures probed == Dedup(seeds)
    ensures Routers(topology.nodes) == RouterNodesFor(Dedup(seeds), Reachable(sessions))
  {
    var ipToUisp := map[];
    for i := 0 to |devices|
      invariant ipToUisp == Index(devices[..i], IpKey)
    {
      assert devices[..i + 1][..i] == devices[..i];
      var d := devices[i];
      if d.ipAddress.Some? && d.ipAddress.value != "" {
        ipToUisp := ipToUisp[d.ipAddress.value := d];
      }
    }
    assert devices[..|devices|] == devices;

    var w := Walk([], [], [], []);
    var queue := seeds;
    ghost var k := 0;
    while |queue| > 0
      invariant 0 <= k <= |seeds| && queue == seeds[k..]
      invariant w == Walked(seeds[..k], sessions, ipToUisp)
      decreases |queue|
    {
      var ip := queue[0];
      queue := queue[1..];
      assert seeds[..k + 1][..k] == seeds[..k] && seeds[k] == ip;
      k := k + 1;
      if ip in w.visited {
        continue;
      }
      var api := sessions(ip);
      w := Walk(w.visited + [ip], w.nodes + [RouterNode(ip, ip, api.Some?)], w.edges, w.events + [UpsertRouter(ip)]);
      if api.None? {
        continue;
      }
      var details := InterfaceDetails(api.value.ethernet);
      w := ProbePorts(w, ip, details);
      var neighbors := SwitchNeighbors(api.value.neighbors);
      w := ProbeNeighbors(w, ip, neighbors);
      var clientIps := ClientsFromRouter(api.value);
      w := ProbeClients(w, ip, clientIps, ipToUisp);
    }
    assert seeds[..k] == seeds;
    WalkedSpec(seeds, sessions, ipToUisp);
    var walked := w;
    w := LinkAps(w, devices);
    RoutersApPass(walked, devices);
    topology, events, probed := Topology(w.nodes, w.edges), w.events, w.visited;
  }

  /** The AP pass adds no router node. */
  lemma RoutersApPass(w: Walk, devices: seq<Device>)
    ensures Routers(WithAps(w, devices).nodes) == Routers(w.nodes)
  {
    var ns := ApNodes(ApLinks(devices, devices));
    RoutersAppend(w.nodes, ns);
    NoRoutersAmongAps(ns);
  }

  lemma {:induction false} NoRoutersAmongAps(ns: seq<Node>)
    requires forall n :: n in ns ==> n.ApNode?
    ensures Routers(ns) == []
  {
    if |ns| > 0 {
      NoRoutersAmongAps(ns[..|ns| - 1]);
    }
  }
}
