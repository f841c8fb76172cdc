# Monitor360 network core, modelled in Dafny

Monitor360 watches a MikroTik/UISP network. This project models the parts of
its back end that compute things, and proves properties of them:

- **Topology discovery** (`discover_topology`, module `DiscoveryService`).
  - The seed router IPs are drained from a queue in order, and each new IP is
    visited once.
  - A visited IP gets a router node whose status says whether a session opened.
  - A router with an open session adds three things:
    - its running Ethernet ports at a degraded link speed, each with a node, an
      edge, an alarm and an upsert;
    - its LLDP/CDP neighbours;
    - its clients, read from simple-queue targets and from the ARP table.
  - Neighbour and client nodes are added only when no node has that id yet. The
    edge is added in every case.
  - A final pass over the inventory links each AP to its clients.
  - Database upserts and alarms are recorded as an event log, in the order they
    are issued.
- **Trunk topology** (`get_trunk_topology`, module `TrunkService`): only the seed
  routers, and the neighbour links between seeds.
- **Trunk interfaces** (`get_mikrotik_trunks`, module `Discovery`): the running
  interfaces of a router.
- **Client identity resolution** (`associate_clients_to_devices` in
  `client_service.py`, module `ClientService`). Each roster row is matched to an
  inventory device by a fixed chain; the first strategy that hits wins:
  1. exact IP;
  2. exact MAC, lower-cased;
  3. exact name, lower-cased;
  4. same /24 network, taking the first inventory address in dict order;
  5. the most similar name, when its ratio reaches the threshold.
- **The older matcher** (`associate_clients.py`, module `AssociateClients`):
  exact IP first, then the first device whose name contains the row's name.
- **Verification report counters** (`verify_uisp_data.py`, module
  `VerifyUispData`): IP, then MAC, then exact name, with matched and unmatched
  counts.
- **Topology enrichment** (`get_enriched_topology`, module `TopologyEnricher`):
  each client node is merged with the association whose `ip` is the node's id.
- **Credential learning** (`mikrotik_service.py`, module `MikrotikService`).
  - The stored password is tried first, then the common passwords, each once.
  - The first password that logs in is written back to the credential store.
  - The store is the class `CredentialStore`; its methods update its `file`
    field.

## How Python is modelled

- **Dicts.** A dict built from a device list keeps the LAST device for each key.
  It iterates its keys in the order they were FIRST inserted (`Inventory.Index`,
  `Inventory.KeyOrder`).
- **Sets** are modelled as first-insertion-order sequences (`Common.Dedup`).
  Python gives no iteration order for a set, so this is one admissible order.
- **Cell reads.** `str(x or y or "")` becomes `Inventory.FirstCell`.
- **String functions.** `strip`, `lower` and `split` are written out for ASCII
  text (module `Common`).
- **Oracles** stand for the I/O and library code the core calls:
  - `sessions: string -> Option<Session>` for opening a router session. The
    session's four table scans are given as replies (rows plus "raised").
  - `sim: (string, string) -> Ratio` for `SequenceMatcher.ratio`.
  - `login: (string, string) -> bool` for one RouterOS login attempt.

## Where the code and the design description disagree

The model follows the code in each case.

- **Node ids can repeat.**
  - The AP pass appends an AP node without checking existing ids, so two
    children of one AP give two nodes with one id (`ApNodesRepeat`).
  - The AP pass can also append a second node with the id of an IP already
    discovered as a router or client.
  - The walk appends a router node for every seed it dequeues without checking
    existing ids (`discovery_service.py:105-107`). A seed first added as a
    neighbour or client node of an earlier seed therefore gets a second node,
    a router node, with the same id.
- **An edge endpoint need not be a node.**
  - The child end of an AP edge can be an IP that no node has
    (`ApChildMayDangle`).
  - Before the AP pass, and in the trunk graph, every endpoint is a node
    (`WalkedSpec`, `TrunkTopologySpec`).
- **Unmatched associations are merged.**
  - The enricher merges an association even when it is unmatched, because a
    non-empty dict is truthy (`EnrichedFromRoster`).
  - When several roster rows share an IP, the last one wins.
- **`test_name_fuzzy_match` expects the wrong strategy.** The test feeds
  "clientedos". That is the second device's name once lower-cased, so the code
  answers `name_exact` before the fuzzy step is reached
  (`TestClienteDosIsNameExact`).
- **`test_name_exact_match` checks a key the code never writes.** It asserts
  `uisp_name`, which `client_service.py` does not produce.
  `ClientService.TestNameExact` checks the strategy and `dispositivo_id`
  instead.
- **The report's client id and name are always null.** `verify` reads its
  roster with `load_clients_csv`, which lowercases every column header
  (`client_service.py:32`). The entry's `cliente_id` and `cliente_nombre` come
  from the capitalised columns `Id` and `Nombre` (`verify_uisp_data.py:92-93`),
  so on a roster loaded that way both are None. The IP, MAC and name lookups
  fall back to the lowercase columns and are not affected. The model follows
  the code: `VerifyUispData.CheckRow` reads `Id` and `Nombre` from the row it
  is given.

## Model

| member | source | states |
|---|---|---|
| Common.SplitParts | app/services/discovery_service.py:52-53 | `split` always yields a part; the first part is the text before the first separator; no part contains the separator; joining the parts gives the input back |
| Common.ContainsAtOffset | app/services/associate_clients.py:43 | the substring test `a in b` holds exactly when `a` occurs in `b` at some offset |
| Common.DedupSnoc | app/services/mikrotik_service.py:73-75 | an "append if not present" step adds the element exactly when it is new |
| Common.DedupSpec | app/services/discovery_service.py:46-64 | the set contents are duplicate-free, drop nothing, add nothing, and keep first-occurrence order |
| Inventory.IndexLastWins | app/services/client_service.py:54 | a key is in a dict built from the devices exactly when some device has it, and it maps to the last such device |
| Inventory.IndexKeyOfValue | app/services/verify_uisp_data.py:39-44 | every key of an index is the key of the device it maps to |
| Inventory.KeyOrderSpec | app/services/client_service.py:90 | the dict's iteration order lists every key exactly once |
| Discovery.MikrotikTrunks | app/services/discovery.py:9-26 | a failing query gives []; a running interface without a name (a `KeyError`) gives []; otherwise the running interfaces |
| Discovery.RunningTrunksSpec | app/services/discovery.py:13-22 | an entry exists exactly for each running row, with its name, flag and MAC, and "ether" for a missing type; every entry is running |
| Discovery.RunningTrunksAppend | app/services/discovery.py:13-22 | the filter keeps input order: the entries of two stretches of rows are concatenated |
| Discovery.RunningTrunksSingle | app/services/discovery.py:14-21 | a running row gives its entry; a stopped row gives nothing |
| DiscoveryService.InterfaceDetails | app/services/discovery_service.py:25-41 | one detail per delivered row, in order; `running` iff the flag is "true"; `degraded` iff the speed is in `DEGRADED_SPEEDS` |
| DiscoveryService.NeighborsOfSpec | app/services/discovery_service.py:67-83 | a neighbour is reported exactly for each row with a non-empty address, with that row's identity and interface |
| DiscoveryService.SwitchNeighbors | app/services/discovery_service.py:67-83 | the loop returns the neighbour list of the delivered rows |
| DiscoveryService.QueueHostsSpec | app/services/discovery_service.py:48-54 | the queue hosts are exactly the parts of the targets that are non-empty and not the default route |
| DiscoveryService.ArpHostsSpec | app/services/discovery_service.py:58-61 | the ARP hosts are exactly the non-empty addresses |
| DiscoveryService.WithoutEmptySpec | app/services/discovery_service.py:64 | dropping "" removes only "" and keeps uniqueness |
| DiscoveryService.ClientIpsSpec | app/services/discovery_service.py:44-64 | the client IPs are duplicate-free, never "", and exactly the hosts named by a counting queue target or an ARP entry |
| DiscoveryService.AddTargetHosts | app/services/discovery_service.py:52-54 | the inner loop adds every host of one target to the set |
| DiscoveryService.ScanQueues | app/services/discovery_service.py:48-54 | the queue loop builds the set of queue hosts |
| DiscoveryService.ScanArp | app/services/discovery_service.py:58-61 | the ARP loop adds the non-empty addresses to the set |
| DiscoveryService.DropEmpty | app/services/discovery_service.py:64 | the final comprehension drops "" |
| DiscoveryService.ClientsFromRouter | app/services/discovery_service.py:44-64 | the method returns the client IPs of the session |
| DiscoveryService.PortNodesSpec | app/services/discovery_service.py:122-133 | a port node exists exactly for each running interface with a degraded speed |
| DiscoveryService.PortEdgesSpec | app/services/discovery_service.py:134-141 | the k-th port edge joins the router to the k-th port node, marked with that port's link speed |
| DiscoveryService.PortAlarmsSpec | app/services/discovery_service.py:142-145 | a warning alarm is raised exactly for each flagged interface |
| DiscoveryService.PortRouters | app/services/discovery_service.py:122-133 | the port loop adds no router node |
| DiscoveryService.ProbePorts | app/services/discovery_service.py:122-155 | the port loop appends the port nodes, edges, alarms and upserts |
| DiscoveryService.AddAllEdges | app/services/discovery_service.py:176-178 | the neighbour and client loops append one edge per item, whether or not a node was added, and keep earlier nodes |
| DiscoveryService.AddAllFresh | app/services/discovery_service.py:160 | a node is appended only when its id is absent, and afterwards every item's id is a node id |
| DiscoveryService.AddAllRouters | app/services/discovery_service.py:158-201 | neighbour and client additions add no router node |
| DiscoveryService.AddAllClosed | app/services/discovery_service.py:158-201 | when the router is a node, neighbour and client edges keep every endpoint a node id |
| DiscoveryService.ClientFromInventory | app/services/discovery_service.py:183-189 | a client's caption and signal come from the last inventory device with its IP; with none, the caption is the IP and there is no signal |
| DiscoveryService.ProbeNeighbors | app/services/discovery_service.py:158-178 | the neighbour loop adds a node and upsert only for a new id, and always an edge |
| DiscoveryService.ProbeClients | app/services/discovery_service.py:181-201 | the client loop adds a node and upsert only for a new id, and always an edge |
| DiscoveryService.PortPhase | app/services/discovery_service.py:121-155 | the port phase keeps `visited` and the routers, and adds only edges from this router; it keeps every endpoint a node |
| DiscoveryService.AddPhase | app/services/discovery_service.py:157-201 | the neighbour and client phases keep the same facts |
| DiscoveryService.ProbeSpec | app/services/discovery_service.py:121-201 | probing an open session keeps the same facts |
| DiscoveryService.PortsClosed | app/services/discovery_service.py:134-141 | port edges end at port nodes |
| DiscoveryService.WalkedSpec | app/services/discovery_service.py:98-201 | after the queue: `visited` is the distinct seeds in first-occurrence order; one router node per distinct seed; status iff its session opened; every edge starts at a reachable seed; every endpoint is a node |
| DiscoveryService.VisitStep | app/services/discovery_service.py:99-119 | one dequeued IP keeps those guarantees |
| DiscoveryService.SkipStep | app/services/discovery_service.py:100-101 | an IP already visited changes nothing |
| DiscoveryService.MarkStep | app/services/discovery_service.py:102-116 | a new IP's router node keeps the guarantees and makes the IP a node id |
| DiscoveryService.FirstWithId | app/services/discovery_service.py:206 | the result is the first device with the id, or None when no device has it |
| DiscoveryService.FindParent | app/services/discovery_service.py:206 | the loop finds that first device |
| DiscoveryService.ApLinksSpec | app/services/discovery_service.py:204-211 | a link exists exactly for each device with a parent id naming an existing device and with both IPs non-empty |
| DiscoveryService.LinkOf | app/services/discovery_service.py:205-210 | the loop body computes the link of one device |
| DiscoveryService.ApPassSpec | app/services/discovery_service.py:204-226 | the k-th AP edge and the k-th AP node come from the k-th link; earlier nodes and edges are kept |
| DiscoveryService.ApLinksOrdered | app/services/discovery_service.py:204-211 | links keep the order of the devices that yield them |
| DiscoveryService.ApNodesRepeat | app/services/discovery_service.py:212-218 | two devices under one parent give a result whose node ids are not unique |
| DiscoveryService.ApChildMayDangle | app/services/discovery_service.py:211 | a child IP that is no node and no parent leaves an edge whose target is no node |
| DiscoveryService.LinkAps | app/services/discovery_service.py:204-226 | the AP loop appends one edge, one AP node and one upsert per link |
| DiscoveryService.RoutersApPass | app/services/discovery_service.py:212-218 | the AP pass adds no router node |
| DiscoveryService.DiscoverTopology | app/services/discovery_service.py:86-228 | the result is the drained seeds followed by the AP pass; the probed IPs are the distinct seeds in order; the router nodes are one per distinct seed with its status |
| TrunkService.TrunkEdgesSpec | app/services/trunk_service.py:44-58 | a router's edges are exactly those from neighbour rows whose address is a seed; each starts at the router, ends at a seed and carries the interface |
| TrunkService.TrunkWalkedSpec | app/services/trunk_service.py:24-58 | `visited` is the distinct seeds dequeued; one router node each with status iff reachable; the edges are exactly those of the reachable routers |
| TrunkService.TrunkTopologySpec | app/services/trunk_service.py:14-60 | only router nodes; every edge runs from a reachable seed to a seed; every endpoint is a node |
| TrunkService.GetTrunkTopology | app/services/trunk_service.py:14-60 | the loops compute that topology; there is one router node per distinct seed, and the graph is closed |
| ClientService.IndicesOf | app/services/client_service.py:54-63 | the iteration orders of `ip_map` and `name_map` name only their keys |
| ClientService.ParseOctet | app/services/client_service.py:89-91 | a parsed octet lies in 0..255 |
| ClientService.DecimalValue | app/services/client_service.py:89-91 | the decimal text of a number has only digits, reads back as that number and has no leading zero |
| ClientService.DecimalOctet | app/services/client_service.py:89-91 | the decimal text of any number up to 255 parses as that octet |
| ClientService.DigitsDecimal | app/services/client_service.py:89-91 | digit text without a leading zero is the decimal text of its value |
| ClientService.OctetIsDecimal | app/services/client_service.py:89-91 | text that parses as an octet is exactly the decimal text of that octet |
| ClientService.ParseIPv4 | app/services/client_service.py:89-91 | a parsed address has four octets |
| ClientService.QuadRoundTrip | app/services/client_service.py:89-91 | four octets written in decimal and joined with dots parse back as those octets |
| ClientService.ParsedQuadIsDecimal | app/services/client_service.py:89-91 | text that parses as an address is exactly its four octets written in decimal and joined with dots |
| ClientService.FirstInNetSpec | app/services/client_service.py:90-96 | the /24 scan finds a device exactly when it reaches an address inside the network before any address that does not parse, and then it is that address's device |
| ClientService.SubnetScan | app/services/client_service.py:86-96 | the loop with `break` and the `ValueError` handler computes that match |
| ClientService.BestFuzzySpec | app/services/client_service.py:99-104 | the best ratio is the maximum (0.0 when nothing is positive); the device is the first to reach it; a device is found iff the ratio is positive |
| ClientService.FuzzyScan | app/services/client_service.py:98-104 | the loop computes that best ratio and device, and no ratio exceeds it |
| ClientService.Resolve | app/services/client_service.py:74-108 | each strategy is used iff every earlier one missed and its own condition holds; the device each one yields; a similarity iff the fuzzy step was accepted, then at least the threshold |
| ClientService.ResolveChain | app/services/client_service.py:70-108 | the if-chain and the fuzzy fallback compute that resolution |
| ClientService.AssociateRow | app/services/client_service.py:65-132 | the row's normalised IP, MAC and name are resolved and turned into its entry |
| ClientService.AssociateClientsToDevices | app/services/client_service.py:36-134 | one entry per row, in order, each the resolution of that row |
| ClientService.EntryShape | app/services/client_service.py:111-130 | matched iff the device keys are present; `similarity` iff fuzzy; a method without a device only for a fuzzy step with threshold at most 0 |
| ClientService.ExactHitsFromDevices | app/services/client_service.py:54-85 | the exact strategies hit when some device carries the key, and yield the last such device |
| ClientService.ExactScenario | app/services/client_service.py:74-85 | on any indices, the strategy and device reported by the first exact step that hits |
| ClientService.TestIpIndex | tests/test_client_service.py:6-34 | `ip_map` of the test devices and its iteration order |
| ClientService.TestMacIndex | tests/test_client_service.py:6-34 | `mac_map` of the test devices |
| ClientService.TestNameIndex | tests/test_client_service.py:6-34 | `name_map` of the test devices |
| ClientService.TestIpExact | tests/test_client_service.py:41-46 | the IP row matches device 1 by `ip_exact` |
| ClientService.TestMacExact | tests/test_client_service.py:49-54 | the MAC row matches device 2 by `mac_exact` |
| ClientService.TestNameExact | tests/test_client_service.py:57-62 | "Cliente1" matches device 1 by `name_exact` |
| ClientService.TestSubnet24 | tests/test_client_service.py:65-70 | 192.168.1.99 matches device 1 by `subnet_24` |
| ClientService.TestClienteDosIsNameExact | tests/test_client_service.py:73-78 | "clientedos" matches device 2 by `name_exact`, with no similarity |
| TopologyEnricher.AssocIndexLastWins | app/services/topology_enricher.py:33 | an IP is a key iff some association has it, and it maps to the last such association |
| TopologyEnricher.EnrichNodes | app/services/topology_enricher.py:36-43 | node count, order, ids, types and captions are kept; only client nodes whose id has an association change, and they receive it |
| TopologyEnricher.GetEnrichedTopology | app/services/topology_enricher.py:24-43 | the edges are the discovered ones; the nodes are the discovered ones, enriched with the roster's associations at the default threshold |
| TopologyEnricher.EnrichedFromRoster | app/services/topology_enricher.py:33-43 | a client node named by some roster row gets the entry of the last such row, matched or not; a node no row names is unchanged |
| AssociateClients.FirstByName | app/services/associate_clients.py:40-45 | the result is the first device whose name contains the row's name, or None when none does |
| AssociateClients.ScanByName | app/services/associate_clients.py:40-45 | the loop with `break` finds that device |
| AssociateClients.AssociateClientsToDevices | app/services/associate_clients.py:17-61 | the method returns the entries of the matched rows, in row order |
| AssociateClients.EntriesSpec | app/services/associate_clients.py:47-59 | at most one entry per row, and an entry exactly for each matched row |
| AssociateClients.MatchSpec | app/services/associate_clients.py:28-45 | an IP on some device wins, giving the last such device; otherwise the first name match; an empty name never matches |
| AssociateClients.NameMatchesAtOffset | app/services/associate_clients.py:43 | the name test is a case-blind substring test at some offset |
| VerifyUispData.BuildIndices | app/services/verify_uisp_data.py:28-45 | the loop builds the three indexes; empty keys are skipped; each key is its device's key |
| VerifyUispData.CheckRow | app/services/verify_uisp_data.py:70-115 | the loop body builds the row's entry |
| VerifyUispData.Verify | app/services/verify_uisp_data.py:59-115 | `total` is the row count; `matched + unmatched == total`; one entry per row in order; `sin_match` is the unmatched entries and its length is `unmatched` |
| VerifyUispData.UnmatchedSpec | app/services/verify_uisp_data.py:110-113 | `sin_match` holds exactly the unmatched entries |
| VerifyUispData.MatchPriority | app/services/verify_uisp_data.py:78-89 | the method is `ip`, `mac` or `name` iff that step is the first to hit; matched iff some step hit; matched iff the method and `uisp_*` keys are present |
| VerifyUispData.MatchedDevice | app/services/verify_uisp_data.py:78-108 | the reported device is the last device carrying the key it matched on |
| MikrotikService.CandidatesSpec | app/services/mikrotik_service.py:65-75 | the candidates have no duplicates, start with the stored password when there is one, and are exactly it plus the common ones |
| MikrotikService.CandidatePasswords | app/services/mikrotik_service.py:65-75 | the loop builds those candidates |
| MikrotikService.FirstSuccess | app/services/mikrotik_service.py:78-95 | the position of the first candidate that logs in: every earlier one failed |
| MikrotikService.CanConnectSpec | app/services/mikrotik_service.py:78-101 | an IP connects iff some candidate logs in |
| MikrotikService.LearningKeepsReach | app/services/mikrotik_service.py:92-93 | storing a working password makes that IP connect and does not change any other IP |
| MikrotikService.CredentialStore.ConnectWithLearning | app/services/mikrotik_service.py:57-101 | candidates are tried in order up to the first success; that one is returned and written under the IP; if all fail, nothing is written |
| MikrotikService.CredentialStore.TryRouter | app/services/mikrotik_service.py:113-115 | one scan step: true iff the IP can connect; the store becomes the one learned from this attempt; the file is rewritten only on success |
| MikrotikService.CredentialStore.ScanMikrotiks | app/services/mikrotik_service.py:104-115 | one key per listed IP, true iff that IP can connect with the store as it was before the scan; the new store is the one learned by trying the IPs in order (`AfterScan`); the file is either untouched or holds that store, and it is untouched unless some IP connected |
| MikrotikService.AfterScanReach | app/services/mikrotik_service.py:92-93 | a scan never changes which IPs can connect |
| MikrotikService.AfterScanLearned | app/services/mikrotik_service.py:92-93 | after a scan, every listed IP that can connect is stored with a password that logs in, and every other IP keeps its entry or its absence |

## Left out

- **External services** are not modelled: Supabase, timestamps, logging, HTTP
  routes, and the RouterOS protocol. Upserts and alarms are modelled only as
  entries of an event log.
- **Data loading and report writing** are not modelled. This covers `load_clients_csv`,
  pandas data frames and NaN cells, including the NaN-to-text behaviour of
  `str(...)`. It also covers the JSON and report files written by
  `get_enriched_topology` and `verify`. A roster row is modelled as a map from
  column name to text.
- **`SequenceMatcher.ratio`** is an oracle. Its value is not modelled.
- ClientService.Resolve: the similarity is not rounded. The source rounds it to two
  decimals, and the oracle's ratio is not rounded in the model.
- **Floating point is not modelled.** Ratios and thresholds are exact reals.
- **Text.** IPv6 addresses, non-ASCII case folding and non-ASCII whitespace are
  not modelled. The dotted-quad parse follows the strict rules for IPv4 octets.
- **Set iteration order.** Python sets are modelled in first-insertion order.
  Any other order would reorder the clients, and with them the client nodes and
  edges.
- **Sessions in discovery and the trunk graph.** Inside `discover_topology` and
  `get_trunk_topology`, opening a session is given by the `sessions` oracle.
  That oracle stands in for `connect_mikrotik_with_learning`, whose own login
  loop is modelled separately in `MikrotikService`.
- **The end of `discover_topology`.** A device whose parent record has no
  `identification.name` raises `KeyError` and ends the call. This path is not
  modelled: the name is taken as "" when missing.
- **A client device record with no identification name** also raises in the
  source. This is not modelled, for the same reason.
- **A null `identification` object** is not modelled. `Device.identification`
  is always a record, so a device whose `identification` key holds null cannot
  be expressed. The source treats that input in two ways:
  - `client_service.py` and `verify_uisp_data.py` raise `AttributeError`,
    because `dev.get("identification", {})` returns None. This happens in the
    `name_map` filter (`client_service.py:62`), in `mac_map` when `mac` is falsy
    (`client_service.py:56`), and in `build_indices`
    (`verify_uisp_data.py:37-38`). The calls end there.
  - `associate_clients.py` turns it into `{}` with `or {}`
    (`associate_clients.py:41`, `:48`). The device then has no name and its
    entry has "" for id, MAC and hostname.
- AssociateClients.AssociateClientsToDevices: a null `id`, `mac` or `hostname`
  in the matched device's identification becomes "" in the entry (`EntryFor`)
  where the source writes None. The source
  uses `identification.get("id", "")` and the like (`associate_clients.py:55-57`),
  whose "" default applies only when the key is absent. The `Option` fields of
  `Identification` do not tell an absent key from a null one, and the entry
  takes both as "". Modelling this exactly would need a field with three
  states: absent, null or text.
- DiscoveryService.FirstWithId: a device without a top-level `id` is not
  modelled. In the AP pass the parent lookup reads `d["id"]` of every device
  before the parent (`discovery_service.py:206`). A device lacking the key
  raises `KeyError` and ends `discover_topology`. The model's `Device.id` is
  always present, so the lookup always completes.
- ClientService.IndicesOf: a MAC that is null at both levels is not modelled.
  The source computes `(dev.get("mac") or identification.get("mac", "")).lower()`
  (`client_service.py:55-56`). When `mac` is falsy and `identification.mac` is
  present but None, `.lower()` raises `AttributeError` and ends
  `get_enriched_topology`. The model's `Option` does not tell an absent key from
  a null one, and `MacKeyAll` takes both as "", so the `mac_map` key is "".
- VerifyUispData.CheckRow: `uisp_name` is "" rather than None for a device
  without an identification name. The source reads
  `match.get("identification", {}).get("name")` (`verify_uisp_data.py:104`),
  which is None in that case. The model's `Identification.name` is "" when the
  name is absent, so the report cell is "" where the source writes null.
- **Falsy devices.** A matched device that is an empty dict is falsy in Python.
  The model treats every found device as a match.
- **Integer device ids.** The test data's integer device ids are modelled as
  strings.
- MikrotikService.CredentialStore.ConnectWithLearning: save failures are not modelled. A
  failing `save_known_credentials` only logs, and the model always writes.
- TopologyEnricher.GetEnrichedTopology: assumes both inventory reads return the
  same device list. The source reads the inventory twice.
- TopologyEnricher.EnrichNodes: does not model aliasing or `dict.update`.
  - The source updates the node dicts in place, and the returned topology
    shares them. The model builds new node values, so aliasing is not modelled.
  - The model replaces the merged association rather than merging keys. This
    is exact while `merged` is None, which holds for every discovered node.
- ClientService.TestNameExact: checks `dispositivo_id` instead of `uisp_name`,
  because the code never writes the `uisp_name` key.
