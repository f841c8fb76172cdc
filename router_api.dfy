/** What a router session offers the services: four read-only table scans, each
    a sequence of attribute maps whose attributes may be missing. The session
    provider itself (credential learning and the RouterOS protocol) is outside
    this module; the services see it as an oracle from an IP to "no session" or
    the tables that session returns. */
module RouterApi {
  import opened Common

  /** What one table query delivered: the rows read before the query finished, and
      whether it finished by raising. A query that raises at once delivers no rows;
      one that raises part-way delivers the rows read before the error. */
  datatype Reply<T> = Reply(rows: seq<T>, raised: bool)

  /** A row of `/interface` or `/interface/ethernet`. */
  datatype InterfaceRow = InterfaceRow(
    name: Option<string>,
    ifType: Option<string>,
    running: Option<string>,
    linkSpeed: Option<string>,
    macAddress: Option<string>)

  /** A row of `/ip/neighbor` (the LLDP/CDP neighbour table). */
  datatype NeighborRow = NeighborRow(address: Option<string>, identity: Option<string>, iface: Option<string>)

  /** A row of `/queue/simple`; `target` is a comma-separated list of `address/len`. */
  datatype QueueRow = QueueRow(target: Option<string>)

  /** A row of `/ip/arp`. */
  datatype ArpRow = ArpRow(address: Option<string>)

  /** An open session, given by what its four scans return. */
  datatype Session = Session(
    ethernet: Reply<InterfaceRow>,
    neighbors: Reply<NeighborRow>,
    queues: Reply<QueueRow>,
    arp: Reply<ArpRow>)

  /** Whether a session opens for an IP. */
  function Reachable(sessions: string -> Option<Session>): string -> bool {
    ip => sessions(ip).Some?
  }
}
