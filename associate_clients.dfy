/** The older matcher of app/services/associate_clients.py: a roster row is matched
    to the inventory device with its IP, otherwise to the first device whose name
    contains the row's name (ignoring case); unmatched rows produce nothing. */
module AssociateClients {
  import opened Common
  import opened Inventory

  /** One output entry: `cliente_id`, `nombre`, `plan`, `ip`, `dispositivo_id`,
      `mac` and `hostname`. */
  datatype Entry = Entry(
    clienteId: Option<string>,
    nombre: string,
    plan: string,
    ip: string,
    dispositivoId: string,
    mac: string,
    hostname: string)

  /** `str(row.get("ip", "") or "").strip()`. */
  function RowIp(row: Row): string {
    Strip(FirstCell(row, ["ip"]))
  }

  /** `str(row.get("nombre", "") or "").strip()`. */
  function RowName(row: Row): string {
    Strip(FirstCell(row, ["nombre"]))
  }

  /** The device's name as compared: stripped and lower-cased. */
  function DeviceName(d: Device): string {
    Lower(Strip(d.identification.name))
  }

  /** The name test of the scan: a non-empty client name, lower-cased, occurs in the
      device's name. */
  predicate NameMatches(clientName: string, d: Device) {
    clientName != "" && Contains(DeviceName(d), Lower(clientName))
  }

  /** The first device the name test accepts. */
  function FirstByName(devices: seq<Device>, clientName: string): (r: Option<Device>)
    ensures r.Some? ==> exists i :: 0 <= i < |devices| && devices[i] == r.value && NameMatches(clientName, devices[i]) &&
                                    forall j :: 0 <= j < i ==> !NameMatches(clientName, devices[j])
    ensures r.None? ==> forall i :: 0 <= i < |devices| ==> !NameMatches(clientName, devices[i])
  {
    if |devices| == 0 then None
    else if NameMatches(clientName, devices[0]) then Some(devices[0])
    else
      var r := FirstByName(devices[1..], clientName);
      assert forall i :: 1 <= i < |devices| ==> devices[i] == devices[1..][i - 1];
      r
  }

  /** The device a row is matched to: by exact IP through `ip_map` (the last device
      with that IP), otherwise by name. */
  function MatchOf(row: Row, devices: seq<Device>, ipMap: map<string, Device>): Option<Device> {
    var ip := RowIp(row);
    if ip != "" && ip in ipMap then Some(ipMap[ip]) else FirstByName(devices, RowName(row))
  }

  function EntryFor(row: Row, d: Device): Entry {
    Entry(Cell(row, "cliente_id"), RowName(row), OrEmpty(Cell(row, "plan")), RowIp(row),
          OrEmpty(d.identification.id), OrEmpty(d.identification.mac), OrEmpty(d.identification.hostname))
  }

  /** The entries of the matched rows, in row order. */
  function Entries(rows: seq<Row>, devices: seq<Device>, ipMap: map<string, Device>): seq<Entry> {
    if |rows| == 0 then []
    else
      var row := rows[|rows| - 1];
      var m := MatchOf(row, devices, ipMap);
      Entries(rows[..|rows| - 1], devices, ipMap) + (if m.Some? then [EntryFor(row, m.value)] else [])
  }

  /** The device scan with `break`. */
  method ScanByName(devices: seq<Device>, clientName: string) returns (matched: Option<Device>)
    ensures matched == FirstByName(devices, clientName)
  {
    matched := None;
    for i := 0 to |devices|
      invariant FirstByName(devices, clientName) == FirstByName(devices[i..], clientName)
    {
      var device := devices[i];
      var devName := Strip(device.identification.name);
      if clientName != "" && Contains(Lower(devName), Lower(clientName)) {
        matched := Some(device);
        break;
      }
      assert devices[i..][1..] == devices[i + 1..];
    }
  }

  /** `associate_clients_to_devices`. */
  method AssociateClientsToDevices(rows: seq<Row>, devices: seq<Device>) returns (asociaciones: seq<Entry>)
    ensures asociaciones == Entries(rows, devices, Index(devices, IpKey))
  {
    var ipMap := map[];
    for i := 0 to |devices|
      invariant ipMap == Index(devices[..i], IpKey)
    {
      assert devices[..i + 1][..i] == devices[..i];
      var dev := devices[i];
      if dev.ipAddress.Some? && dev.ipAddress.value != "" {
        ipMap := ipMap[dev.ipAddress.value := dev];
      }
    }
    assert devices[..|devices|] == devices;
    asociaciones := [];
    for i := 0 to |rows|
      invariant asociaciones == Entries(rows[..i], devices, ipMap)
    {
      assert rows[..i + 1][..i] == rows[..i];
      var row := rows[i];
      var clientIp, clientName := RowIp(row), RowName(row);
      var matched: Option<Device>;
      if clientIp != "" && clientIp in ipMap {
        matched := Some(ipMap[clientIp]);
      } else {
        matched := ScanByName(devices, clientName);
      }
      if matched.Some? {
        asociaciones := asociaciones + [EntryFor(row, matched.value)];
      }
    }
    assert rows[..|rows|] == rows;
  }

  /** At most one entry per row, and an entry exactly for the rows that matched. */
  lemma {:induction false} EntriesSpec(rows: seq<Row>, devices: seq<Device>, ipMap: map<string, Device>)
    ensures |Entries(rows, devices, ipMap)| <= |rows|
    ensures forall e :: e in Entries(rows, devices, ipMap) <==>
              exists i :: 0 <= i < |rows| && MatchOf(rows[i], devices, ipMap).Some? &&
                          e == EntryFor(rows[i], MatchOf(rows[i], devices, ipMap).value)
  {
    if |rows| > 0 {
      var p := rows[..|rows| - 1];
      EntriesSpec(p, devices, ipMap);
      assert forall i :: 0 <= i < |p| ==> p[i] == rows[i];
    }
  }

  /** The match of one row over the device list: an IP present on some device wins
      (the last such device); otherwise the first device whose name contains the
      row's name; an empty name never matches by name. */
  lemma MatchSpec(row: Row, devices: seq<Device>)
    ensures var m := MatchOf(row, devices, Index(devices, IpKey));
            var ipHit := RowIp(row) != "" && exists i :: 0 <= i < |devices| && IpKey(devices[i]) == Some(RowIp(row));
            && (ipHit ==> exists i :: 0 <= i < |devices| && IpKey(devices[i]) == Some(RowIp(row)) && m == Some(devices[i]) &&
                                     forall j :: i < j < |devices| ==> IpKey(devices[j]) != Some(RowIp(row)))
            && (!ipHit ==> m == FirstByName(devices, RowName(row)))
            && (!ipHit && RowName(row) == "" ==> m.None?)
  {
    IndexLastWins(devices, IpKey, RowIp(row));
  }

  /** The name test is a substring test at some offset of the lower-cased names. */
  lemma NameMatchesAtOffset(clientName: string, d: Device)
    ensures NameMatches(clientName, d) <==>
              clientName != "" && exists i :: OccursAt(DeviceName(d), Lower(clientName), i)
  {
    ContainsAtOffset(DeviceName(d), Lower(clientName));
  }
}
