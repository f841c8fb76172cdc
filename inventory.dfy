/** The inventory service's device records and the roster rows, with the lookup
    tables every service builds from the device list. A Python dict filled
    from a device list (`{key(d): d for d in devices if ...}` or the loop in
    `build_indices`) keeps, for each key, the LAST device with that key, and
    iterates its keys in the order they were FIRST inserted. */
module Inventory {
  import opened Common

  /** The `identification` object of an inventory device; `name` is "" when the
      device has none. */
  datatype Identification = Identification(
    id: Option<string>,
    hostname: Option<string>,
    mac: Option<string>,
    name: string)

  /** One inventory device. `id` is the key `parentId` refers to; `rssi` is the
      wireless signal strength. */
  datatype Device = Device(
    id: string,
    ipAddress: Option<string>,
    mac: Option<string>,
    parentId: Option<string>,
    identification: Identification,
    rssi: Option<int>)

  /** A roster row: column name to cell text. */
  type Row = map<string, string>

  /** `row.get(column)`. */
  function Cell(row: Row, column: string): Option<string> {
    if column in row then Some(row[column]) else None
  }

  /** `str(row.get(c1) or row.get(c2) or ... or "")`: the first non-empty cell. */
  function FirstCell(row: Row, columns: seq<string>): string {
    if |columns| == 0 then "" else OrText(Cell(row, columns[0]), FirstCell(row, columns[1..]))
  }

  /** Devices are indexed by IP only when `ipAddress` is present and non-empty. */
  function IpKey(d: Device): Option<string> {
    if Truthy(d.ipAddress) then d.ipAddress else None
  }

  /** Devices are indexed by lower-cased name only when the name is non-empty. */
  function NameKey(d: Device): Option<string> {
    if d.identification.name != "" then Some(Lower(d.identification.name)) else None
  }

  /** The keys in insertion order, one per device that has a key. */
  function KeySeq(devices: seq<Device>, key: Device -> Option<string>): seq<string> {
    if |devices| == 0 then []
    else
      KeySeq(devices[..|devices| - 1], key) +
      (match key(devices[|devices| - 1]) case Some(k) => [k] case None => [])
  }

  /** The dict built by inserting every device with a key, in list order. */
  function Index(devices: seq<Device>, key: Device -> Option<string>): map<string, Device> {
    if |devices| == 0 then map[]
    else
      var m := Index(devices[..|devices| - 1], key);
      match key(devices[|devices| - 1])
      case Some(k) => m[k := devices[|devices| - 1]]
      case None => m
  }

  /** The iteration order of that dict: keys at their first insertion. */
  function KeyOrder(devices: seq<Device>, key: Device -> Option<string>): seq<string> {
    Dedup(KeySeq(devices, key))
  }

  /** A key is in the index exactly when some device has it, and then it maps to the
      last device in the list that has it. */
  lemma {:induction false} IndexLastWins(devices: seq<Device>, key: Device -> Option<string>, k: string)
    ensures k in Index(devices, key) <==> exists i :: 0 <= i < |devices| && key(devices[i]) == Some(k)
    ensures k in Index(devices, key) ==>
              exists i :: 0 <= i < |devices| && key(devices[i]) == Some(k) && Index(devices, key)[k] == devices[i] &&
                          forall j :: i < j < |devices| ==> key(devices[j]) != Some(k)
  {
    if |devices| > 0 {
      var n := |devices|;
      var p := devices[..n - 1];
      IndexLastWins(p, key, k);
      assert forall i :: 0 <= i < n - 1 ==> p[i] == devices[i];
      if key(devices[n - 1]) == Some(k) {
        assert Index(devices, key)[k] == devices[n - 1];
      } else if k in Index(devices, key) {
        var i :| 0 <= i < n - 1 && key(p[i]) == Some(k) && Index(p, key)[k] == p[i] &&
                 forall j :: i < j < n - 1 ==> key(p[j]) != Some(k);
        assert key(devices[i]) == Some(k) && Index(devices, key)[k] == devices[i];
      }
    }
  }

  /** Every key of the index is the key of the device it maps to. */
  lemma {:induction false} IndexKeyOfValue(devices: seq<Device>, key: Device -> Option<string>)
    ensures forall k :: k in Index(devices, key) ==> key(Index(devices, key)[k]) == Some(k)
  {
    if |devices| > 0 {
      IndexKeyOfValue(devices[..|devices| - 1], key);
    }
  }

  lemma {:induction false} KeySeqElems(devices: seq<Device>, key: Device -> Option<string>)
    ensures Elems(KeySeq(devices, key)) == Index(devices, key).Keys
  {
    if |devices| > 0 {
      KeySeqElems(devices[..|devices| - 1], key);
    }
  }

  /** The iteration order lists every key of the index exactly once. */
  lemma KeyOrderSpec(devices: seq<Device>, key: Device -> Option<string>)
    ensures NoDup(KeyOrder(devices, key))
    ensures Elems(KeyOrder(devices, key)) == Index(devices, key).Keys
    ensures forall k :: k in KeyOrder(devices, key) ==> k in Index(devices, key)
  {
    DedupSpec(KeySeq(devices, key));
    KeySeqElems(devices, key);
  }
}
