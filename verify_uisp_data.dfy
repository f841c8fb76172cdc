/** The matching and counting of app/services/verify_uisp_data.py: three indexes
    over the inventory, and for every roster row a lookup by IP, then MAC, then
    exact name, counted as matched or unmatched. Report writing is not modelled. */
module VerifyUispData {
  import opened Common
  import opened Inventory

  /** `dev.get("mac") or identification.get("mac")`, lower-cased; a device whose
      MAC is missing or empty is not indexed. */
  function MacKey(d: Device): Option<string> {
    var mac := OrElse(d.mac, d.identification.mac);
    if Truthy(mac) then Some(Lower(mac.value)) else None
  }

  datatype Indexes = Indexes(byIp: map<string, Device>, byMac: map<string, Device>, byName: map<string, Device>)

  function IndexesOf(devices: seq<Device>): Indexes {
    Indexes(Index(devices, IpKey), Index(devices, MacKey), Index(devices, NameKey))
  }

  /** `build_indices`: one loop filling the three dicts; empty keys are skipped and
      the last device with a key wins. */
  method BuildIndices(devices: seq<Device>) returns (idxIp: map<string, Device>, idxMac: map<string, Device>, idxName: map<string, Device>)
    ensures Indexes(idxIp, idxMac, idxName) == IndexesOf(devices)
    ensures forall k :: k in idxIp ==> k != "" && IpKey(idxIp[k]) == Some(k)
    ensures forall k :: k in idxMac ==> MacKey(idxMac[k]) == Some(k)
    ensures forall k :: k in idxName ==> NameKey(idxName[k]) == Some(k)
  {
    idxIp, idxMac, idxName := map[], map[], map[];
    for i := 0 to |devices|
      invariant idxIp == Index(devices[..i], IpKey)
      invariant idxMac == Index(devices[..i], MacKey)
      invariant idxName == Index(devices[..i], NameKey)
    {
      assert devices[..i + 1][..i] == devices[..i];
      var dev := devices[i];
      var ip := dev.ipAddress;
      var mac := if dev.mac.Some? && dev.mac.value != "" then dev.mac else dev.identification.mac;
      var name := dev.identification.name;
      if ip.Some? && ip.value != "" {
        idxIp := idxIp[ip.value := dev];
      }
      if mac.Some? && mac.value != "" {
        idxMac := idxMac[Lower(mac.value) := dev];
      }
      if name != "" {
        idxName := idxName[Lower(name) := dev];
      }
    }
    assert devices[..|devices|] == devices;
    IndexKeyOfValue(devices, IpKey);
    IndexKeyOfValue(devices, MacKey);
    IndexKeyOfValue(devices, NameKey);
  }

  /** The value written under `método`. */
  datatype Key = ByIp | ByMac | ByName {
    function Name(): string {
      match this
      case ByIp => "ip"
      case ByMac => "mac"
      case ByName => "name"
    }
  }

  /** The `uisp_*` keys of a matched entry. */
  datatype UispFields = UispFields(uispId: Option<string>, uispName: string, uispIp: Option<string>, uispMac: Option<string>)

  /** One `detalle` entry; `metodo` and `uisp` stand for keys present only when
      matched. */
  datatype Check = Check(
    clienteId: Option<string>,
    clienteNombre: Option<string>,
    clienteIp: string,
    clienteMac: string,
    matched: bool,
    metodo: Option<Key>,
    uisp: Option<UispFields>)

  datatype Summary = Summary(total: nat, matched: nat, unmatched: nat)

  function RowIp(row: Row): string {
    Strip(FirstCell(row, ["Ip", "ip"]))
  }

  function RowMac(row: Row): string {
    Lower(Strip(FirstCell(row, ["Mac", "mac"])))
  }

  function RowName(row: Row): string {
    Lower(Strip(FirstCell(row, ["Nombre", "nombre"])))
  }

  function UispOf(d: Device): UispFields {
    UispFields(d.identification.id, d.identification.name, d.ipAddress, OrElse(d.mac, d.identification.mac))
  }

  /** The lookup chain: the first index that has the row's non-empty key. */
  function Lookup(ip: string, mac: string, name: string, ix: Indexes): Option<(Device, Key)> {
    if ip != "" && ip in ix.byIp then Some((ix.byIp[ip], ByIp))
    else if mac != "" && mac in ix.byMac then Some((ix.byMac[mac], ByMac))
    else if name != "" && name in ix.byName then Some((ix.byName[name], ByName))
    else None
  }

  function CheckOf(row: Row, ix: Indexes): Check {
    var ip, mac := RowIp(row), RowMac(row);
    var hit := Lookup(ip, mac, RowName(row), ix);
    Check(Cell(row, "Id"), Cell(row, "Nombre"), ip, mac, hit.Some?,
          if hit.Some? then Some(hit.value.1) else None,
          if hit.Some? then Some(UispOf(hit.value.0)) else None)
  }

  /** `sin_match`: the unmatched entries, in order. */
  function Unmatched(cs: seq<Check>): seq<Check> {
    if |cs| == 0 then []
    else Unmatched(cs[..|cs| - 1]) + (if cs[|cs| - 1].matched then [] else [cs[|cs| - 1]])
  }

  /** The body of the loop of `verify` for one row, up to the counters. */
  method CheckRow(row: Row, ix: Indexes) returns (entry: Check)
    ensures entry == CheckOf(row, ix)
  {
    var clientIp, clientMac, clientName := RowIp(row), RowMac(row), RowName(row);
    var hit: Option<Device> := None;
    var how: Option<Key> := None;
    if clientIp != "" && clientIp in ix.byIp {
      hit, how := Some(ix.byIp[clientIp]), Some(ByIp);
    } else if clientMac != "" && clientMac in ix.byMac {
      hit, how := Some(ix.byMac[clientMac]), Some(ByMac);
    } else if clientName != "" && clientName in ix.byName {
      hit, how := Some(ix.byName[clientName]), Some(ByName);
    }
    if hit.Some? {
      entry := Check(Cell(row, "Id"), Cell(row, "Nombre"), clientIp, clientMac, true, how, Some(UispOf(hit.value)));
    } else {
      entry := Check(Cell(row, "Id"), Cell(row, "Nombre"), clientIp, clientMac, false, None, None);
    }
  }

  /** The loop of `verify`: one `detalle` entry per row in order, `sin_match` the
      unmatched ones, and the counters adding up to the number of rows. */
  method Verify(rows: seq<Row>, devices: seq<Device>) returns (resumen: Summary, detalle: seq<Check>, sinMatch: seq<Check>)
    ensures resumen.total == |rows|
    ensures resumen.matched + resumen.unmatched == resumen.total
    ensures |detalle| == |rows| && forall i :: 0 <= i < |rows| ==> detalle[i] == CheckOf(rows[i], IndexesOf(devices))
    ensures sinMatch == Unmatched(detalle)
    ensures resumen.unmatched == |sinMatch|
  {
    var idxIp, idxMac, idxName := BuildIndices(devices);
    var ix := Indexes(idxIp, idxMac, idxName);
    resumen := Summary(|rows|, 0, 0);
    detalle, sinMatch := [], [];
    for i := 0 to |rows|
      invariant |detalle| == i && forall k :: 0 <= k < i ==> detalle[k] == CheckOf(rows[k], ix)
      invariant sinMatch == Unmatched(detalle)
      invariant resumen.total == |rows| && resumen.matched + resumen.unmatched == i
      invariant resumen.unmatched == |sinMatch|
    {
      var entry := CheckRow(rows[i], ix);
      if entry.matched {
        resumen := resumen.(matched := resumen.matched + 1);
      } else {
        resumen := resumen.(unmatched := resumen.unmatched + 1);
        sinMatch := sinMatch + [entry];
      }
      assert (detalle + [entry])[..i] == detalle;
      detalle := detalle + [entry];
    }
  }

  /** `sin_match` holds exactly the unmatched entries of `detalle`. */
  lemma {:induction false} UnmatchedSpec(cs: seq<Check>)
    ensures |Unmatched(cs)| <= |cs|
    ensures forall c :: c in Unmatched(cs) <==> c in cs && !c.matched
  {
    if |cs| > 0 {
      UnmatchedSpec(cs[..|cs| - 1]);
      assert cs == cs[..|cs| - 1] + [cs[|cs| - 1]];
    }
  }

  /** The chain over the device list: IP first, then MAC, then exact name; each step
      only when every earlier one missed and its own key is non-empty; the device
      is the last one carrying the key; an entry is matched exactly when some step
      hit, and only then carries a method and the `uisp_*` keys. */
  lemma MatchPriority(row: Row, devices: seq<Device>)
    ensures var c := CheckOf(row, IndexesOf(devices));
            var ipHit := RowIp(row) != "" && exists i :: 0 <= i < |devices| && IpKey(devices[i]) == Some(RowIp(row));
            var macHit := RowMac(row) != "" && exists i :: 0 <= i < |devices| && MacKey(devices[i]) == Some(RowMac(row));
            var nameHit := RowName(row) != "" && exists i :: 0 <= i < |devices| && NameKey(devices[i]) == Some(RowName(row));
            && (c.metodo == Some(ByIp) <==> ipHit)
            && (c.metodo == Some(ByMac) <==> !ipHit && macHit)
            && (c.metodo == Some(ByName) <==> !ipHit && !macHit && nameHit)
            && (c.matched <==> ipHit || macHit || nameHit)
            && (c.matched <==> c.metodo.Some?) && (c.matched <==> c.uisp.Some?)
            && c.clienteIp == RowIp(row) && c.clienteMac == RowMac(row)
  {
    IndexLastWins(devices, IpKey, RowIp(row));
    IndexLastWins(devices, MacKey, RowMac(row));
    IndexLastWins(devices, NameKey, RowName(row));
  }

  /** The device a matched entry reports is the last device in the list carrying the
      key it matched on. */
  lemma MatchedDevice(row: Row, devices: seq<Device>)
    ensures var c := CheckOf(row, IndexesOf(devices));
            && (c.metodo == Some(ByIp) ==>
                  exists i :: 0 <= i < |devices| && IpKey(devices[i]) == Some(RowIp(row)) && c.uisp == Some(UispOf(devices[i])) &&
                              forall j :: i < j < |devices| ==> IpKey(devices[j]) != Some(RowIp(row)))
            && (c.metodo == Some(ByMac) ==>
                  exists i :: 0 <= i < |devices| && MacKey(devices[i]) == Some(RowMac(row)) && c.uisp == Some(UispOf(devices[i])) &&
                              forall j :: i < j < |devices| ==> MacKey(devices[j]) != Some(RowMac(row)))
            && (c.metodo == Some(ByName) ==>
                  exists i :: 0 <= i < |devices| && NameKey(devices[i]) == Some(RowName(row)) && c.uisp == Some(UispOf(devices[i])) &&
                              forall j :: i < j < |devices| ==> NameKey(devices[j]) != Some(RowName(row)))
  {
    IndexLastWins(devices, IpKey, RowIp(row));
    IndexLastWins(devices, MacKey, RowMac(row));
    IndexLastWins(devices, NameKey, RowName(row));
  }
}
