/** The identity resolver of app/services/client_service.py: every roster row is
    matched against the inventory by a fixed chain of strategies, the first hit
    winning: exact IP, exact MAC, exact name, same /24 network, then the most
    similar name when its similarity reaches the threshold. */
module ClientService {
  import opened Common
  import opened Inventory

  /** The default `fuzzy_threshold`. */
  const DefaultFuzzyThreshold: real := 0.8

  /** A similarity ratio. The string-similarity measure itself is a parameter. */
  type Ratio = r: real | 0.0 <= r <= 1.0

  datatype Method = IpExact | MacExact | NameExact | Subnet24 | NameFuzzy {
    /** The value written under the entry's `método` key. */
    function Name(): string {
      match this
      case IpExact => "ip_exact"
      case MacExact => "mac_exact"
      case NameExact => "name_exact"
      case Subnet24 => "subnet_24"
      case NameFuzzy => "name_fuzzy"
    }
  }

  // ---------------------------------------------------------------- lookup maps

  /** `mac_map` key: `(dev.mac or identification.mac or "").lower()`; every device
      gets one, possibly "". */
  function MacKeyAll(d: Device): Option<string> {
    Some(Lower(if Truthy(d.mac) then d.mac.value else OrEmpty(d.identification.mac)))
  }

  /** `ip_map`, `mac_map` and `name_map`, with the iteration order of the two that
      are scanned. */
  datatype Indices = Indices(
    ipOrder: seq<string>,
    ipMap: map<string, Device>,
    macMap: map<string, Device>,
    nameOrder: seq<string>,
    nameMap: map<string, Device>)

  ghost predicate WellFormed(ix: Indices) {
    && (forall k :: k in ix.ipOrder ==> k in ix.ipMap)
    && (forall k :: k in ix.nameOrder ==> k in ix.nameMap)
  }

  function IndicesOf(devices: seq<Device>): (ix: Indices)
    ensures WellFormed(ix)
  {
    KeyOrderSpec(devices, IpKey);
    KeyOrderSpec(devices, NameKey);
    Indices(KeyOrder(devices, IpKey), Index(devices, IpKey), Index(devices, MacKeyAll),
            KeyOrder(devices, NameKey), Index(devices, NameKey))
  }

  // ---------------------------------------------------------------- the /24 step

  predicate IsDigit(c: char) {
    '0' <= c <= '9'
  }

  function DigitsValue(s: string): nat
    requires forall i :: 0 <= i < |s| ==> IsDigit(s[i])
  {
    if |s| == 0 then 0
    else
      assert IsDigit(s[|s| - 1]);
      DigitsValue(s[..|s| - 1]) * 10 + (s[|s| - 1] as int - '0' as int)
  }

  /** One decimal octet as Python's `ipaddress` accepts it: 1 to 3 digits, no
      leading zero, at most 255. */
  function ParseOctet(s: string): (r: Option<int>)
    ensures r.Some? ==> 0 <= r.value <= 255
  {
    if 1 <= |s| <= 3 && (forall i :: 0 <= i < |s| ==> IsDigit(s[i])) && (|s| == 1 || s[0] != '0')
       && DigitsValue(s) <= 255
    then Some(DigitsValue(s))
    else None
  }

  /** A dotted-quad IPv4 address, or None where `ipaddress` raises `ValueError`. */
  function ParseIPv4(s: string): (r: Option<seq<int>>)
    ensures r.Some? ==> |r.value| == 4
  {
    var parts := Split(s, '.');
    if |parts| != 4 then None
    else
      match (ParseOctet(parts[0]), ParseOctet(parts[1]), ParseOctet(parts[2]), ParseOctet(parts[3]))
      case (Some(a), Some(b), Some(c), Some(d)) => Some([a, b, c, d])
      case _ => None
  }

  /** The decimal text of `v`, without leading zeros. */
  function Decimal(v: nat): (s: string)
    ensures |s| >= 1 && forall i :: 0 <= i < |s| ==> IsDigit(s[i])
  {
    var c := ('0' as int + v % 10) as char;
    if v < 10 then [c] else Decimal(v / 10) + [c]
  }

  /** The decimal text reads back as its number, has no leading zero, and is at most
      three digits long below 1000. */
  lemma {:induction false} DecimalValue(v: nat)
    ensures DigitsValue(Decimal(v)) == v
    ensures |Decimal(v)| == 1 || Decimal(v)[0] != '0'
    ensures v < 10 ==> |Decimal(v)| == 1
    ensures v < 100 ==> |Decimal(v)| <= 2
    ensures v < 1000 ==> |Decimal(v)| <= 3
  {
    if v >= 10 {
      var d := Decimal(v / 10);
      DecimalValue(v / 10);
      assert (d + [Decimal(v)[|Decimal(v)| - 1]])[..|d|] == d;
      assert Decimal(v)[0] == d[0];
    }
  }

  /** Every number 0..255 written in decimal parses as that octet. */
  lemma DecimalOctet(v: nat)
    requires v <= 255
    ensures ParseOctet(Decimal(v)) == Some(v)
  {
    DecimalValue(v);
  }

  /** A digit string without a leading zero is the decimal text of its value. */
  lemma {:induction false} DigitsDecimal(s: string)
    requires |s| >= 1 && forall i :: 0 <= i < |s| ==> IsDigit(s[i])
    requires |s| == 1 || s[0] != '0'
    ensures s == Decimal(DigitsValue(s))
    decreases |s|
  {
    var p := s[..|s| - 1];
    if |s| == 1 {
      assert DigitsValue(s) == 0 * 10 + (s[0] as int - '0' as int);
    } else {
      assert p[0] == s[0];
      DigitsDecimal(p);
      assert Decimal(0) == "0";
      assert DigitsValue(p) != 0;
      var last := s[|s| - 1];
      var dp, k := DigitsValue(p), last as int - '0' as int;
      assert IsDigit(last);
      assert DigitsValue(s) == dp * 10 + k;
      DivMod10(dp, k);
      assert Decimal(dp * 10 + k) == Decimal(dp) + [('0' as int + k) as char];
      assert s == p + [last];
    }
  }

  lemma DivMod10(q: nat, k: int)
    requires 0 <= k < 10
    ensures (q * 10 + k) / 10 == q && (q * 10 + k) % 10 == k
  {
  }

  /** The converse: the only text that parses as an octet is its decimal text. */
  lemma OctetIsDecimal(s: string, v: int)
    requires ParseOctet(s) == Some(v)
    ensures 0 <= v <= 255 && s == Decimal(v)
  {
    DigitsDecimal(s);
  }

  /** Four octets written in decimal and joined with dots parse back as those four. */
  lemma QuadRoundTrip(a: nat, b: nat, c: nat, d: nat)
    requires a <= 255 && b <= 255 && c <= 255 && d <= 255
    ensures ParseIPv4(Join([Decimal(a), Decimal(b), Decimal(c), Decimal(d)], '.')) == Some([a, b, c, d])
  {
    var da, db, dc, dd := Decimal(a), Decimal(b), Decimal(c), Decimal(d);
    DecimalOctet(a);
    DecimalOctet(b);
    DecimalOctet(c);
    DecimalOctet(d);
    DecimalNoDot(a);
    DecimalNoDot(b);
    DecimalNoDot(c);
    DecimalNoDot(d);
    JoinQuad(da, db, dc, dd);
    ParseQuad(da, db, dc, dd, a, b, c, d);
  }

  lemma DecimalNoDot(v: nat)
    ensures '.' !in Decimal(v)
  {
    var s := Decimal(v);
    forall i | 0 <= i < |s| ensures s[i] != '.' {
      assert IsDigit(s[i]);
    }
  }

  lemma JoinQuad(a: string, b: string, c: string, d: string)
    ensures Join([a, b, c, d], '.') == a + "." + (b + "." + (c + "." + d))
  {
    assert [c, d][1..] == [d];
    assert Join([c, d], '.') == c + "." + d;
    assert [b, c, d][1..] == [c, d];
    assert Join([b, c, d], '.') == b + "." + (c + "." + d);
    assert [a, b, c, d][1..] == [b, c, d];
  }

  /** The converse: an address that parses is the dotted decimal text of its octets. */
  lemma ParsedQuadIsDecimal(s: string)
    requires ParseIPv4(s).Some?
    ensures var q := ParseIPv4(s).value;
            && (forall i :: 0 <= i < 4 ==> 0 <= q[i] <= 255)
            && s == Join([Decimal(q[0]), Decimal(q[1]), Decimal(q[2]), Decimal(q[3])], '.')
  {
    var parts := Split(s, '.');
    var q := ParseIPv4(s).value;
    SplitParts(s, '.');
    OctetIsDecimal(parts[0], q[0]);
    OctetIsDecimal(parts[1], q[1]);
    OctetIsDecimal(parts[2], q[2]);
    OctetIsDecimal(parts[3], q[3]);
    assert parts == [Decimal(q[0]), Decimal(q[1]), Decimal(q[2]), Decimal(q[3])];
  }

  /** `ip_address(addr) in net` for the /24 network `net` of the client. */
  predicate InNet(net: seq<int>, addr: string)
    requires |net| == 4
  {
    var a := ParseIPv4(addr);
    a.Some? && a.value[..3] == net[..3]
  }

  /** The scan over `ip_map.items()`: the first address inside `net`; an address that
      does not parse raises, and the handler leaves the step without a match. */
  function FirstInNet(net: seq<int>, order: seq<string>, ipMap: map<string, Device>): Option<Device>
    requires |net| == 4
    requires forall k :: k in order ==> k in ipMap
  {
    if |order| == 0 then None
    else if ParseIPv4(order[0]).None? then None
    else if InNet(net, order[0]) then Some(ipMap[order[0]])
    else FirstInNet(net, order[1..], ipMap)
  }

  /** The whole /24 step: an unparseable client IP raises at once and matches nothing. */
  function Subnet24Match(clientIp: string, order: seq<string>, ipMap: map<string, Device>): Option<Device>
    requires forall k :: k in order ==> k in ipMap
  {
    match ParseIPv4(clientIp)
    case None => None
    case Some(net) => FirstInNet(net, order, ipMap)
  }

  /** The scan reaches position `i` and matches there: every earlier address parsed
      and lay outside the network. */
  ghost predicate MatchesAt(net: seq<int>, order: seq<string>, i: int)
    requires |net| == 4
  {
    && 0 <= i < |order|
    && InNet(net, order[i])
    && forall j :: 0 <= j < i ==> ParseIPv4(order[j]).Some? && !InNet(net, order[j])
  }

  /** The /24 scan finds a device exactly when it reaches an address inside the
      network before any unparseable one, and then it is that address's device. */
  lemma {:induction false} FirstInNetSpec(net: seq<int>, order: seq<string>, ipMap: map<string, Device>)
    requires |net| == 4
    requires forall k :: k in order ==> k in ipMap
    ensures FirstInNet(net, order, ipMap).Some? <==> exists i :: MatchesAt(net, order, i)
    ensures forall i :: MatchesAt(net, order, i) ==> FirstInNet(net, order, ipMap) == Some(ipMap[order[i]])
  {
    if |order| > 0 {
      var rest := order[1..];
      FirstInNetSpec(net, rest, ipMap);
      if ParseIPv4(order[0]).None? {
        assert !exists i :: MatchesAt(net, order, i);
      } else if InNet(net, order[0]) {
        assert MatchesAt(net, order, 0);
        assert forall i :: MatchesAt(net, order, i) ==> i == 0;
      } else {
        forall i | MatchesAt(net, order, i) ensures i > 0 && MatchesAt(net, rest, i - 1) {
          assert i != 0;
          forall j | 0 <= j < i - 1 ensures ParseIPv4(rest[j]).Some? && !InNet(net, rest[j]) {
            assert rest[j] == order[j + 1];
          }
        }
        forall i | MatchesAt(net, rest, i) ensures MatchesAt(net, order, i + 1) {
          forall j | 0 <= j < i + 1 ensures ParseIPv4(order[j]).Some? && !InNet(net, order[j]) {
            if j > 0 {
              assert order[j] == rest[j - 1];
            }
          }
        }
      }
    }
  }

  method SubnetScan(clientIp: string, order: seq<string>, ipMap: map<string, Device>) returns (found: Option<Device>)
    requires forall k :: k in order ==> k in ipMap
    ensures found == Subnet24Match(clientIp, order, ipMap)
    ensures found.Some? ==> exists k :: k in order && found == Some(ipMap[k])
  {
    found := None;
    var net := ParseIPv4(clientIp);
    if net.None? {
      return;
    }
    var i := 0;
    while i < |order|
      invariant 0 <= i <= |order|
      invariant FirstInNet(net.value, order, ipMap) == FirstInNet(net.value, order[i..], ipMap)
    {
      var addr := ParseIPv4(order[i]);
      if addr.None? {
        return;
      }
      if addr.value[..3] == net.value[..3] {
        found := Some(ipMap[order[i]]);
        return;
      }
      assert order[i..][1..] == order[i + 1..];
      i := i + 1;
    }
  }

  // ---------------------------------------------------------------- the fuzzy step

  /** The best ratio so far and the device that first reached it. */
  datatype Best = Best(ratio: real, device: Option<Device>)

  /** The scan over `name_map.items()`: `best_ratio` starts at 0.0 and is replaced only
      by a strictly greater ratio. */
  function BestFuzzy(name: string, order: seq<string>, nameMap: map<string, Device>, sim: (string, string) -> Ratio): Best
    requires forall k :: k in order ==> k in nameMap
  {
    if |order| == 0 then Best(0.0, None)
    else
      var b := BestFuzzy(name, order[..|order| - 1], nameMap, sim);
      var k := order[|order| - 1];
      if sim(name, k) > b.ratio then Best(sim(name, k), Some(nameMap[k])) else b
  }

  /** The scan returns the maximum ratio (0.0 when nothing is positive), and the
      device of the first name reaching it; ties keep the first-seen name. */
  lemma {:induction false} BestFuzzySpec(name: string, order: seq<string>, nameMap: map<string, Device>, sim: (string, string) -> Ratio)
    requires forall k :: k in order ==> k in nameMap
    ensures var b := BestFuzzy(name, order, nameMap, sim);
            && 0.0 <= b.ratio <= 1.0
            && (forall j :: 0 <= j < |order| ==> sim(name, order[j]) <= b.ratio)
            && (b.device.Some? <==> b.ratio > 0.0)
            && (b.device.Some? ==>
                  exists i :: 0 <= i < |order| && sim(name, order[i]) == b.ratio && b.device == Some(nameMap[order[i]]) &&
                              forall j :: 0 <= j < i ==> sim(name, order[j]) < b.ratio)
  {
    if |order| > 0 {
      var n := |order|;
      var p := order[..n - 1];
      assert forall j :: 0 <= j < n - 1 ==> p[j] == order[j];
      BestFuzzySpec(name, p, nameMap, sim);
      var b := BestFuzzy(name, p, nameMap, sim);
      if sim(name, order[n - 1]) > b.ratio {
        assert BestFuzzy(name, order, nameMap, sim) == Best(sim(name, order[n - 1]), Some(nameMap[order[n - 1]]));
      } else if b.device.Some? {
        var i :| 0 <= i < n - 1 && sim(name, p[i]) == b.ratio && b.device == Some(nameMap[p[i]]) &&
                 forall j :: 0 <= j < i ==> sim(name, p[j]) < b.ratio;
        assert sim(name, order[i]) == b.ratio;
      }
    }
  }

  method FuzzyScan(name: string, order: seq<string>, nameMap: map<string, Device>, sim: (string, string) -> Ratio)
    returns (bestRatio: real, bestDev: Option<Device>)
    requires forall k :: k in order ==> k in nameMap
    ensures Best(bestRatio, bestDev) == BestFuzzy(name, order, nameMap, sim)
    ensures forall j :: 0 <= j < |order| ==> sim(name, order[j]) <= bestRatio
  {
    bestRatio, bestDev := 0.0, None;
    for i := 0 to |order|
      invariant Best(bestRatio, bestDev) == BestFuzzy(name, order[..i], nameMap, sim)
    {
      assert order[..i + 1][..i] == order[..i];
      var ratio := sim(name, order[i]);
      if ratio > bestRatio {
        bestRatio, bestDev := ratio, Some(nameMap[order[i]]);
      }
    }
    assert order[..|order|] == order;
    BestFuzzySpec(name, order, nameMap, sim);
  }

  // ---------------------------------------------------------------- the chain

  /** What the chain settles on: `match`, `method` and `similarity`. */
  datatype Resolution = Resolution(device: Option<Device>, strategy: Option<Method>, similarity: Option<real>)

  predicate IpHit(ip: string, ix: Indices) {
    ip != "" && ip in ix.ipMap
  }

  predicate MacHit(mac: string, ix: Indices) {
    mac != "" && mac in ix.macMap
  }

  predicate NameHit(name: string, ix: Indices) {
    name != "" && name in ix.nameMap
  }

  /** The five strategies in priority order, for the already normalised client IP,
      MAC and name. Each strategy is used exactly when every earlier one missed;
      the fuzzy result is accepted exactly when the best ratio reaches the
      threshold, and only then is a similarity reported. */
  function Resolve(ip: string, mac: string, name: string, ix: Indices, threshold: real, sim: (string, string) -> Ratio): (r: Resolution)
    requires WellFormed(ix)
    ensures r.strategy == Some(IpExact) <==> IpHit(ip, ix)
    ensures r.strategy == Some(MacExact) <==> !IpHit(ip, ix) && MacHit(mac, ix)
    ensures r.strategy == Some(NameExact) <==> !IpHit(ip, ix) && !MacHit(mac, ix) && NameHit(name, ix)
    ensures r.strategy == Some(Subnet24) <==>
              !IpHit(ip, ix) && !MacHit(mac, ix) && !NameHit(name, ix) && ip != "" &&
              Subnet24Match(ip, ix.ipOrder, ix.ipMap).Some?
    ensures r.strategy == Some(NameFuzzy) <==>
              !IpHit(ip, ix) && !MacHit(mac, ix) && !NameHit(name, ix) &&
              (ip == "" || Subnet24Match(ip, ix.ipOrder, ix.ipMap).None?) &&
              name != "" && BestFuzzy(name, ix.nameOrder, ix.nameMap, sim).ratio >= threshold
    ensures r.strategy == Some(IpExact) ==> r.device == Some(ix.ipMap[ip])
    ensures r.strategy == Some(MacExact) ==> r.device == Some(ix.macMap[mac])
    ensures r.strategy == Some(NameExact) ==> r.device == Some(ix.nameMap[name])
    ensures r.strategy == Some(Subnet24) ==> r.device == Subnet24Match(ip, ix.ipOrder, ix.ipMap)
    ensures r.strategy == Some(NameFuzzy) ==> r.device == BestFuzzy(name, ix.nameOrder, ix.nameMap, sim).device
    ensures r.strategy.None? ==> r.device.None?
    ensures r.similarity.Some? <==> r.strategy == Some(NameFuzzy)
    ensures r.similarity.Some? ==> r.similarity.value >= threshold && 0.0 <= r.similarity.value <= 1.0
    ensures r.strategy == Some(NameFuzzy) && r.device.None? ==> threshold <= 0.0
  {
    var first :=
      if IpHit(ip, ix) then Resolution(Some(ix.ipMap[ip]), Some(IpExact), None)
      else if MacHit(mac, ix) then Resolution(Some(ix.macMap[mac]), Some(MacExact), None)
      else if NameHit(name, ix) then Resolution(Some(ix.nameMap[name]), Some(NameExact), None)
      else if ip != "" && Subnet24Match(ip, ix.ipOrder, ix.ipMap).Some? then
        Resolution(Subnet24Match(ip, ix.ipOrder, ix.ipMap), Some(Subnet24), None)
      else Resolution(None, None, None);
    if first.device.None? && name != "" then
      BestFuzzySpec(name, ix.nameOrder, ix.nameMap, sim);
      var b := BestFuzzy(name, ix.nameOrder, ix.nameMap, sim);
      if b.ratio >= threshold then Resolution(b.device, Some(NameFuzzy), Some(b.ratio)) else first
    else first
  }

  // ---------------------------------------------------------------- output entries

  /** The device keys of an entry: `dispositivo_id`, `hostname`, `uisp_ip`, `uisp_mac`. */
  datatype DeviceFields = DeviceFields(
    dispositivoId: Option<string>,
    hostname: Option<string>,
    uispIp: Option<string>,
    uispMac: Option<string>)

  /** One output entry. `similarity` and `device` stand for keys that are present only
      when they are Some. */
  datatype Association = Association(
    clienteNombre: string,
    plan: string,
    ip: string,
    clienteMac: string,
    matched: bool,
    strategy: Option<Method>,
    similarity: Option<real>,
    device: Option<DeviceFields>)

  function FieldsOf(d: Device): DeviceFields {
    DeviceFields(d.identification.id, d.identification.hostname, d.ipAddress, OrElse(d.mac, d.identification.mac))
  }

  /** The row's IP, stripped. */
  function ClientIp(row: Row): string {
    Strip(FirstCell(row, ["ip", "ip_address"]))
  }

  /** The row's MAC, stripped and lower-cased. */
  function ClientMac(row: Row): string {
    Lower(Strip(FirstCell(row, ["mac"])))
  }

  /** The row's name, stripped and lower-cased. */
  function ClientName(row: Row): string {
    Lower(Strip(FirstCell(row, ["nombre", "name"])))
  }

  function ResolveRow(row: Row, ix: Indices, threshold: real, sim: (string, string) -> Ratio): Resolution
    requires WellFormed(ix)
  {
    Resolve(ClientIp(row), ClientMac(row), ClientName(row), ix, threshold, sim)
  }

  function EntryOf(row: Row, ix: Indices, threshold: real, sim: (string, string) -> Ratio): Association
    requires WellFormed(ix)
  {
    var r := ResolveRow(row, ix, threshold, sim);
    Association(
      Strip(FirstCell(row, ["nombre", "name"])), Strip(FirstCell(row, ["plan"])),
      ClientIp(row), ClientMac(row),
      r.device.Some?, r.strategy, r.similarity,
      if r.device.Some? then Some(FieldsOf(r.device.value)) else None)
  }

  /** The per-row loop of `associate_clients_to_devices`. */
  method AssociateClientsToDevices(rows: seq<Row>, devices: seq<Device>, threshold: real, sim: (string, string) -> Ratio)
    returns (asociaciones: seq<Association>)
    ensures |asociaciones| == |rows|
    ensures forall i :: 0 <= i < |rows| ==> asociaciones[i] == EntryOf(rows[i], IndicesOf(devices), threshold, sim)
  {
    var ix := IndicesOf(devices);
    asociaciones := [];
    for i := 0 to |rows|
      invariant |asociaciones| == i
      invariant forall k :: 0 <= k < i ==> asociaciones[k] == EntryOf(rows[k], ix, threshold, sim)
    {
      var entry := AssociateRow(rows[i], ix, threshold, sim);
      asociaciones := asociaciones + [entry];
    }
  }

  /** The body of the per-row loop: the chain, then the entry. */
  method AssociateRow(row: Row, ix: Indices, threshold: real, sim: (string, string) -> Ratio) returns (entry: Association)
    requires WellFormed(ix)
    ensures entry == EntryOf(row, ix, threshold, sim)
  {
    var clientIp := Strip(FirstCell(row, ["ip", "ip_address"]));
    var clientMac := Lower(Strip(FirstCell(row, ["mac"])));
    var clientName := Lower(Strip(FirstCell(row, ["nombre", "name"])));
    var hit, how, similarity := ResolveChain(clientIp, clientMac, clientName, ix, threshold, sim);
    entry := Association(
      Strip(FirstCell(row, ["nombre", "name"])), Strip(FirstCell(row, ["plan"])),
      clientIp, clientMac, hit.Some?, how, similarity,
      if hit.Some? then Some(FieldsOf(hit.value)) else None);
  }

  /** The assignments to `match`, `method` and `similarity`. */
  method ResolveChain(clientIp: string, clientMac: string, clientName: string, ix: Indices, threshold: real,
                      sim: (string, string) -> Ratio)
    returns (hit: Option<Device>, how: Option<Method>, similarity: Option<real>)
    requires WellFormed(ix)
    ensures Resolution(hit, how, similarity) == Resolve(clientIp, clientMac, clientName, ix, threshold, sim)
  {
    hit, how, similarity := None, None, None;
    if clientIp != "" && clientIp in ix.ipMap {
      hit, how := Some(ix.ipMap[clientIp]), Some(IpExact);
    } else if clientMac != "" && clientMac in ix.macMap {
      hit, how := Some(ix.macMap[clientMac]), Some(MacExact);
    } else if clientName != "" && clientName in ix.nameMap {
      hit, how := Some(ix.nameMap[clientName]), Some(NameExact);
    } else if clientIp != "" {
      var found := SubnetScan(clientIp, ix.ipOrder, ix.ipMap);
      if found.Some? {
        hit, how := found, Some(Subnet24);
      }
    }
    if hit.None? && clientName != "" {
      var bestRatio, bestDev := FuzzyScan(clientName, ix.nameOrder, ix.nameMap, sim);
      if bestRatio >= threshold {
        hit, how, similarity := bestDev, Some(NameFuzzy), Some(bestRatio);
      }
    }
  }

  // ---------------------------------------------------------------- properties

  /** An entry is matched exactly when the chain found a device; the device keys are
      present exactly then, `similarity` exactly for an accepted fuzzy match, and a
      `método` without a device only for a fuzzy step under a threshold of at most 0. */
  lemma EntryShape(row: Row, devices: seq<Device>, threshold: real, sim: (string, string) -> Ratio)
    ensures var e := EntryOf(row, IndicesOf(devices), threshold, sim);
            && (e.matched <==> e.device.Some?)
            && (e.similarity.Some? <==> e.strategy == Some(NameFuzzy))
            && (e.matched ==> e.strategy.Some?)
            && (!e.matched && e.strategy.Some? ==> e.strategy == Some(NameFuzzy) && threshold <= 0.0)
            && e.ip == ClientIp(row) && e.clienteMac == ClientMac(row)
  {
  }

  /** The three exact strategies, stated over the device list: a strategy hits when
      some device carries the normalised key, and the device it yields is the LAST
      one in the list carrying it. The MAC key falls back to the nested
      identification MAC, and both MAC and name are compared lower-cased. */
  lemma ExactHitsFromDevices(row: Row, devices: seq<Device>, threshold: real, sim: (string, string) -> Ratio)
    ensures var r := ResolveRow(row, IndicesOf(devices), threshold, sim);
            && (r.strategy == Some(IpExact) <==>
                  ClientIp(row) != "" && exists i :: 0 <= i < |devices| && IpKey(devices[i]) == Some(ClientIp(row)))
            && (r.strategy == Some(IpExact) ==>
                  exists i :: 0 <= i < |devices| && IpKey(devices[i]) == Some(ClientIp(row)) && r.device == Some(devices[i]) &&
                              forall j :: i < j < |devices| ==> IpKey(devices[j]) != Some(ClientIp(row)))
            && (r.strategy == Some(MacExact) ==>
                  exists i :: 0 <= i < |devices| && MacKeyAll(devices[i]) == Some(ClientMac(row)) && r.device == Some(devices[i]) &&
                              forall j :: i < j < |devices| ==> MacKeyAll(devices[j]) != Some(ClientMac(row)))
            && (r.strategy == Some(NameExact) ==>
                  exists i :: 0 <= i < |devices| && NameKey(devices[i]) == Some(ClientName(row)) && r.device == Some(devices[i]) &&
                              forall j :: i < j < |devices| ==> NameKey(devices[j]) != Some(ClientName(row)))
  {
    IndexLastWins(devices, IpKey, ClientIp(row));
    IndexLastWins(devices, MacKeyAll, ClientMac(row));
    IndexLastWins(devices, NameKey, ClientName(row));
  }

  // ---------------------------------------------------------------- test scenarios

  /** The device list of tests/test_client_service.py (top-level ids absent there). */
  function TestDevices(): seq<Device> {
    [TestDevice1(), TestDevice2(), TestDevice3()]
  }

  function TestDevice1(): Device {
    Device("", Some("192.168.1.10"), None, None,
           Identification(Some("1"), Some("dev1"), Some("AA:BB:CC:DD:EE:FF"), "Cliente1"), None)
  }

  function TestDevice2(): Device {
    Device("", Some("192.168.1.20"), None, None,
           Identification(Some("2"), Some("dev2"), Some("11:22:33:44:55:66"), "ClienteDos"), None)
  }

  function TestDevice3(): Device {
    Device("", Some("10.0.0.5"), None, None,
           Identification(Some("3"), Some("dev3"), Some("77:88:99:AA:BB:CC"), "Otro"), None)
  }

  function TestRow(nombre: string, ip: string, mac: string): Row {
    map["nombre" := nombre, "ip" := ip, "mac" := mac, "plan" := ""]
  }

  /** `ip_map` of the test devices, and its iteration order. */
  lemma TestIpIndex()
    ensures IndicesOf(TestDevices()).ipMap ==
              map["192.168.1.10" := TestDevice1(), "192.168.1.20" := TestDevice2(), "10.0.0.5" := TestDevice3()]
    ensures IndicesOf(TestDevices()).ipOrder == ["192.168.1.10", "192.168.1.20", "10.0.0.5"]
  {
    var ds := TestDevices();
    assert ds[..2] == [TestDevice1(), TestDevice2()];
    assert ds[..2][..1] == [TestDevice1()];
    assert ds[..2][..1][..0] == [];
    assert IpKey(TestDevice1()) == Some("192.168.1.10");
    assert IpKey(TestDevice2()) == Some("192.168.1.20");
    assert IpKey(TestDevice3()) == Some("10.0.0.5");
    assert KeySeq(ds[..2][..1], IpKey) == ["192.168.1.10"];
    assert KeySeq(ds[..2], IpKey) == ["192.168.1.10", "192.168.1.20"];
    var ks := ["192.168.1.10", "192.168.1.20", "10.0.0.5"];
    assert KeySeq(ds, IpKey) == ks;
    assert Index(ds[..2][..1], IpKey) == map["192.168.1.10" := TestDevice1()];
    assert Index(ds[..2], IpKey) == map["192.168.1.10" := TestDevice1(), "192.168.1.20" := TestDevice2()];
    TestKeyOrder(ks);
  }

  lemma TestKeyOrder(ks: seq<string>)
    requires ks == ["192.168.1.10", "192.168.1.20", "10.0.0.5"]
    ensures Dedup(ks) == ks
  {
    assert ks[..2] == ["192.168.1.10", "192.168.1.20"];
    assert ks[..2][..1] == ["192.168.1.10"];
    assert ks[..2][..1][..0] == [];
    assert Dedup(ks[..2][..1]) == ["192.168.1.10"];
    assert Dedup(ks[..2]) == ["192.168.1.10", "192.168.1.20"];
  }

  /** `mac_map` of the test devices: keyed by the nested MAC, lower-cased. */
  lemma TestMacIndex()
    ensures IndicesOf(TestDevices()).macMap ==
              map[Lower("AA:BB:CC:DD:EE:FF") := TestDevice1(), Lower("11:22:33:44:55:66") := TestDevice2(),
                  Lower("77:88:99:AA:BB:CC") := TestDevice3()]
  {
    var ds := TestDevices();
    assert ds[..2] == [TestDevice1(), TestDevice2()];
    assert ds[..2][..1] == [TestDevice1()];
    assert ds[..2][..1][..0] == [];
    var k1, k2, k3 := Lower("AA:BB:CC:DD:EE:FF"), Lower("11:22:33:44:55:66"), Lower("77:88:99:AA:BB:CC");
    assert MacKeyAll(TestDevice1()) == Some(k1);
    assert MacKeyAll(TestDevice2()) == Some(k2);
    assert MacKeyAll(TestDevice3()) == Some(k3);
    assert k1[0] == 'a' && k2[0] == '1' && k3[0] == '7';
    assert Index(ds[..2][..1], MacKeyAll) == map[k1 := TestDevice1()];
    assert Index(ds[..2], MacKeyAll) == map[k1 := TestDevice1(), k2 := TestDevice2()];
  }

  /** `name_map` of the test devices: keyed by the lower-cased name. */
  lemma TestNameIndex()
    ensures IndicesOf(TestDevices()).nameMap ==
              map["cliente1" := TestDevice1(), "clientedos" := TestDevice2(), "otro" := TestDevice3()]
  {
    var ds := TestDevices();
    assert ds[..2] == [TestDevice1(), TestDevice2()];
    assert ds[..2][..1] == [TestDevice1()];
    assert ds[..2][..1][..0] == [];
    assert Lower("Cliente1") == "cliente1";
    assert Lower("ClienteDos") == "clientedos";
    assert Lower("Otro") == "otro";
    assert NameKey(TestDevice1()) == Some("cliente1");
    assert NameKey(TestDevice2()) == Some("clientedos");
    assert NameKey(TestDevice3()) == Some("otro");
    assert Index(ds[..2][..1], NameKey) == map["cliente1" := TestDevice1()];
    assert Index(ds[..2], NameKey) == map["cliente1" := TestDevice1(), "clientedos" := TestDevice2()];
  }

  lemma SplitAt(a: string, rest: string)
    requires '.' !in a
    ensures Split(a + "." + rest, '.') == [a] + Split(rest, '.')
  {
    var s := a + "." + rest;
    assert s[|a|] == '.';
    assert forall j :: 0 <= j < |a| ==> s[j] == a[j];
    assert IndexOf(s, '.') == |a|;
    assert s[..|a|] == a && s[|a| + 1..] == rest;
  }

  lemma SplitLast(a: string)
    requires '.' !in a
    ensures Split(a, '.') == [a]
  {
    assert IndexOf(a, '.') == |a|;
  }

  /** A dotted quad of four octets parses to those octets. */
  lemma ParseQuad(a: string, b: string, c: string, d: string, va: int, vb: int, vc: int, vd: int)
    requires '.' !in a && '.' !in b && '.' !in c && '.' !in d
    requires ParseOctet(a) == Some(va) && ParseOctet(b) == Some(vb)
    requires ParseOctet(c) == Some(vc) && ParseOctet(d) == Some(vd)
    ensures ParseIPv4(a + "." + (b + "." + (c + "." + d))) == Some([va, vb, vc, vd])
  {
    SplitQuad(a, b, c, d);
  }

  lemma SplitQuad(a: string, b: string, c: string, d: string)
    requires '.' !in a && '.' !in b && '.' !in c && '.' !in d
    ensures Split(a + "." + (b + "." + (c + "." + d)), '.') == [a, b, c, d]
  {
    var t3 := c + "." + d;
    var t2 := b + "." + t3;
    SplitLast(d);
    SplitAt(c, d);
    assert Split(t3, '.') == [c, d];
    SplitAt(b, t3);
    assert Split(t2, '.') == [b, c, d];
    SplitAt(a, t2);
  }

  lemma DigitsValueSmall(s: string)
    requires 1 <= |s| <= 3 && forall i :: 0 <= i < |s| ==> IsDigit(s[i])
    ensures |s| == 1 ==> DigitsValue(s) == s[0] as int - '0' as int
    ensures |s| == 2 ==> DigitsValue(s) == (s[0] as int - '0' as int) * 10 + (s[1] as int - '0' as int)
    ensures |s| == 3 ==> DigitsValue(s) == (s[0] as int - '0' as int) * 100 + (s[1] as int - '0' as int) * 10 + (s[2] as int - '0' as int)
  {
    var p := s[..|s| - 1];
    if |s| > 1 {
      var q := p[..|p| - 1];
      assert p[0] == s[0];
      if |s| == 3 {
        assert q == [s[0]];
        assert q[..0] == [];
      } else {
        assert q == [];
      }
    } else {
      assert p == [];
    }
  }

  /** The octets of the addresses of the /24 test. */
  lemma TestOctet(s: string, v: int)
    requires (s == "192" && v == 192) || (s == "168" && v == 168) || (s == "1" && v == 1) ||
             (s == "10" && v == 10) || (s == "99" && v == 99)
    ensures '.' !in s && ParseOctet(s) == Some(v)
  {
    DigitsValueSmall(s);
  }

  /** The client address of the /24 test. */
  lemma TestClientAddress(ip: string)
    requires ip == "192.168.1.99"
    ensures ParseIPv4(ip) == Some([192, 168, 1, 99])
  {
    TestOctet("192", 192);
    TestOctet("168", 168);
    TestOctet("1", 1);
    TestOctet("99", 99);
    ParseQuad("192", "168", "1", "99", 192, 168, 1, 99);
    assert "192" + "." + ("168" + "." + ("1" + "." + "99")) == ip;
  }

  /** The first address of the test's `ip_map`. */
  lemma TestFirstAddress(ip: string)
    requires ip == "192.168.1.10"
    ensures ParseIPv4(ip) == Some([192, 168, 1, 10])
  {
    TestOctet("192", 192);
    TestOctet("168", 168);
    TestOctet("1", 1);
    TestOctet("10", 10);
    ParseQuad("192", "168", "1", "10", 192, 168, 1, 10);
    assert "192" + "." + ("168" + "." + ("1" + "." + "10")) == ip;
  }

  /** An exact scenario over any indices: the strategy and device the chain reports. */
  lemma ExactScenario(row: Row, ix: Indices, threshold: real, sim: (string, string) -> Ratio)
    requires WellFormed(ix)
    ensures var e := EntryOf(row, ix, threshold, sim);
            && (IpHit(ClientIp(row), ix) ==>
                  e.matched && e.strategy == Some(IpExact) && e.device == Some(FieldsOf(ix.ipMap[ClientIp(row)])))
            && (!IpHit(ClientIp(row), ix) && MacHit(ClientMac(row), ix) ==>
                  e.matched && e.strategy == Some(MacExact) && e.device == Some(FieldsOf(ix.macMap[ClientMac(row)])))
            && (!IpHit(ClientIp(row), ix) && !MacHit(ClientMac(row), ix) && NameHit(ClientName(row), ix) ==>
                  e.matched && e.strategy == Some(NameExact) && e.similarity.None? &&
                  e.device == Some(FieldsOf(ix.nameMap[ClientName(row)])))
  {
  }

  /** test_ip_exact_match: the row's IP is a device IP. */
  lemma TestIpExact(row: Row, ix: Indices, sim: (string, string) -> Ratio)
    requires row == TestRow("X", "192.168.1.10", "")
    requires ix == IndicesOf(TestDevices())
    ensures var e := EntryOf(row, ix, DefaultFuzzyThreshold, sim);
            e.matched && e.strategy == Some(IpExact) && e.device.value.dispositivoId == Some("1")
  {
    TestIpRow(row);
    TestIpKey(ix);
    ExactScenario(row, ix, DefaultFuzzyThreshold, sim);
  }

  lemma TestIpRow(row: Row)
    requires row == TestRow("X", "192.168.1.10", "")
    ensures ClientIp(row) == "192.168.1.10"
  {
    assert FirstCell(row, ["ip", "ip_address"]) == "192.168.1.10";
    assert Strip("192.168.1.10") == "192.168.1.10";
  }

  lemma TestIpKey(ix: Indices)
    requires ix == IndicesOf(TestDevices())
    ensures WellFormed(ix)
    ensures "192.168.1.10" in ix.ipMap && ix.ipMap["192.168.1.10"] == TestDevice1()
  {
    TestIpIndex();
  }

  /** test_mac_exact_match: no IP, the MAC is the second device's nested MAC. */
  lemma TestMacExact(row: Row, ix: Indices, sim: (string, string) -> Ratio)
    requires row == TestRow("Y", "", "11:22:33:44:55:66")
    requires ix == IndicesOf(TestDevices())
    ensures var e := EntryOf(row, ix, DefaultFuzzyThreshold, sim);
            e.matched && e.strategy == Some(MacExact) && e.device.value.dispositivoId == Some("2")
  {
    TestMacRow(row);
    TestMacKey(ix);
    ExactScenario(row, ix, DefaultFuzzyThreshold, sim);
  }

  lemma TestMacRow(row: Row)
    requires row == TestRow("Y", "", "11:22:33:44:55:66")
    ensures ClientIp(row) == "" && ClientMac(row) == "11:22:33:44:55:66"
  {
    assert FirstCell(row, ["ip", "ip_address"]) == "";
    assert FirstCell(row, ["mac"]) == "11:22:33:44:55:66";
    assert Strip("") == "";
    assert Strip("11:22:33:44:55:66") == "11:22:33:44:55:66";
    assert Lower("11:22:33:44:55:66") == "11:22:33:44:55:66";
  }

  lemma TestMacKey(ix: Indices)
    requires ix == IndicesOf(TestDevices())
    ensures WellFormed(ix)
    ensures "11:22:33:44:55:66" in ix.macMap && ix.macMap["11:22:33:44:55:66"] == TestDevice2()
  {
    TestMacIndex();
    var k1, k2, k3 := Lower("AA:BB:CC:DD:EE:FF"), Lower("11:22:33:44:55:66"), Lower("77:88:99:AA:BB:CC");
    assert k2 == "11:22:33:44:55:66";
    assert k1[0] == 'a' && k3[0] == '7';
  }

  /** test_name_exact_match: the name compares lower-cased. */
  lemma TestNameExact(row: Row, ix: Indices, sim: (string, string) -> Ratio)
    requires row == TestRow("Cliente1", "", "")
    requires ix == IndicesOf(TestDevices())
    ensures var e := EntryOf(row, ix, DefaultFuzzyThreshold, sim);
            e.matched && e.strategy == Some(NameExact) && e.device.value.dispositivoId == Some("1")
  {
    TestNameRow(row);
    TestNameKey(ix, "cliente1", TestDevice1());
    ExactScenario(row, ix, DefaultFuzzyThreshold, sim);
  }

  lemma TestNameRow(row: Row)
    requires row == TestRow("Cliente1", "", "")
    ensures ClientIp(row) == "" && ClientMac(row) == "" && ClientName(row) == "cliente1"
  {
    assert FirstCell(row, ["ip", "ip_address"]) == "";
    assert FirstCell(row, ["mac"]) == "";
    assert FirstCell(row, ["nombre", "name"]) == "Cliente1";
    assert Strip("") == "" && Strip("Cliente1") == "Cliente1";
    assert Lower("") == "" && Lower("Cliente1") == "cliente1";
  }

  lemma TestClienteDosRow(row: Row)
    requires row == TestRow("clientedos", "", "")
    ensures ClientIp(row) == "" && ClientMac(row) == "" && ClientName(row) == "clientedos"
  {
    assert FirstCell(row, ["ip", "ip_address"]) == "";
    assert FirstCell(row, ["mac"]) == "";
    assert FirstCell(row, ["nombre", "name"]) == "clientedos";
    assert Strip("") == "" && Strip("clientedos") == "clientedos";
    assert Lower("") == "" && Lower("clientedos") == "clientedos";
  }

  lemma TestNameKey(ix: Indices, name: string, d: Device)
    requires ix == IndicesOf(TestDevices())
    requires (name == "cliente1" && d == TestDevice1()) || (name == "clientedos" && d == TestDevice2())
    ensures WellFormed(ix)
    ensures name in ix.nameMap && ix.nameMap[name] == d
  {
    TestNameIndex();
  }

  /** test_subnet_24_match: 192.168.1.99 shares its /24 with 192.168.1.10, the first
      address of the scan. */
  lemma TestSubnet24(row: Row, ix: Indices, sim: (string, string) -> Ratio)
    requires row == TestRow("Z", "192.168.1.99", "")
    requires ix == IndicesOf(TestDevices())
    ensures var e := EntryOf(row, ix, DefaultFuzzyThreshold, sim);
            e.matched && e.strategy == Some(Subnet24) && e.device.value.dispositivoId == Some("1")
  {
    TestSubnetRow(row);
    TestSubnetIndex(ix);
    SubnetScenario(row, ix, sim);
  }

  lemma TestSubnetIndex(ix: Indices)
    requires ix == IndicesOf(TestDevices())
    ensures WellFormed(ix)
    ensures "192.168.1.99" !in ix.ipMap && "z" !in ix.nameMap
    ensures |ix.ipOrder| > 0 && ix.ipOrder[0] == "192.168.1.10" && ix.ipMap["192.168.1.10"] == TestDevice1()
  {
    TestIpIndex();
    TestNameIndex();
    assert |"z"| == 1 && |"cliente1"| == 8 && |"clientedos"| == 10 && |"otro"| == 4;
  }

  /** The /24 scenario over any indices that agree with the test's on the keys it
      looks up. */
  lemma SubnetScenario(row: Row, ix: Indices, sim: (string, string) -> Ratio)
    requires WellFormed(ix)
    requires ClientIp(row) == "192.168.1.99" && ClientMac(row) == "" && ClientName(row) == "z"
    requires "192.168.1.99" !in ix.ipMap && "z" !in ix.nameMap
    requires |ix.ipOrder| > 0 && ix.ipOrder[0] == "192.168.1.10" && ix.ipMap["192.168.1.10"] == TestDevice1()
    ensures var e := EntryOf(row, ix, DefaultFuzzyThreshold, sim);
            e.matched && e.strategy == Some(Subnet24) && e.device.value.dispositivoId == Some("1")
  {
    TestSubnetScan(ClientIp(row), ix.ipOrder, ix.ipMap);
    SubnetStep(row, ix, DefaultFuzzyThreshold, sim);
  }

  lemma SubnetStep(row: Row, ix: Indices, threshold: real, sim: (string, string) -> Ratio)
    requires WellFormed(ix)
    requires ClientIp(row) != "" && ClientIp(row) !in ix.ipMap && ClientMac(row) == "" && ClientName(row) !in ix.nameMap
    requires Subnet24Match(ClientIp(row), ix.ipOrder, ix.ipMap).Some?
    ensures var e := EntryOf(row, ix, threshold, sim);
            e.matched && e.strategy == Some(Subnet24) &&
            e.device == Some(FieldsOf(Subnet24Match(ClientIp(row), ix.ipOrder, ix.ipMap).value))
  {
  }

  lemma TestSubnetRow(row: Row)
    requires row == TestRow("Z", "192.168.1.99", "")
    ensures ClientIp(row) == "192.168.1.99" && ClientMac(row) == "" && ClientName(row) == "z"
  {
    assert FirstCell(row, ["ip", "ip_address"]) == "192.168.1.99";
    assert FirstCell(row, ["mac"]) == "";
    assert FirstCell(row, ["nombre", "name"]) == "Z";
    assert Strip("192.168.1.99") == "192.168.1.99";
    assert Strip("") == "";
    assert Strip("Z") == "Z";
    assert Lower("Z") == "z";
    assert Lower("") == "";
  }

  lemma TestSubnetScan(ip: string, order: seq<string>, ipMap: map<string, Device>)
    requires ip == "192.168.1.99"
    requires |order| > 0 && order[0] == "192.168.1.10"
    requires forall k :: k in order ==> k in ipMap
    requires ipMap[order[0]] == TestDevice1()
    ensures Subnet24Match(ip, order, ipMap) == Some(TestDevice1())
  {
    TestScanHead(ip, order[0]);
    var net := [192, 168, 1, 99];
    assert ParseIPv4(ip) == Some(net);
    assert ParseIPv4(order[0]).Some? && InNet(net, order[0]);
    assert FirstInNet(net, order, ipMap) == Some(ipMap[order[0]]);
  }

  lemma TestScanHead(ip: string, first: string)
    requires ip == "192.168.1.99" && first == "192.168.1.10"
    ensures ParseIPv4(ip) == Some([192, 168, 1, 99])
    ensures ParseIPv4(first).Some? && InNet([192, 168, 1, 99], first)
  {
    TestClientAddress(ip);
    TestFirstAddress(first);
  }

  /** test_name_fuzzy_match feeds "clientedos", which is the second device's name once
      lower-cased, so the exact-name step answers before the fuzzy one is tried. */
  lemma TestClienteDosIsNameExact(row: Row, ix: Indices, sim: (string, string) -> Ratio)
    requires row == TestRow("clientedos", "", "")
    requires ix == IndicesOf(TestDevices())
    ensures var e := EntryOf(row, ix, 0.7, sim);
            e.matched && e.strategy == Some(NameExact) && e.similarity.None? && e.device.value.dispositivoId == Some("2")
  {
    TestClienteDosRow(row);
    TestNameKey(ix, "clientedos", TestDevice2());
    ExactScenario(row, ix, 0.7, sim);
  }
}
