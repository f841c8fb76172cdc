/** `get_mikrotik_trunks` of app/services/discovery.py: the running interfaces of a
    router, as candidate trunk links. */
module Discovery {
  import opened Common
  import opened RouterApi

  /** One output entry: `name`, `type`, `running` and `mac_address`. */
  datatype Trunk = Trunk(name: string, ifType: string, running: Option<string>, macAddress: Option<string>)

  predicate IsRunning(row: InterfaceRow) {
    row.running == Some("true")
  }

  /** The entry for a running row that has a name; `type` defaults to "ether". */
  function TrunkOf(row: InterfaceRow): Trunk
    requires row.name.Some?
  {
    Trunk(row.name.value, if row.ifType.Some? then row.ifType.value else "ether", row.running, row.macAddress)
  }

  /** The rows the comprehension reads `name` from all have one. */
  ghost predicate NamesPresent(rows: seq<InterfaceRow>) {
    forall i :: 0 <= i < |rows| && IsRunning(rows[i]) ==> rows[i].name.Some?
  }

  /** The comprehension over the rows of `/interface`, in order. */
  function RunningTrunks(rows: seq<InterfaceRow>): seq<Trunk>
    requires NamesPresent(rows)
  {
    if |rows| == 0 then []
    else
      var last := rows[|rows| - 1];
      RunningTrunks(rows[..|rows| - 1]) + (if IsRunning(last) then [TrunkOf(last)] else [])
  }

  /** A failing query, or a running row without `name` (a `KeyError`), gives `[]`. */
  function MikrotikTrunks(reply: Reply<InterfaceRow>): (r: seq<Trunk>)
    ensures reply.raised ==> r == []
    ensures (exists i :: 0 <= i < |reply.rows| && IsRunning(reply.rows[i]) && reply.rows[i].name.None?) ==> r == []
    ensures !reply.raised && NamesPresent(reply.rows) ==> r == RunningTrunks(reply.rows)
  {
    if reply.raised then []
    else if exists i :: 0 <= i < |reply.rows| && IsRunning(reply.rows[i]) && reply.rows[i].name.None? then []
    else RunningTrunks(reply.rows)
  }

  /** The filter keeps the input order: the entries for two consecutive stretches of
      rows are the entries of the first followed by those of the second. */
  lemma {:induction false} RunningTrunksAppend(a: seq<InterfaceRow>, b: seq<InterfaceRow>)
    requires NamesPresent(a + b)
    ensures NamesPresent(a) && NamesPresent(b)
    ensures RunningTrunks(a + b) == RunningTrunks(a) + RunningTrunks(b)
    decreases |b|
  {
    assert forall i :: 0 <= i < |a| ==> (a + b)[i] == a[i];
    assert forall i :: 0 <= i < |b| ==> (a + b)[|a| + i] == b[i];
    if |b| == 0 {
      assert a + b == a;
    } else {
      var n := |b|;
      assert (a + b)[..|a + b| - 1] == a + b[..n - 1];
      assert forall i :: 0 <= i < n - 1 ==> b[..n - 1][i] == b[i];
      RunningTrunksAppend(a, b[..n - 1]);
    }
  }

  /** Exactly the running rows give an entry, each with the row's name, running flag
      and MAC, and with "ether" for a missing type. */
  lemma {:induction false} RunningTrunksSpec(rows: seq<InterfaceRow>)
    requires NamesPresent(rows)
    ensures |RunningTrunks(rows)| <= |rows|
    ensures forall t :: t in RunningTrunks(rows) <==>
              exists i :: 0 <= i < |rows| && IsRunning(rows[i]) && t == TrunkOf(rows[i])
    ensures forall t :: t in RunningTrunks(rows) ==> t.running == Some("true")
  {
    if |rows| > 0 {
      var p := rows[..|rows| - 1];
      assert forall i :: 0 <= i < |p| ==> p[i] == rows[i];
      RunningTrunksSpec(p);
    }
  }

  /** One running row gives its entry, one that is not running gives nothing. */
  lemma RunningTrunksSingle(row: InterfaceRow)
    requires IsRunning(row) ==> row.name.Some?
    ensures NamesPresent([row])
    ensures RunningTrunks([row]) == if IsRunning(row) then [TrunkOf(row)] else []
  {
    assert [row][..0] == [];
  }
}
