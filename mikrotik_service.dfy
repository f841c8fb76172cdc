/** The credential learning of app/services/mikrotik_service.py: for a router IP,
    the stored password (if any) is tried first, then the common passwords in
    their configured order without repeats; the first one that logs in is
    recorded in the credential store. The login itself is an oracle from an IP and
    a password to success or failure. */
module MikrotikService {
  import opened Common

  /** `passwords_to_try`: the stored password for `ip`, then the common passwords,
      each once. */
  function Candidates(known: map<string, string>, ip: string, common: seq<string>): seq<string> {
    Dedup((if ip in known then [known[ip]] else []) + common)
  }

  /** The candidates hold no duplicate, begin with the stored password when there is
      one, and hold exactly that password and the common ones. */
  lemma CandidatesSpec(known: map<string, string>, ip: string, common: seq<string>)
    ensures NoDup(Candidates(known, ip, common))
    ensures ip in known ==> |Candidates(known, ip, common)| > 0 && Candidates(known, ip, common)[0] == known[ip]
    ensures forall p :: p in Candidates(known, ip, common) <==> (ip in known && p == known[ip]) || p in common
  {
    var s := (if ip in known then [known[ip]] else []) + common;
    DedupSpec(s);
    assert forall p :: p in s <==> (ip in known && p == known[ip]) || p in common;
    assert forall p :: p in Candidates(known, ip, common) <==> p in Elems(Candidates(known, ip, common));
    if ip in known {
      DedupFirst(s);
    }
  }

  /** The first element of a non-empty sequence is kept first. */
  lemma {:induction false} DedupFirst<T>(s: seq<T>)
    requires |s| > 0
    ensures |Dedup(s)| > 0 && Dedup(s)[0] == s[0]
  {
    if |s| > 1 {
      DedupFirst(s[..|s| - 1]);
    }
  }

  lemma DedupShort(s: seq<string>)
    requires |s| <= 1
    ensures Dedup(s) == s
  {
    if |s| == 1 {
      assert s[..0] == [];
    }
  }

  /** One step of the loop below: the next common password is appended exactly when
      it is new. */
  lemma CandidateStep(start: seq<string>, common: seq<string>, j: nat)
    requires j < |common|
    ensures Dedup(start + common[..j + 1]) ==
            var d := Dedup(start + common[..j]);
            if common[j] in d then d else d + [common[j]]
  {
    assert start + common[..j + 1] == (start + common[..j]) + [common[j]];
    DedupSnoc(start + common[..j], common[j]);
  }

  /** The loop that fills `passwords_to_try`, appending a common password only when
      it is not already there. */
  method CandidatePasswords(known: map<string, string>, ip: string, common: seq<string>) returns (passwordsToTry: seq<string>)
    ensures passwordsToTry == Candidates(known, ip, common)
  {
    passwordsToTry := [];
    if ip in known {
      passwordsToTry := passwordsToTry + [known[ip]];
    }
    ghost var start := passwordsToTry;
    DedupShort(start);
    assert start + common[..0] == start;
    for j := 0 to |common|
      invariant passwordsToTry == Dedup(start + common[..j])
    {
      var pwd := common[j];
      CandidateStep(start, common, j);
      if pwd !in passwordsToTry {
        passwordsToTry := passwordsToTry + [pwd];
      }
    }
    assert common[..|common|] == common;
  }

  /** The position of the first candidate the login accepts, or `|candidates|`. */
  function FirstSuccess(ip: string, candidates: seq<string>, login: (string, string) -> bool): (r: nat)
    ensures r <= |candidates|
    ensures r < |candidates| ==> login(ip, candidates[r])
    ensures forall j :: 0 <= j < r ==> !login(ip, candidates[j])
  {
    if |candidates| == 0 then 0
    else if login(ip, candidates[0]) then 0
    else
      var r := FirstSuccess(ip, candidates[1..], login);
      assert forall j :: 1 <= j < 1 + r ==> candidates[j] == candidates[1..][j - 1];
      1 + r
  }

  /** Some candidate works exactly when the first success is a candidate. */
  predicate CanConnect(known: map<string, string>, ip: string, common: seq<string>, login: (string, string) -> bool) {
    FirstSuccess(ip, Candidates(known, ip, common), login) < |Candidates(known, ip, common)|
  }

  lemma CanConnectSpec(known: map<string, string>, ip: string, common: seq<string>, login: (string, string) -> bool)
    ensures CanConnect(known, ip, common, login) <==>
              exists p :: p in Candidates(known, ip, common) && login(ip, p)
  {
    var c := Candidates(known, ip, common);
    if exists p :: p in c && login(ip, p) {
      var p :| p in c && login(ip, p);
      var i :| 0 <= i < |c| && c[i] == p;
      assert FirstSuccess(ip, c, login) <= i;
    }
  }

  /** Learning keeps what a later attempt can do: once `ip` is stored with a
      password that works, `ip` can connect; an entry for another IP does not change
      what `ip` can do. */
  lemma LearningKeepsReach(known: map<string, string>, ip: string, p: string, x: string,
                           common: seq<string>, login: (string, string) -> bool)
    requires login(ip, p)
    ensures x == ip ==> CanConnect(known[ip := p], x, common, login)
    ensures x != ip ==> (CanConnect(known[ip := p], x, common, login) <==> CanConnect(known, x, common, login))
  {
    if x == ip {
      CandidatesSpec(known[ip := p], ip, common);
      CanConnectSpec(known[ip := p], ip, common, login);
    } else {
      assert Candidates(known[ip := p], x, common) == Candidates(known, x, common);
    }
  }

  /** Two stores let exactly the same IPs connect. */
  ghost predicate SameReach(a: map<string, string>, b: map<string, string>, common: seq<string>, login: (string, string) -> bool) {
    forall x :: CanConnect(a, x, common, login) <==> CanConnect(b, x, common, login)
  }

  /** One attempt of the scan: it succeeds exactly when the IP can connect, and the
      store it leaves lets every IP connect exactly when the old one did. */
  lemma ConnectStep(before: map<string, string>, after: map<string, string>, ip: string, common: seq<string>,
                    login: (string, string) -> bool, password: Option<string>)
    requires var c := Candidates(before, ip, common);
             var k := FirstSuccess(ip, c, login);
             && (k < |c| ==> password == Some(c[k]) && after == before[ip := c[k]])
             && (k == |c| ==> password.None? && after == before)
    ensures password.Some? <==> CanConnect(before, ip, common, login)
    ensures SameReach(after, before, common, login)
  {
    var c := Candidates(before, ip, common);
    var k := FirstSuccess(ip, c, login);
    if k < |c| {
      forall x ensures CanConnect(after, x, common, login) <==> CanConnect(before, x, common, login) {
        LearningKeepsReach(before, ip, c[k], x, common, login);
      }
    }
  }

  /** The store after a scan of `ips` from `known`: each IP in turn stores the first
      of its candidates that logs in, if any. */
  function AfterScan(known: map<string, string>, ips: seq<string>, common: seq<string>,
                     login: (string, string) -> bool): map<string, string>
  {
    if |ips| == 0 then known
    else LearnOne(AfterScan(known, ips[..|ips| - 1], common, login), ips[|ips| - 1], common, login)
  }

  /** The store after one login attempt at `ip`. */
  function LearnOne(known: map<string, string>, ip: string, common: seq<string>,
                    login: (string, string) -> bool): map<string, string>
  {
    var c := Candidates(known, ip, common);
    var f := FirstSuccess(ip, c, login);
    if f < |c| then known[ip := c[f]] else known
  }

  /** A scan never changes which IPs can connect. */
  lemma {:induction false} AfterScanReach(known: map<string, string>, ips: seq<string>, common: seq<string>,
                                          login: (string, string) -> bool)
    ensures SameReach(AfterScan(known, ips, common, login), known, common, login)
  {
    if |ips| > 0 {
      var p := ips[..|ips| - 1];
      AfterScanReach(known, p, common, login);
      var k := AfterScan(known, p, common, login);
      var ip := ips[|ips| - 1];
      var c := Candidates(k, ip, common);
      var f := FirstSuccess(ip, c, login);
      ConnectStep(k, AfterScan(known, ips, common, login), ip, common, login, if f < |c| then Some(c[f]) else None);
    }
  }

  /** After a scan, every listed IP that can connect is stored with a password that
      logs in, and every other IP keeps its entry, or its absence. */
  lemma {:induction false} AfterScanLearned(known: map<string, string>, ips: seq<string>, common: seq<string>,
                                            login: (string, string) -> bool)
    ensures var a := AfterScan(known, ips, common, login);
            && (forall x :: x in ips && CanConnect(known, x, common, login) ==> x in a && login(x, a[x]))
            && (forall x :: !(x in ips && CanConnect(known, x, common, login)) ==>
                  (x in a <==> x in known) && (x in a ==> a[x] == known[x]))
  {
    if |ips| > 0 {
      var p := ips[..|ips| - 1];
      AfterScanLearned(known, p, common, login);
      AfterScanReach(known, p, common, login);
      var k := AfterScan(known, p, common, login);
      var ip := ips[|ips| - 1];
      assert forall x :: x in ips <==> x in p || x == ip;
      assert CanConnect(k, ip, common, login) <==> CanConnect(known, ip, common, login);
    }
  }

  /** The credential file. */
  class CredentialStore {
    /** Its contents when it exists and parses; None when it is missing or cannot be read. */
    var file: Option<map<string, string>>

    constructor(contents: Option<map<string, string>>)
      ensures file == contents
    {
      file := contents;
    }

    /** `load_known_credentials`: a missing or unreadable file reads as empty. */
    function Known(): map<string, string>
      reads this
    {
      if file.Some? then file.value else map[]
    }

    /** `connect_mikrotik_with_learning`: the candidates are tried in order up to the
        first that logs in; that one is written back under `ip`, every other entry as
        loaded; when none works, nothing is written. `tried` lists the passwords a
        login was attempted with. */
    method ConnectWithLearning(ip: string, common: seq<string>, login: (string, string) -> bool)
      returns (password: Option<string>, tried: seq<string>)
      modifies this
      ensures var c := Candidates(old(Known()), ip, common);
              var k := FirstSuccess(ip, c, login);
              && (k < |c| ==> password == Some(c[k]) && tried == c[..k + 1] && file == Some(old(Known())[ip := c[k]]))
              && (k == |c| ==> password.None? && tried == c && file == old(file))
    {
      var known := Known();
      var passwordsToTry := CandidatePasswords(known, ip, common);
      tried := [];
      for i := 0 to |passwordsToTry|
        invariant tried == passwordsToTry[..i]
        invariant forall j :: 0 <= j < i ==> !login(ip, passwordsToTry[j])
        invariant file == old(file)
      {
        var pwd := passwordsToTry[i];
        tried := tried + [pwd];
        if login(ip, pwd) {
          known := known[ip := pwd];
          file := Some(known);
          password := Some(pwd);
          return;
        }
      }
      assert passwordsToTry[..|passwordsToTry|] == passwordsToTry;
      password := None;
    }

    /** One IP of the scan: log in with learning, and say whether it connected. */
    method TryRouter(ip: string, common: seq<string>, login: (string, string) -> bool) returns (ok: bool)
      modifies this
      ensures ok <==> CanConnect(old(Known()), ip, common, login)
      ensures Known() == LearnOne(old(Known()), ip, common, login)
      ensures ok ==> file == Some(Known())
      ensures !ok ==> file == old(file)
    {
      var password, _ := ConnectWithLearning(ip, common, login);
      ok := password.Some?;
    }

    /** `scan_mikrotiks`: a key for every IP listed, true exactly when that IP can
        connect with the store as it was before the scan; the store becomes the one
        the scan learns (`AfterScan`), and the file is written only when some IP
        connected. */
    method ScanMikrotiks(ips: seq<string>, common: seq<string>, login: (string, string) -> bool)
      returns (results: map<string, bool>)
      modifies this
      ensures results.Keys == Elems(ips)
      ensures forall x :: x in results ==> (results[x] <==> CanConnect(old(Known()), x, common, login))
      ensures Known() == AfterScan(old(Known()), ips, common, login)
      ensures file == old(file) || file == Some(Known())
      ensures file != old(file) ==> exists x :: x in results && results[x]
    {
      ghost var known0 := Known();
      ghost var changed, hit := false, "";
      results := map[];
      for i := 0 to |ips|
        invariant results.Keys == Elems(ips[..i])
        invariant forall x :: x in results ==> (results[x] <==> CanConnect(known0, x, common, login))
        invariant Known() == AfterScan(known0, ips[..i], common, login)
        invariant !changed ==> file == old(file)
        invariant changed ==> file == Some(Known()) && hit in results && results[hit]
      {
        var ip := ips[i];
        PrefixSnoc(ips, i);
        AfterScanReach(known0, ips[..i], common, login);
        var ok := TryRouter(ip, common, login);
        if ok {
          changed, hit := true, ip;
        }
        results := results[ip := ok];
      }
      assert ips[..|ips|] == ips;
    }
  }
}
