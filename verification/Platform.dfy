/**
 The restore compatibility gate: which archives a target platform accepts, and that a better target
 accepts at least as much.
 */
module Platform {
  import opened Bytes

  /** Observed versions; an unknown one is the empty string.  `execution` is None when the list was not recorded. */
  datatype Provenance = Provenance(
    osId: string, versionId: string, codename: string, architecture: string, profile: string, internalPhp: string,
    hosting: seq<string>, required: seq<string>, inventoryComplete: bool,
    execution: Option<seq<string>>, executionComplete: bool,
    postgresServer: string, postgresDump: string, postgresRestore: string,
    mariaServer: string, mariaDump: string, mariaClient: string, stalwart: string)

  datatype MySQL = MySQL(database: string, username: string, host: string, configPath: string)

  /** The manifest fields the restore decisions read. */
  datatype Manifest = Manifest(
    mysql: Option<MySQL>, sqlitePath: string, platform: Option<Provenance>, format: int,
    tenantDatabases: seq<string>, includeMail: bool)

  /** The numeric components of a version string: none, or at least major and minor. */
  type Numbers = f: string -> seq<nat> | forall v: string :: |f(v)| == 0 || |f(v)| >= 2
    witness (v: string) => []

  // ------------------------------------------------------------------ version order

  /** t comes at or after s when their first `parts` components are compared in order. */
  ghost predicate Covers(t: seq<nat>, s: seq<nat>, parts: nat)
    requires parts <= |s| && parts <= |t|
  {
    exists i :: 0 <= i <= parts && s[..i] == t[..i] && (i == parts || s[i] < t[i])
  }

  /** What requireNotOlder accepts. */
  ghost predicate NotOlder(numbers: Numbers, target: string, source: string, parts: nat) {
    source != "" ==>
      target != "" && parts <= |numbers(source)| && parts <= |numbers(target)| &&
      Covers(numbers(target), numbers(source), parts)
  }

  method RequireNotOlder(numbers: Numbers, target: string, source: string, parts: nat) returns (ok: bool)
    ensures ok <==> NotOlder(numbers, target, source, parts)
  {
    if source == "" {
      return true;
    }
    if target == "" {
      return false;
    }
    var s, t := numbers(source), numbers(target);
    if |s| < parts || |t| < parts {
      return false;
    }
    for i := 0 to parts
      invariant s[..i] == t[..i]
    {
      if t[i] > s[i] {
        return true;
      }
      if t[i] < s[i] {
        NotCovered(t, s, parts, i);
        return false;
      }
      assert s[..i + 1] == s[..i] + [s[i]] && t[..i + 1] == t[..i] + [t[i]];
    }
    assert s[..parts] == t[..parts];
    return true;
  }

  lemma NotCovered(t: seq<nat>, s: seq<nat>, parts: nat, i: nat)
    requires parts <= |s| && parts <= |t| && i < parts && s[..i] == t[..i] && t[i] < s[i]
    ensures !Covers(t, s, parts)
  {
  }

  lemma CoversTransitive(u: seq<nat>, t: seq<nat>, s: seq<nat>, parts: nat)
    requires parts <= |s| && parts <= |t| && parts <= |u|
    requires Covers(u, t, parts) && Covers(t, s, parts)
    ensures Covers(u, s, parts)
  {
    var i :| 0 <= i <= parts && t[..i] == u[..i] && (i == parts || t[i] < u[i]);
    var j :| 0 <= j <= parts && s[..j] == t[..j] && (j == parts || s[j] < t[j]);
    var k := if i < j then i else j;
    assert s[..k] == s[..j][..k] == t[..j][..k] == t[..i][..k] == u[..i][..k] == u[..k];
    if i < j {
      assert s[i] == s[..j][i] == t[..j][i];
    } else if j < i {
      assert t[j] == t[..i][j] == u[..i][j];
    }
  }

  /** Not being older is a preorder on known versions, and any two are comparable. */
  lemma NotOlderTransitive(numbers: Numbers, u: string, t: string, s: string, parts: nat)
    requires t != "" && NotOlder(numbers, u, t, parts) && NotOlder(numbers, t, s, parts)
    ensures NotOlder(numbers, u, s, parts)
  {
    if s != "" {
      CoversTransitive(numbers(u), numbers(t), numbers(s), parts);
    }
  }

  lemma {:induction false} NotOlderTotal(t: seq<nat>, s: seq<nat>, parts: nat)
    requires parts <= |s| && parts <= |t|
    ensures Covers(t, s, parts) || Covers(s, t, parts)
    ensures Covers(t, s, parts) && Covers(s, t, parts) ==> s[..parts] == t[..parts]
  {
    if s[..parts] == t[..parts] {
      return;
    }
    var i := FirstDifference(t, s, parts);
    if t[i] < s[i] {
      NotCovered(t, s, parts, i);
    } else {
      NotCovered(s, t, parts, i);
    }
  }

  lemma {:induction false} FirstDifference(t: seq<nat>, s: seq<nat>, parts: nat) returns (i: nat)
    requires parts <= |s| && parts <= |t| && s[..parts] != t[..parts]
    ensures i < parts && s[..i] == t[..i] && s[i] != t[i]
  {
    var n := parts - 1;
    if s[..n] == t[..n] {
      assert s[..parts] == s[..n] + [s[n]] && t[..parts] == t[..n] + [t[n]];
      i := n;
    } else {
      i := FirstDifference(t, s, n);
    }
  }

  // ------------------------------------------------------------------ inventories

  predicate Digits(s: string) {
    s != "" && forall i :: 0 <= i < |s| ==> '0' <= s[i] <= '9'
  }

  /** Two runs of digits around one dot. */
  predicate InventoryVersion(s: string) {
    exists k :: 0 <= k < |s| && s[k] == '.' && Digits(s[..k]) && Digits(s[k + 1..])
  }

  /** What validateExecutionPHPInventory accepts. */
  ghost predicate ValidExecution(p: Provenance) {
    && (p.executionComplete ==> p.execution.Some? && p.inventoryComplete)
    && (p.execution.Some? ==>
          && (forall v :: v in p.required ==> InventoryVersion(v))
          && (forall v :: v in p.execution.value ==> v in p.required)
          && (forall i, j :: 0 <= i < j < |p.execution.value| ==> p.execution.value[i] != p.execution.value[j]))
  }

  method ValidateExecutionInventory(p: Provenance) returns (ok: bool)
    ensures ok <==> ValidExecution(p)
  {
    if p.executionComplete && (p.execution.None? || !p.inventoryComplete) {
      return false;
    }
    if p.execution.None? {
      return true;
    }
    var required: set<string> := {};
    for i := 0 to |p.required|
      invariant forall v :: v in required <==> v in p.required[..i]
      invariant forall k :: 0 <= k < i ==> InventoryVersion(p.required[k])
    {
      if !InventoryVersion(p.required[i]) {
        return false;
      }
      required := required + {p.required[i]};
    }
    assert p.required[..|p.required|] == p.required;
    var versions := p.execution.value;
    var seen: set<string> := {};
    for i := 0 to |versions|
      invariant forall v :: v in seen <==> v in versions[..i]
      invariant forall k :: 0 <= k < i ==> versions[k] in p.required
      invariant forall k, l :: 0 <= k < l < i ==> versions[k] != versions[l]
    {
      var version := versions[i];
      if !InventoryVersion(version) || version in seen || version !in required {
        assert version in versions;
        if version in seen {
          var k :| 0 <= k < i && versions[k] == version;
        }
        return false;
      }
      seen := seen + {version};
    }
    return true;
  }

  // ------------------------------------------------------------------ Roundcube provenance

  predicate KnownProfile(p: Provenance) {
    && p.osId == "ubuntu" && p.versionId == "26.04" && p.codename == "resolute"
    && (p.profile == "ubuntu-26.04-native" || p.profile == "ubuntu-26.04-sury") && p.internalPhp == "8.5"
  }

  function Databases(p: Provenance): seq<string> {
    [p.postgresServer, p.postgresDump, p.postgresRestore, p.mariaServer, p.mariaDump, p.mariaClient]
  }

  predicate CompleteSQLProvenance(numbers: Numbers, p: Provenance) {
    && KnownProfile(p) && p.inventoryComplete && p.hosting != []
    && forall v :: v in Databases(p) ==> |numbers(v)| >= 2
  }

  predicate ValidMySQL(m: MySQL) {
    && m.database == "roundcube" && m.username == "roundcube" && m.host == "localhost"
    && (m.configPath == "/etc/roundcube/debian-db.php" || m.configPath == "/etc/roundcube/debian-db-roundcube.php")
  }

  predicate SourceProvenance(numbers: Numbers, m: Manifest) {
    m.mysql.Some? ==> m.platform.Some? && CompleteSQLProvenance(numbers, m.platform.value)
  }

  /** validateRoundcubeManifest. */
  predicate ValidRoundcube(numbers: Numbers, m: Manifest) {
    if m.mysql.Some? then
      && m.format == 3 && m.sqlitePath == "" && ValidMySQL(m.mysql.value)
      && "roundcube" !in m.tenantDatabases && SourceProvenance(numbers, m)
    else
      m.format != 3 && (m.sqlitePath != "" ==> m.format == 2)
  }

  predicate RoundcubeCompatible(numbers: Numbers, m: Manifest, target: Provenance) {
    m.mysql.Some? ==>
      && SourceProvenance(numbers, m)
      && CompleteSQLProvenance(numbers, target)
      && (m.includeMail ==> m.platform.value.stalwart != "" && target.stalwart != "")
  }

  // ------------------------------------------------------------------ the gate

  predicate Observed(p: Provenance) {
    KnownProfile(p) && forall v :: v in Databases(p) ==> v != ""
  }

  /** The PHP versions a target must host: what runs or is required, and what the source had ready. */
  function RequiredPhp(s: Provenance): seq<string> {
    (if s.executionComplete && s.execution.Some? then s.execution.value else s.required) + s.hosting
  }

  /** What CheckRestoreCompatibility accepts in same-platform mode. */
  ghost predicate Compatible(numbers: Numbers, m: Manifest, target: Provenance) {
    && RoundcubeCompatible(numbers, m, target)
    && m.platform.Some?
    && var s := m.platform.value;
    && Observed(s) && Observed(target)
    && s.inventoryComplete && ValidExecution(s) && ValidExecution(target)
    && s.architecture != "" && s.architecture == target.architecture && s.profile == target.profile
    && (forall v :: v in RequiredPhp(s) ==> v in target.hosting)
    && NotOlder(numbers, target.postgresServer, s.postgresServer, 1)
    && NotOlder(numbers, target.postgresServer, s.postgresDump, 1)
    && NotOlder(numbers, target.postgresRestore, s.postgresDump, 1)
    && NotOlder(numbers, target.mariaServer, s.mariaServer, 2)
    && NotOlder(numbers, target.mariaServer, s.mariaDump, 2)
    && NotOlder(numbers, target.mariaClient, s.mariaDump, 2)
    && (m.includeMail && s.stalwart != "" ==> s.stalwart == target.stalwart)
  }

  datatype Mode = Unset | SamePlatform | OtherMode

  /** The nested search for each required version. */
  method HostsAll(required: seq<string>, hosting: seq<string>) returns (ok: bool)
    ensures ok <==> forall v :: v in required ==> v in hosting
  {
    for i := 0 to |required|
      invariant forall k :: 0 <= k < i ==> required[k] in hosting
    {
      var found := false;
      for j := 0 to |hosting|
        invariant found <==> required[i] in hosting[..j]
      {
        if hosting[j] == required[i] {
          found := true;
        }
      }
      assert hosting[..|hosting|] == hosting;
      if !found {
        return false;
      }
    }
    return true;
  }

  method VersionsCovered(numbers: Numbers, s: Provenance, target: Provenance) returns (ok: bool)
    ensures ok <==>
      && NotOlder(numbers, target.postgresServer, s.postgresServer, 1)
      && NotOlder(numbers, target.postgresServer, s.postgresDump, 1)
      && NotOlder(numbers, target.postgresRestore, s.postgresDump, 1)
      && NotOlder(numbers, target.mariaServer, s.mariaServer, 2)
      && NotOlder(numbers, target.mariaServer, s.mariaDump, 2)
      && NotOlder(numbers, target.mariaClient, s.mariaDump, 2)
  {
    var pairs := [(target.postgresServer, s.postgresServer, 1), (target.postgresServer, s.postgresDump, 1),
                  (target.postgresRestore, s.postgresDump, 1), (target.mariaServer, s.mariaServer, 2),
                  (target.mariaServer, s.mariaDump, 2), (target.mariaClient, s.mariaDump, 2)];
    for i := 0 to |pairs|
      invariant forall k :: 0 <= k < i ==> NotOlder(numbers, pairs[k].0, pairs[k].1, pairs[k].2)
    {
      ok := RequireNotOlder(numbers, pairs[i].0, pairs[i].1, pairs[i].2);
      if !ok {
        assert !NotOlder(numbers, pairs[i].0, pairs[i].1, pairs[i].2);
        return;
      }
    }
    assert NotOlder(numbers, pairs[0].0, pairs[0].1, pairs[0].2) && NotOlder(numbers, pairs[1].0, pairs[1].1, pairs[1].2)
        && NotOlder(numbers, pairs[2].0, pairs[2].1, pairs[2].2) && NotOlder(numbers, pairs[3].0, pairs[3].1, pairs[3].2)
        && NotOlder(numbers, pairs[4].0, pairs[4].1, pairs[4].2) && NotOlder(numbers, pairs[5].0, pairs[5].1, pairs[5].2);
    return true;
  }

  method CheckRestoreCompatibility(numbers: Numbers, m: Manifest, target: Provenance, mode: Mode) returns (ok: bool)
    ensures ok <==> !mode.OtherMode? && Compatible(numbers, m, target)
  {
    if mode.OtherMode? || !RoundcubeCompatible(numbers, m, target) || m.platform.None? {
      return false;
    }
    var s := m.platform.value;
    if !Observed(s) || !Observed(target) || !s.inventoryComplete {
      return false;
    }
    ok := ValidateExecutionInventory(s);
    if !ok { return; }
    ok := ValidateExecutionInventory(target);
    if !ok { return; }
    if s.architecture == "" || s.architecture != target.architecture || s.profile != target.profile {
      return false;
    }
    var required := s.required;
    if s.executionComplete {
      required := s.execution.value;
    }
    ok := HostsAll(required + s.hosting, target.hosting);
    if !ok { return; }
    ok := VersionsCovered(numbers, s, target);
    if !ok { return; }
    ok := !(m.includeMail && s.stalwart != "" && s.stalwart != target.stalwart);
  }

  // ------------------------------------------------------------------ monotonicity

  /** `better` differs from `target` only by hosting more PHP versions and by newer database versions. */
  ghost predicate AtLeast(numbers: Numbers, better: Provenance, target: Provenance) {
    && better.osId == target.osId && better.versionId == target.versionId && better.codename == target.codename
    && better.architecture == target.architecture && better.profile == target.profile
    && better.internalPhp == target.internalPhp && better.stalwart == target.stalwart
    && better.inventoryComplete == target.inventoryComplete && better.executionComplete == target.executionComplete
    && ValidExecution(better)
    && (forall v :: v in target.hosting ==> v in better.hosting)
    && NotOlder(numbers, better.postgresServer, target.postgresServer, 1)
    && NotOlder(numbers, better.postgresDump, target.postgresDump, 1)
    && NotOlder(numbers, better.postgresRestore, target.postgresRestore, 1)
    && NotOlder(numbers, better.mariaServer, target.mariaServer, 2)
    && NotOlder(numbers, better.mariaDump, target.mariaDump, 2)
    && NotOlder(numbers, better.mariaClient, target.mariaClient, 2)
  }

  lemma NotOlderKeepsKnown(numbers: Numbers, better: string, target: string, parts: nat)
    requires parts >= 1 && target != "" && NotOlder(numbers, better, target, parts)
    ensures better != "" && |numbers(better)| >= 2
  {
  }

  lemma AtLeastObserved(numbers: Numbers, better: Provenance, target: Provenance)
    requires AtLeast(numbers, better, target) && Observed(target)
    ensures Observed(better) && forall v :: v in Databases(better) ==> |numbers(v)| >= 2
  {
    var known, newer := Databases(target), Databases(better);
    var parts := [1, 1, 1, 2, 2, 2];
    forall i | 0 <= i < 6 ensures newer[i] != "" && |numbers(newer[i])| >= 2 {
      assert known[i] in known;
      NotOlderKeepsKnown(numbers, newer[i], known[i], parts[i]);
    }
  }

  /** A target that is at least as good accepts every archive the other accepts. */
  lemma CompatibleMonotone(numbers: Numbers, m: Manifest, target: Provenance, better: Provenance)
    requires Compatible(numbers, m, target) && AtLeast(numbers, better, target)
    ensures Compatible(numbers, m, better)
  {
    AtLeastObserved(numbers, better, target);
    var s := m.platform.value;
    assert target.postgresServer in Databases(target) && target.postgresRestore in Databases(target)
        && target.mariaServer in Databases(target) && target.mariaClient in Databases(target);
    NotOlderTransitive(numbers, better.postgresServer, target.postgresServer, s.postgresServer, 1);
    NotOlderTransitive(numbers, better.postgresServer, target.postgresServer, s.postgresDump, 1);
    NotOlderTransitive(numbers, better.postgresRestore, target.postgresRestore, s.postgresDump, 1);
    NotOlderTransitive(numbers, better.mariaServer, target.mariaServer, s.mariaServer, 2);
    NotOlderTransitive(numbers, better.mariaServer, target.mariaServer, s.mariaDump, 2);
    NotOlderTransitive(numbers, better.mariaClient, target.mariaClient, s.mariaDump, 2);
    if m.mysql.Some? {
      assert target.hosting[0] in better.hosting;
    }
  }
}
