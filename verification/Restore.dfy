/**
 RunRestore as an effect sequence: every check, service command, file write and database command is an
 event of a trace, in the order the engine attempts them.
 */
module Restore {
  import opened Bytes
  import opened Platform
  import opened Archive
  import StreamFormat

  datatype Gate =
    | Root | KeyLength | Source | ManifestRead | Review | Fingerprint | Target | ReadyPhp
    | Compatibility | RoundcubeTarget | MySQLTarget | FpmState | Schema

  datatype Database = Panel | Tenant(name: string) | RoundcubeSQLite | RoundcubeMySQL

  datatype Action =
    | Check(gate: Gate) | Authenticate
    | StopFpm | StopUnit(unit: string)
    | SaveDump(file: File) | ChangeIdentity | ExtractFile(name: string) | Finish
    | Drop(db: Database) | Import(db: Database) | Hygiene | Realign | StartFpm | Ownership
    | Reload | StartUnit(unit: string)

  datatype Event = Event(action: Action, ok: bool)

  const STOP_SERVICES := ["nakpanel.service", "nakpanel-agent.service", "stalwart-mail.service", "nginx.service",
                          "named.service", "nakpanel-proftpd.service"]
  const START_ORDER := ["nakpanel-agent.service", "nakpanel.service", "nginx.service", "named.service",
                        "stalwart-mail.service", "nakpanel-proftpd.service"]

  predicate ShouldStart(unit: string) {
    !("nakpanel-php-fpm@" <= unit) && !("nakpanel-php-worker@" <= unit) && !("nakpanel-php-app-" <= unit)
  }

  // ------------------------------------------------------------------ what a trace must satisfy

  ghost predicate Has(trace: seq<Event>, action: Action) {
    exists i :: 0 <= i < |trace| && trace[i] == Event(action, true)
  }

  ghost predicate GatesPassed(trace: seq<Event>) {
    forall gate: Gate :: Has(trace, Check(gate))
  }

  /** Every dropped database was imported again. */
  ghost predicate DropsImported(trace: seq<Event>) {
    forall i :: 0 <= i < |trace| && trace[i].action.Drop? ==> Has(trace[i + 1..], Import(trace[i].action.db))
  }

  ghost predicate ImportsSucceeded(trace: seq<Event>) {
    forall i :: 0 <= i < |trace| && trace[i].action.Import? ==> trace[i].ok
  }

  /** Stops, identity changes, extraction and everything after them. */
  predicate Mutates(action: Action) {
    !action.Check? && !action.Authenticate?
  }

  predicate Databases(action: Action) {
    action.Drop? || action.Import? || action.Hygiene? || action.Realign? || action.StartFpm? || action.Ownership?
  }

  predicate Services(action: Action) {
    action.Reload? || action.StartUnit?
  }

  /** When `action` may be attempted after `trace`; `hook` says whether an ownership hook was given. */
  ghost predicate Allowed(trace: seq<Event>, action: Action, hook: bool) {
    && (action.Authenticate? ==> GatesPassed(trace))
    && (Mutates(action) ==> GatesPassed(trace) && Has(trace, Authenticate))
    && (Databases(action) || Services(action) ==> Has(trace, Finish))
    && (action.StartFpm? ==> DropsImported(trace) && ImportsSucceeded(trace))
    && (Services(action) ==> DropsImported(trace) && ImportsSucceeded(trace) && (hook ==> Has(trace, Ownership)))
    && (action.StartUnit? ==> ShouldStart(action.unit))
  }

  /** Every event was allowed by the events before it. */
  ghost predicate Safe(trace: seq<Event>, hook: bool) {
    forall i :: 0 <= i < |trace| ==> Allowed(trace[..i], trace[i].action, hook)
  }

  lemma SafeAppend(trace: seq<Event>, e: Event, hook: bool)
    requires Safe(trace, hook) && Allowed(trace, e.action, hook)
    ensures Safe(trace + [e], hook)
  {
    forall i | 0 <= i < |trace + [e]| ensures Allowed((trace + [e])[..i], (trace + [e])[i].action, hook) {
      if i < |trace| {
        assert (trace + [e])[..i] == trace[..i];
      } else {
        assert (trace + [e])[..i] == trace;
      }
    }
  }

  lemma HasAppend(trace: seq<Event>, e: Event, action: Action)
    ensures Has(trace, action) ==> Has(trace + [e], action)
    ensures e == Event(action, true) ==> Has(trace + [e], action)
  {
    var all := trace + [e];
    if Has(trace, action) {
      var i :| 0 <= i < |trace| && trace[i] == Event(action, true);
      assert all[i] == Event(action, true);
    }
    assert all[|trace|] == e;
  }

  /** What the events passed so far establish for later ones. */
  ghost predicate Reached(trace: seq<Event>, action: Action) {
    GatesPassed(trace) && Has(trace, Authenticate) && Has(trace, action)
  }

  lemma ReachedAppend(trace: seq<Event>, e: Event, action: Action)
    requires Reached(trace, action)
    ensures Reached(trace + [e], action)
  {
    forall gate: Gate ensures Has(trace + [e], Check(gate)) {
      HasAppend(trace, e, Check(gate));
    }
    HasAppend(trace, e, Authenticate);
    HasAppend(trace, e, action);
  }

  // ------------------------------------------------------------------ following a plan

  /** Commands whose failure is only logged. */
  predicate BestEffort(action: Action) {
    action.StopUnit? || action.Realign? || action.StartUnit?
  }

  function Actions(trace: seq<Event>): seq<Action> {
    if trace == [] then [] else Actions(trace[..|trace| - 1]) + [trace[|trace| - 1].action]
  }

  ghost predicate Succeeded(trace: seq<Event>) {
    forall i :: 0 <= i < |trace| ==> trace[i].ok || BestEffort(trace[i].action)
  }

  /** The actions since `before` are those of the plan in order, and all of them when done. */
  ghost predicate Follows(before: seq<Action>, after: seq<Action>, plan: seq<Action>, done: bool) {
    after <= before + plan && (done ==> after == before + plan)
  }

  lemma FollowsNothing(actions: seq<Action>)
    ensures Follows(actions, actions, [], true)
  {
  }

  lemma FollowsThen(a: seq<Action>, b: seq<Action>, c: seq<Action>, p: seq<Action>, q: seq<Action>, done: bool)
    requires Follows(a, b, p, true) && Follows(b, c, q, done)
    ensures Follows(a, c, p + q, done)
  {
    assert a + p + q == a + (p + q);
  }

  lemma FollowsStep(a: seq<Action>, b: seq<Action>, p: seq<Action>, action: Action)
    requires Follows(a, b, p, true)
    ensures Follows(a, b + [action], p + [action], true)
  {
    assert a + p + [action] == a + (p + [action]);
  }

  /** The plan is not followed to its end. */
  lemma FollowsPart(a: seq<Action>, b: seq<Action>, p: seq<Action>, q: seq<Action>)
    requires Follows(a, b, p, false) && p <= q
    ensures Follows(a, b, q, false)
  {
    assert a + p <= a + q;
  }

  // ------------------------------------------------------------------ the host

  /** What every trace keeps: it is safe, `actions` are its actions, and Finish succeeded only on a drained archive. */
  ghost predicate TraceKept(trace: seq<Event>, actions: seq<Action>, unfailed: bool, hook: bool, drained: bool) {
    && Safe(trace, hook) && actions == Actions(trace)
    && (unfailed ==> Succeeded(trace)) && (Has(trace, Finish) ==> drained)
  }

  lemma KeptAppend(trace: seq<Event>, actions: seq<Action>, unfailed: bool, hook: bool, drained: bool, e: Event)
    requires TraceKept(trace, actions, unfailed, hook, drained) && Allowed(trace, e.action, hook)
    requires e == Event(Finish, true) ==> drained
    ensures TraceKept(trace + [e], actions + [e.action], unfailed && (e.ok || BestEffort(e.action)), hook, drained)
  {
    SafeAppend(trace, e, hook);
    assert (trace + [e])[..|trace|] == trace;
    if Has(trace + [e], Finish) && e != Event(Finish, true) {
      var i :| 0 <= i < |trace + [e]| && (trace + [e])[i] == Event(Finish, true);
      assert trace[i] == Event(Finish, true);
    }
  }

  /** A record of a trace: the condition it keeps, which the steps of the engine need not look into. */
  type Keeper = (seq<Event>, seq<Action>, bool) -> bool

  ghost function KeeperOf(hook: bool, drained: bool): Keeper {
    (trace: seq<Event>, actions: seq<Action>, unfailed: bool) => TraceKept(trace, actions, unfailed, hook, drained)
  }

  /** An allowed event keeps the condition. */
  ghost predicate LawfulKeeper(keeper: Keeper, hook: bool, drained: bool) {
    forall t: seq<Event>, a: seq<Action>, u: bool, e: Event, u': bool
      {:trigger keeper(t, a, u), keeper(t + [e], a + [e.action], u')} ::
      keeper(t, a, u) && Allowed(t, e.action, hook) && (e == Event(Finish, true) ==> drained)
      && (u' <==> u && (e.ok || BestEffort(e.action)))
      ==> keeper(t + [e], a + [e.action], u')
  }

  lemma KeeperKeeps(hook: bool, drained: bool)
    ensures LawfulKeeper(KeeperOf(hook, drained), hook, drained) && KeeperOf(hook, drained)([], [], true)
  {
    var keeper := KeeperOf(hook, drained);
    forall t: seq<Event>, a: seq<Action>, u: bool, e: Event, u': bool |
      keeper(t, a, u) && Allowed(t, e.action, hook) && (e == Event(Finish, true) ==> drained)
      && (u' <==> u && (e.ok || BestEffort(e.action)))
      ensures keeper(t + [e], a + [e.action], u')
    {
      KeptAppend(t, a, u, hook, drained, e);
    }
  }

  /** The machine being restored: the i-th event succeeds as `fate` says, unless the engine decides it itself. */
  class Host {
    const fate: nat -> bool
    const hook: bool
    // What draining the archive after extraction reports.
    const drained: bool
    var trace: seq<Event>
    ghost const keeper: Keeper
    ghost var actions: seq<Action>
    ghost var unfailed: bool

    ghost predicate Valid()
      reads this
    {
      LawfulKeeper(keeper, hook, drained) && keeper(trace, actions, unfailed)
    }

    constructor (fate: nat -> bool, hook: bool, drained: bool)
      ensures this.fate == fate && this.hook == hook && this.drained == drained && keeper == KeeperOf(hook, drained)
      ensures Valid() && trace == [] && actions == [] && unfailed
    {
      this.fate, this.hook, this.drained, trace := fate, hook, drained, [];
      keeper, actions, unfailed := KeeperOf(hook, drained), [], true;
      KeeperKeeps(hook, drained);
    }

    method Record(action: Action, ok: bool)
      requires Valid() && Allowed(trace, action, hook) && (action == Finish && ok ==> drained)
      modifies this
      ensures Valid() && trace == old(trace) + [Event(action, ok)]
      ensures actions == old(actions) + [action]
      ensures unfailed <==> old(unfailed) && (ok || BestEffort(action))
    {
      ghost var e := Event(action, ok);
      trace := trace + [Event(action, ok)];
      actions, unfailed := actions + [e.action], unfailed && (ok || BestEffort(action));
    }

    method Try(action: Action) returns (ok: bool)
      requires Valid() && Allowed(trace, action, hook) && action != Finish
      modifies this
      ensures Valid() && trace == old(trace) + [Event(action, ok)]
      ensures actions == old(actions) + [action]
      ensures unfailed <==> old(unfailed) && (ok || BestEffort(action))
      ensures ok == fate(|old(trace)|)
    {
      ok := fate(|trace|);
      Record(action, ok);
    }

    /** Since `before` the plan was followed, all of it and without a failure that matters when done. */
    ghost predicate Followed(before: seq<Action>, ok: bool, plan: seq<Action>, done: bool)
      reads this
    {
      Follows(before, actions, plan, done) && (done ==> unfailed == ok)
    }
  }

  // ------------------------------------------------------------------ preflight

  /**
   The options, what each opening of the archive yields, and what the target answers.  The archive is opened
   for the manifest (0), for the integrity pass (1) and for extraction (2), and `src` and `broken` say what each
   of these reads; `ready` is None without an inventory collector and Some(None) when the collector fails, `fpm`
   is None when the state cannot be read.  The instance units are listed at the stops (0) and again at the starts
   (1), after extraction has written the archived ones.
   */
  datatype Request = Request(
    lib: Library, src: nat -> Bytes, broken: nat -> bool, io: nat -> bool,
    root: bool, key: Bytes, given: bool, opens: nat -> bool, mode: Mode, review: bool, reviewOk: bool, fingerprint: bool,
    target: Option<Provenance>, ready: Option<Option<seq<string>>>, roundcubeTarget: bool, mysqlTarget: bool,
    fpm: Option<bool>, archiveSchema: int, installedSchema: int, allowMismatch: bool,
    instances: nat -> seq<string>, installed: string -> bool, workDir: bool, databaseName: string -> bool)

  const MANIFEST_PASS: nat := 0
  const INTEGRITY_PASS: nat := 1
  const EXTRACTION_PASS: nat := 2

  function ReadPass(r: Request, pass: nat): (Bytes, StreamFormat.Outcome) {
    r.lib.read(r.key, r.src(pass), r.broken(pass))
  }

  function TarOf(r: Request, pass: nat): Tar {
    var (plain, outcome) := ReadPass(r, pass);
    r.lib.untar(plain, outcome)
  }

  function Contents(r: Request, pass: nat): seq<Item> {
    Items(TarOf(r, pass).entries)
  }

  /** What Finish reports in a pass. */
  function Drained(r: Request, pass: nat): bool {
    var (plain, outcome) := ReadPass(r, pass);
    r.lib.drains(plain, outcome)
  }

  function ManifestOf(r: Request, pass: nat): Option<Manifest> {
    if Opens(ReadPass(r, pass).1) then ReadManifest(r.lib, Contents(r, pass)) else None
  }

  function Declared(r: Request): Option<Manifest> {
    ManifestOf(r, MANIFEST_PASS)
  }

  function UsesPhp(m: Manifest): bool {
    m.platform.Some? && var p := m.platform.value;
    p.required != [] || (p.execution.Some? && p.execution.value != []) || p.hosting != []
  }

  function Effective(r: Request): Option<Provenance> {
    if r.target.None? || r.ready == Some(None) then None
    else if r.ready.Some? then Some(r.target.value.(hosting := r.ready.value.value))
    else r.target
  }

  predicate UsesRoundcube(m: Manifest) {
    m.mysql.Some? || m.sqlitePath != ""
  }

  ghost predicate GateOk(r: Request, gate: Gate) {
    var m := Declared(r);
    match gate
    case Root => r.root
    case KeyLength => |r.key| == StreamFormat.KEY_SIZE
    case Source => r.given && r.opens(MANIFEST_PASS)
    case ManifestRead => m.Some?
    case Review => r.review ==> r.mode.OtherMode? && r.reviewOk
    case Fingerprint => r.fingerprint
    case Target => r.target.Some?
    case ReadyPhp => if r.ready.Some? then r.ready.value.Some? else !r.mode.OtherMode? && (m.Some? ==> !UsesPhp(m.value))
    case Compatibility =>
      !r.mode.OtherMode? && m.Some? && Effective(r).Some? && Compatible(r.lib.numbers, m.value, Effective(r).value)
    case RoundcubeTarget => r.roundcubeTarget
    case MySQLTarget => r.mysqlTarget
    case FpmState => m.Some? && UsesRoundcube(m.value) ==> r.fpm.Some?
    case Schema =>
      !(r.archiveSchema > r.installedSchema && r.installedSchema > 0) &&
      (r.archiveSchema < r.installedSchema ==> r.allowMismatch)
  }

  /** The archive and the target allow the restore. */
  ghost predicate Admissible(r: Request) {
    GatesOk(r) && IntegrityPasses(r)
  }

  ghost predicate GatesOk(r: Request) {
    forall gate :: GateOk(r, gate)
  }

  predicate IntegrityPasses(r: Request) {
    Passes(r.lib, r.key, r.src(INTEGRITY_PASS), r.broken(INTEGRITY_PASS))
  }

  method Evaluate(r: Request, gate: Gate) returns (ok: bool)
    ensures ok <==> GateOk(r, gate)
  {
    var m := Declared(r);
    match gate {
      case Root => ok := r.root;
      case KeyLength => ok := |r.key| == StreamFormat.KEY_SIZE;
      case Source => ok := r.given && r.opens(MANIFEST_PASS);
      case ManifestRead => ok := m.Some?;
      case Review => ok := !r.review || (r.mode.OtherMode? && r.reviewOk);
      case Fingerprint => ok := r.fingerprint;
      case Target => ok := r.target.Some?;
      case ReadyPhp => ok := if r.ready.Some? then r.ready.value.Some? else !r.mode.OtherMode? && (m.None? || !UsesPhp(m.value));
      case Compatibility =>
        if m.Some? && Effective(r).Some? {
          ok := CheckRestoreCompatibility(r.lib.numbers, m.value, Effective(r).value, r.mode);
        } else {
          ok := false;
        }
      case RoundcubeTarget => ok := r.roundcubeTarget;
      case MySQLTarget => ok := r.mysqlTarget;
      case FpmState => ok := m.None? || !UsesRoundcube(m.value) || r.fpm.Some?;
      case Schema =>
        ok := !(r.archiveSchema > r.installedSchema && r.installedSchema > 0) &&
              (r.archiveSchema >= r.installedSchema || r.allowMismatch);
    }
  }

  const GATES := [Root, KeyLength, Source, ManifestRead, Review, Fingerprint, Target, ReadyPhp, Compatibility,
                  RoundcubeTarget, MySQLTarget, FpmState, Schema]

  lemma AllGates(gate: Gate)
    ensures gate in GATES
  {
  }

  function Checks(n: nat): (actions: seq<Action>)
    requires n <= |GATES|
    ensures |actions| == n
  {
    if n == 0 then [] else Checks(n - 1) + [Check(GATES[n - 1])]
  }

  lemma {:induction false} ChecksPrefix(n: nat, m: nat)
    requires n <= m <= |GATES|
    ensures Checks(n) <= Checks(m)
  {
    if n == m {
    } else {
      ChecksPrefix(n, m - 1);
    }
  }

  ghost predicate OnlyChecks(trace: seq<Event>) {
    forall i :: 0 <= i < |trace| ==> !Mutates(trace[i].action)
  }

  /** The first n gates hold and have been passed. */
  ghost predicate FirstGates(trace: seq<Event>, r: Request, n: nat) {
    forall k :: 0 <= k < n && k < |GATES| ==> Has(trace, Check(GATES[k])) && GateOk(r, GATES[k])
  }

  lemma GatesComplete(trace: seq<Event>, r: Request)
    requires FirstGates(trace, r, |GATES|)
    ensures GatesPassed(trace) && GatesOk(r)
  {
    forall gate: Gate ensures Has(trace, Check(gate)) && GateOk(r, gate) {
      AllGates(gate);
    }
  }

  /** One gate: it passes exactly when its condition holds. */
  method CheckGate(host: Host, r: Request, i: nat) returns (ok: bool)
    requires i < |GATES| && host.Valid() && OnlyChecks(host.trace)
    requires FirstGates(host.trace, r, i)
    modifies host
    ensures host.Valid() && OnlyChecks(host.trace)
    ensures host.actions == old(host.actions) + [Check(GATES[i])] && host.unfailed == (old(host.unfailed) && ok)
    ensures ok ==> FirstGates(host.trace, r, i + 1)
    ensures ok <==> GateOk(r, GATES[i])
  {
    var gate := GATES[i];
    ok := Evaluate(r, gate);
    host.Record(Check(gate), ok);
    if ok {
      NextGate(old(host.trace), r, i);
    }
  }

  lemma NextGate(trace: seq<Event>, r: Request, i: nat)
    requires i < |GATES| && FirstGates(trace, r, i) && GateOk(r, GATES[i])
    ensures FirstGates(trace + [Event(Check(GATES[i]), true)], r, i + 1)
  {
    var gate := GATES[i];
    forall k | 0 <= k < i + 1 && k < |GATES| ensures Has(trace + [Event(Check(gate), true)], Check(GATES[k])) {
      HasAppend(trace, Event(Check(gate), true), Check(GATES[k]));
    }
  }

  /** Every gate in order, up to the first that refuses. */
  method CheckGates(host: Host, r: Request) returns (ok: bool)
    requires host.Valid() && host.trace == [] && host.actions == [] && host.unfailed
    modifies host
    ensures host.Valid() && OnlyChecks(host.trace)
    ensures host.Followed([], true, Checks(|GATES|), ok)
    ensures ok ==> GatesPassed(host.trace)
    ensures ok <==> GatesOk(r)
  {
    for i := 0 to |GATES|
      invariant host.Valid() && OnlyChecks(host.trace)
      invariant host.actions == Checks(i) && host.unfailed
      invariant FirstGates(host.trace, r, i)
    {
      ok := CheckGate(host, r, i);
      if !ok {
        ChecksPrefix(i + 1, |GATES|);
        return;
      }
    }
    GatesComplete(host.trace, r);
    ok := true;
  }

  function PreflightPlan(): seq<Action> {
    Checks(|GATES|) + [Authenticate]
  }

  /** The whole archive is authenticated. */
  method AuthenticateArchive(host: Host, r: Request) returns (ok: bool)
    requires host.Valid() && GatesPassed(host.trace) && OnlyChecks(host.trace)
    modifies host
    ensures host.Valid() && OnlyChecks(host.trace) && NoDatabases(host.trace)
    ensures host.actions == old(host.actions) + [Authenticate] && host.unfailed == (old(host.unfailed) && ok)
    ensures ok ==> Reached(host.trace, Authenticate)
    ensures ok ==> IntegrityPasses(r)
    ensures r.opens(INTEGRITY_PASS) && (forall i :: r.io(i)) && IntegrityPasses(r) ==> ok
  {
    ok := r.opens(INTEGRITY_PASS);
    if ok {
      ok := CheckArchiveIntegrity(r.lib, r.key, r.src(INTEGRITY_PASS), r.broken(INTEGRITY_PASS), r.io);
    }
    ghost var before := host.trace;
    host.Record(Authenticate, ok);
    HasAppend(before, Event(Authenticate, ok), Authenticate);
    forall gate: Gate ensures Has(host.trace, Check(gate)) {
      HasAppend(before, Event(Authenticate, ok), Check(gate));
    }
  }

  /** No command, file operation or opening fails. */
  ghost predicate NoFailures(fate: nat -> bool, r: Request) {
    (forall k :: fate(k)) && (forall k :: r.io(k)) && (forall k :: r.opens(k)) && r.workDir
  }

  /** Every gate in order, then the whole archive; nothing else happens here. */
  method Preflight(host: Host, r: Request) returns (ok: bool)
    requires host.Valid() && host.trace == [] && host.actions == [] && host.unfailed
    modifies host
    ensures host.Valid() && OnlyChecks(host.trace) && NoDatabases(host.trace)
    ensures host.Followed([], true, PreflightPlan(), ok)
    ensures ok ==> Reached(host.trace, Authenticate)
    ensures ok ==> Admissible(r)
    ensures NoFailures(host.fate, r) && Admissible(r) ==> ok
  {
    ok := CheckGates(host, r);
    if !ok {
      FollowsPart([], host.actions, Checks(|GATES|), PreflightPlan());
      return;
    }
    FollowsStep([], host.actions, Checks(|GATES|), Authenticate);
    ok := AuthenticateArchive(host, r);
  }

  // ------------------------------------------------------------------ stopping services

  function Stops(units: seq<string>): seq<Action> {
    if units == [] then [] else Stops(units[..|units| - 1]) + [StopUnit(units[|units| - 1])]
  }

  function StopPlan(fpmActive: bool, instances: seq<string>): seq<Action> {
    (if fpmActive then [StopFpm] else []) + Stops(STOP_SERVICES + instances)
  }

  method StopUnits(host: Host, units: seq<string>)
    requires host.Valid() && Reached(host.trace, Authenticate) && NoDatabases(host.trace)
    modifies host
    ensures host.Valid() && Reached(host.trace, Authenticate) && NoDatabases(host.trace)
    ensures host.Followed(old(host.actions), old(host.unfailed), Stops(units), true)
  {
    FollowsNothing(host.actions);
    for i := 0 to |units|
      invariant host.Valid() && Reached(host.trace, Authenticate) && NoDatabases(host.trace)
      invariant host.Followed(old(host.actions), old(host.unfailed), Stops(units[..i]), true)
    {
      FollowsStep(old(host.actions), host.actions, Stops(units[..i]), StopUnit(units[i]));
      var stopped := Step(host, StopUnit(units[i]), Authenticate);
      assert units[..i + 1][..i] == units[..i];
    }
    assert units[..|units|] == units;
  }

  /** Only the FPM stop can fail the restore; the others are best effort. */
  method StopWorld(host: Host, fpmActive: bool, instances: seq<string>) returns (ok: bool)
    requires host.Valid() && Reached(host.trace, Authenticate) && NoDatabases(host.trace)
    modifies host
    ensures host.Valid() && Reached(host.trace, Authenticate) && NoDatabases(host.trace)
    ensures host.Followed(old(host.actions), old(host.unfailed), StopPlan(fpmActive, instances), ok)
    ensures (forall k :: host.fate(k)) ==> ok
  {
    ghost var before := host.actions;
    ok := true;
    if fpmActive {
      ok := Step(host, StopFpm, Authenticate);
      if !ok {
        FollowsPart(before, host.actions, [StopFpm], StopPlan(fpmActive, instances));
        return;
      }
    }
    ghost var stopping := host.actions;
    StopUnits(host, STOP_SERVICES + instances);
    ghost var first := if fpmActive then [StopFpm] else [];
    assert stopping == before + first;
    FollowsThen(before, stopping, host.actions, first, Stops(STOP_SERVICES + instances), true);
  }

  ghost predicate NoDatabases(trace: seq<Event>) {
    forall i :: 0 <= i < |trace| ==> !trace[i].action.Drop? && !trace[i].action.Import?
  }

  /** One command of the phases before the databases. */
  method Step(host: Host, action: Action, ghost milestone: Action) returns (ok: bool)
    requires host.Valid() && Reached(host.trace, milestone) && NoDatabases(host.trace)
    requires !Databases(action) && !Services(action) && action != Finish
    modifies host
    ensures host.Valid() && Reached(host.trace, milestone) && NoDatabases(host.trace)
    ensures host.actions == old(host.actions) + [action]
    ensures host.unfailed <==> old(host.unfailed) && (ok || BestEffort(action))
    ensures (forall k :: host.fate(k)) ==> ok
  {
    ok := host.Try(action);
    ReachedAppend(old(host.trace), Event(action, ok), milestone);
  }

  // ------------------------------------------------------------------ extraction

  datatype Error =
    | GateRefused | CommandFailed | NotOpened | Refused(failure: Failure) | CorruptArchive | Unfinished
    | NoPostgres | NoSQLite | NoMySQL | BadDatabaseName

  /** The event an entry leads to, if extraction accepts it. */
  function Effect(item: Item): Option<Action> {
    match item.kind
    case UsersFile => Some(ChangeIdentity)
    case Tree(rel, _) => if IsPlatformIdentity(rel) then None else Some(ExtractFile(item.entry.name))
    case _ =>
      match WorkFile(item.kind)
      case Some(file) => Some(SaveDump(file))
      case None => None
  }

  /** The actions an entry leads to: one or none. */
  function Taken(item: Item): seq<Action> {
    match Effect(item)
    case Some(action) => [action]
    case None => []
  }

  /** What extraction does for the accepted entries, in order. */
  function Effects(items: seq<Item>): seq<Action> {
    if items == [] then [] else
    var n := |items| - 1;
    Effects(items[..n]) + Taken(items[n])
  }

  lemma {:induction false} EffectsPrefix(items: seq<Item>, n: nat)
    requires n <= |items|
    ensures Effects(items[..n]) <= Effects(items)
  {
    if n < |items| {
      assert items[..|items| - 1][..n] == items[..n];
      EffectsPrefix(items[..|items| - 1], n);
    } else {
      assert items[..n] == items;
    }
  }

  function Dumps(items: seq<Item>): seq<string> {
    if items == [] then [] else
    var n := |items| - 1;
    Dumps(items[..n]) + if items[n].kind.MariaDump? then [items[n].kind.base] else []
  }

  function ExtractPlan(items: seq<Item>): seq<Action> {
    Effects(items) + [Finish]
  }

  /** Extraction stops within the first n entries. */
  lemma ExtractStopped(a: seq<Action>, b: seq<Action>, items: seq<Item>, n: nat)
    requires n <= |items| && Follows(a, b, Effects(items[..n]), false)
    ensures Follows(a, b, ExtractPlan(items), false)
  {
    EffectsPrefix(items, n);
    FollowsPart(a, b, Effects(items[..n]), ExtractPlan(items));
  }

  /** The command one accepted entry leads to. */
  method Apply(host: Host, item: Item) returns (ok: bool)
    requires host.Valid() && Reached(host.trace, Authenticate) && NoDatabases(host.trace)
    modifies host
    ensures host.Valid() && Reached(host.trace, Authenticate) && NoDatabases(host.trace)
    ensures host.actions == old(host.actions) + Taken(item)
    ensures host.unfailed <==> old(host.unfailed) && ok
    ensures (forall k :: host.fate(k)) ==> ok
  {
    ok := true;
    var effect := Effect(item);
    if effect.Some? {
      ok := Step(host, effect.value, Authenticate);
    }
  }

  /** One entry: refused, or applied to the machine. */
  method ExtractItem(host: Host, lib: Library, m: Manifest, work: Work, item: Item) returns (error: Option<Error>, work': Work)
    requires host.Valid() && Reached(host.trace, Authenticate) && NoDatabases(host.trace)
    modifies host
    ensures host.Valid() && Reached(host.trace, Authenticate) && NoDatabases(host.trace)
    ensures error.None? ==> ExtractEntry(lib, m, work, item.kind, item.entry) == Extracting(work')
    ensures error.Some? && error.value.Refused? ==>
      ExtractEntry(lib, m, work, item.kind, item.entry) == Failed(error.value.failure) && host.actions == old(host.actions)
    ensures error.Some? && !error.value.Refused? ==> error.value == CommandFailed && !forall k :: host.fate(k)
    ensures error.None? || !error.value.Refused? ==> host.actions == old(host.actions) + Taken(item)
    ensures error.None? ==> host.unfailed == old(host.unfailed)
  {
    var next := ExtractEntry(lib, m, work, item.kind, item.entry);
    if next.Failed? {
      return Some(Refused(next.failure)), work;
    }
    var ok := Apply(host, item);
    return if ok then None else Some(CommandFailed), next.work;
  }

  /** What one more entry adds to the extraction. */
  lemma ExtractNext(lib: Library, m: Manifest, items: seq<Item>, i: nat)
    requires i < |items| && ExtractAll(lib, m, items[..i]).Extracting?
    ensures ExtractAll(lib, m, items[..i + 1])
         == ExtractEntry(lib, m, ExtractAll(lib, m, items[..i]).work, items[i].kind, items[i].entry)
    ensures ExtractAll(lib, m, items[..i + 1]).Failed? ==> ExtractAll(lib, m, items) == ExtractAll(lib, m, items[..i + 1])
    ensures Dumps(items[..i + 1]) == Dumps(items[..i]) + if items[i].kind.MariaDump? then [items[i].kind.base] else []
  {
    assert items[..i + 1][..i] == items[..i];
    if ExtractAll(lib, m, items[..i + 1]).Failed? {
      ExtractFails(lib, m, items, i + 1, ExtractAll(lib, m, items[..i + 1]).failure);
    }
  }

  /** A phase ends as what it reads has it, or, when something outside fails, possibly with that failure. */
  predicate Tells(undisturbed: bool, verdict: Option<Error>, error: Option<Error>) {
    error == verdict || (error == Some(CommandFailed) && !undisturbed)
  }

  function EntriesVerdict(lib: Library, m: Manifest, items: seq<Item>): Option<Error> {
    match ExtractAll(lib, m, items)
    case Failed(f) => Some(Refused(f))
    case Extracting(_) => None
  }

  function ExtractVerdict(lib: Library, m: Manifest, items: seq<Item>, clean: bool, drained: bool): Option<Error> {
    var entries := EntriesVerdict(lib, m, items);
    if entries.Some? then entries
    else if !clean then Some(CorruptArchive)
    else if !drained then Some(Unfinished)
    else None
  }

  /** The loop over the entries; `dumps` are the tenant dumps in order. */
  method ExtractEntries(host: Host, lib: Library, m: Manifest, items: seq<Item>)
    returns (error: Option<Error>, work: Work, dumps: seq<string>)
    requires host.Valid() && Reached(host.trace, Authenticate) && NoDatabases(host.trace)
    modifies host
    ensures host.Valid() && Reached(host.trace, Authenticate) && NoDatabases(host.trace)
    ensures error.None? ==> host.Followed(old(host.actions), old(host.unfailed), Effects(items), true)
    ensures error.Some? ==> Follows(old(host.actions), host.actions, ExtractPlan(items), false)
    ensures error.None? ==> ExtractAll(lib, m, items) == Extracting(work) && dumps == Dumps(items)
    ensures Tells(forall k :: host.fate(k), EntriesVerdict(lib, m, items), error)
  {
    work, dumps := Work({}, 0), [];
    FollowsNothing(host.actions);
    for i := 0 to |items|
      invariant host.Valid() && Reached(host.trace, Authenticate) && NoDatabases(host.trace)
      invariant host.Followed(old(host.actions), old(host.unfailed), Effects(items[..i]), true)
      invariant ExtractAll(lib, m, items[..i]) == Extracting(work) && dumps == Dumps(items[..i])
    {
      ghost var actions := host.actions;
      ExtractNext(lib, m, items, i);
      EffectFollows(old(host.actions), actions, items, i);
      error, work := ExtractItem(host, lib, m, work, items[i]);
      if error.Some? {
        ExtractStopped(old(host.actions), host.actions, items, if error.value.Refused? then i else i + 1);
        return;
      }
      if items[i].kind.MariaDump? {
        dumps := dumps + [items[i].kind.base];
      }
    }
    assert items[..|items|] == items;
    error := None;
  }

  /** The effect of the n-th entry comes after those of the earlier ones. */
  lemma EffectFollows(a: seq<Action>, b: seq<Action>, items: seq<Item>, n: nat)
    requires n < |items| && Follows(a, b, Effects(items[..n]), true)
    ensures Follows(a, b + Taken(items[n]), Effects(items[..n + 1]), true)
  {
    assert items[..n + 1][..n] == items[..n];
    if Effect(items[n]).Some? {
      FollowsStep(a, b, Effects(items[..n]), Effect(items[n]).value);
    } else {
      assert b + [] == b && Effects(items[..n]) + [] == Effects(items[..n]);
    }
  }

  /** The extraction pass: the entries, the end of tar, and then the rest of the stream. */
  method Extract(host: Host, lib: Library, m: Manifest, items: seq<Item>, clean: bool)
    returns (error: Option<Error>, work: Work, dumps: seq<string>)
    requires host.Valid() && Reached(host.trace, Authenticate) && NoDatabases(host.trace)
    modifies host
    ensures host.Valid() && Reached(host.trace, Authenticate) && NoDatabases(host.trace)
    ensures host.Followed(old(host.actions), old(host.unfailed), ExtractPlan(items), error.None?)
    ensures error.None? ==> Reached(host.trace, Finish) && clean && host.drained
    ensures error.None? ==> ExtractAll(lib, m, items) == Extracting(work) && dumps == Dumps(items)
    ensures Tells(forall k :: host.fate(k), ExtractVerdict(lib, m, items, clean, host.drained), error)
  {
    error, work, dumps := ExtractEntries(host, lib, m, items);
    if error.Some? {
      return;
    }
    if !clean {
      FollowsPart(old(host.actions), host.actions, Effects(items), ExtractPlan(items));
      return Some(CorruptArchive), work, dumps;
    }
    ghost var before := host.trace;
    FollowsStep(old(host.actions), host.actions, Effects(items), Finish);
    host.Record(Finish, host.drained);
    ReachedAppend(before, Event(Finish, host.drained), Authenticate);
    HasAppend(before, Event(Finish, host.drained), Finish);
    return if host.drained then None else Some(Unfinished), work, dumps;
  }

  lemma {:induction false} ExtractFails(lib: Library, m: Manifest, items: seq<Item>, n: nat, f: Failure)
    requires n <= |items| && ExtractAll(lib, m, items[..n]) == Failed(f)
    ensures ExtractAll(lib, m, items) == Failed(f)
    decreases |items|
  {
    if n < |items| {
      assert items[..|items| - 1][..n] == items[..n];
      ExtractFails(lib, m, items[..|items| - 1], n, f);
    } else {
      assert items[..n] == items;
    }
  }

  // ------------------------------------------------------------------ databases

  /** What holds between two database restores. */
  ghost predicate Balanced(trace: seq<Event>) {
    Reached(trace, Finish) && DropsImported(trace) && ImportsSucceeded(trace)
  }

  lemma BalancedAppend(trace: seq<Event>, e: Event)
    requires Balanced(trace) && !e.action.Drop? && (e.action.Import? ==> e.ok)
    ensures Balanced(trace + [e])
  {
    ReachedAppend(trace, e, Finish);
    forall i | 0 <= i < |trace + [e]| && (trace + [e])[i].action.Drop?
      ensures Has((trace + [e])[i + 1..], Import((trace + [e])[i].action.db))
    {
      assert (trace + [e])[i + 1..] == trace[i + 1..] + [e];
      HasAppend(trace[i + 1..], e, Import(trace[i].action.db));
    }
  }

  lemma BalancedDropImport(trace: seq<Event>, db: Database)
    requires Balanced(trace)
    ensures Balanced(trace + [Event(Drop(db), true)] + [Event(Import(db), true)])
  {
    var drop, load := Event(Drop(db), true), Event(Import(db), true);
    var all := trace + [drop] + [load];
    ReachedAppend(trace, drop, Finish);
    ReachedAppend(trace + [drop], load, Finish);
    forall i | 0 <= i < |all| && all[i].action.Drop? ensures Has(all[i + 1..], Import(all[i].action.db)) {
      if i < |trace| {
        assert all[i + 1..] == trace[i + 1..] + [drop] + [load];
        HasAppend(trace[i + 1..], drop, Import(trace[i].action.db));
        HasAppend(trace[i + 1..] + [drop], load, Import(trace[i].action.db));
      } else {
        assert all[i + 1..] == [] + [load];
        HasAppend([], load, Import(db));
      }
    }
  }

  /** A command that does not drop anything. */
  method Settle(host: Host, action: Action) returns (ok: bool)
    requires host.Valid() && Balanced(host.trace)
    requires Databases(action) && !action.Drop?
    modifies host
    ensures host.Valid() && (ok || !action.Import? ==> Balanced(host.trace))
    ensures host.actions == old(host.actions) + [action]
    ensures host.unfailed <==> old(host.unfailed) && (ok || BestEffort(action))
    ensures ok ==> Has(host.trace, action)
    ensures (forall k :: host.fate(k)) ==> ok
  {
    ok := host.Try(action);
    if ok || !action.Import? {
      BalancedAppend(old(host.trace), Event(action, ok));
    }
    HasAppend(old(host.trace), Event(action, ok), action);
  }

  function ReplacePlan(db: Database): seq<Action> {
    [Drop(db), Import(db)]
  }

  /** Drop, then import: a failure of either ends the restore. */
  method Replace(host: Host, db: Database) returns (ok: bool)
    requires host.Valid() && Balanced(host.trace)
    modifies host
    ensures host.Valid() && (ok ==> Balanced(host.trace))
    ensures host.Followed(old(host.actions), old(host.unfailed), ReplacePlan(db), ok)
    ensures (forall k :: host.fate(k)) ==> ok
  {
    ghost var before, trace := host.actions, host.trace;
    ok := host.Try(Drop(db));
    if !ok {
      FollowsPart(before, host.actions, [Drop(db)], ReplacePlan(db));
      return;
    }
    FollowsStep(before, host.actions, [Drop(db)], Import(db));
    ReachedAppend(trace, Event(Drop(db), true), Finish);
    ok := host.Try(Import(db));
    if ok {
      BalancedDropImport(trace, db);
    }
    assert [Drop(db)] + [Import(db)] == ReplacePlan(db);
  }

  function PanelPlan(): seq<Action> {
    ReplacePlan(Panel) + [Hygiene] + [Realign]
  }

  /** The panel database; the mail role is realigned on a best effort. */
  method RestorePanel(host: Host) returns (ok: bool)
    requires host.Valid() && Balanced(host.trace)
    modifies host
    ensures host.Valid() && (ok ==> Balanced(host.trace))
    ensures host.Followed(old(host.actions), old(host.unfailed), PanelPlan(), ok)
    ensures (forall k :: host.fate(k)) ==> ok
  {
    ghost var before := host.actions;
    ok := Replace(host, Panel);
    if !ok {
      FollowsPart(before, host.actions, ReplacePlan(Panel), PanelPlan());
      return;
    }
    FollowsStep(before, host.actions, ReplacePlan(Panel), Hygiene);
    ok := Settle(host, Hygiene);
    if !ok {
      FollowsPart(before, host.actions, ReplacePlan(Panel) + [Hygiene], PanelPlan());
      return;
    }
    FollowsStep(before, host.actions, ReplacePlan(Panel) + [Hygiene], Realign);
    var realigned := Settle(host, Realign);
  }

  function TenantPlan(dumps: seq<string>): seq<Action> {
    if dumps == [] then []
    else TenantPlan(dumps[..|dumps| - 1]) + ReplacePlan(Tenant(dumps[|dumps| - 1]))
  }

  lemma {:induction false} TenantPrefix(dumps: seq<string>, n: nat)
    requires n <= |dumps|
    ensures TenantPlan(dumps[..n]) <= TenantPlan(dumps)
  {
    if n < |dumps| {
      assert dumps[..|dumps| - 1][..n] == dumps[..n];
      TenantPrefix(dumps[..|dumps| - 1], n);
    } else {
      assert dumps[..n] == dumps;
    }
  }

  /** The n-th tenant database after the earlier ones. */
  lemma TenantFollows(a: seq<Action>, b: seq<Action>, c: seq<Action>, dumps: seq<string>, n: nat, done: bool)
    requires n < |dumps| && Follows(a, b, TenantPlan(dumps[..n]), true) && Follows(b, c, ReplacePlan(Tenant(dumps[n])), done)
    ensures Follows(a, c, TenantPlan(dumps[..n + 1]), done)
  {
    assert dumps[..n + 1][..n] == dumps[..n];
    FollowsThen(a, b, c, TenantPlan(dumps[..n]), ReplacePlan(Tenant(dumps[n])), done);
  }

  lemma TenantsStopped(a: seq<Action>, b: seq<Action>, dumps: seq<string>, n: nat)
    requires n <= |dumps| && Follows(a, b, TenantPlan(dumps[..n]), false)
    ensures Follows(a, b, TenantPlan(dumps), false)
  {
    TenantPrefix(dumps, n);
    FollowsPart(a, b, TenantPlan(dumps[..n]), TenantPlan(dumps));
  }

  /** A dump whose name is no database name ends the restore. */
  function NamesVerdict(valid: string -> bool, dumps: seq<string>): Option<Error> {
    if forall name :: name in dumps ==> valid(name) then None else Some(BadDatabaseName)
  }

  /** Each tenant database in the order of the archive; a name that is not a database name ends the restore. */
  method RestoreTenants(host: Host, valid: string -> bool, dumps: seq<string>) returns (error: Option<Error>)
    requires host.Valid() && Balanced(host.trace)
    modifies host
    ensures host.Valid() && (error.None? ==> Balanced(host.trace))
    ensures host.Followed(old(host.actions), old(host.unfailed), TenantPlan(dumps), error.None?)
    ensures Tells(forall k :: host.fate(k), NamesVerdict(valid, dumps), error)
  {
    FollowsNothing(host.actions);
    for i := 0 to |dumps|
      invariant host.Valid() && Balanced(host.trace)
      invariant host.Followed(old(host.actions), old(host.unfailed), TenantPlan(dumps[..i]), true)
      invariant forall k :: 0 <= k < i ==> valid(dumps[k])
    {
      if !valid(dumps[i]) {
        TenantsStopped(old(host.actions), host.actions, dumps, i);
        return Some(BadDatabaseName);
      }
      ghost var before := host.actions;
      var ok := Replace(host, Tenant(dumps[i]));
      TenantFollows(old(host.actions), before, host.actions, dumps, i, ok);
      if !ok {
        TenantsStopped(old(host.actions), host.actions, dumps, i + 1);
        return Some(CommandFailed);
      }
    }
    assert dumps[..|dumps|] == dumps;
    error := None;
  }

  function RoundcubePlan(sqlite: bool, mysql: bool): seq<Action> {
    (if sqlite then [Import(RoundcubeSQLite)] else []) + (if mysql then ReplacePlan(RoundcubeMySQL) else [])
  }

  method RestoreRoundcube(host: Host, sqlite: bool, mysql: bool) returns (ok: bool)
    requires host.Valid() && Balanced(host.trace)
    modifies host
    ensures host.Valid() && (ok ==> Balanced(host.trace))
    ensures host.Followed(old(host.actions), old(host.unfailed), RoundcubePlan(sqlite, mysql), ok)
    ensures (forall k :: host.fate(k)) ==> ok
  {
    ghost var before := host.actions;
    ghost var first := if sqlite then [Import(RoundcubeSQLite)] else [];
    ok := true;
    if sqlite {
      ok := Settle(host, Import(RoundcubeSQLite));
    }
    assert host.actions == before + first;
    if ok && mysql {
      ghost var middle := host.actions;
      ok := Replace(host, RoundcubeMySQL);
      FollowsThen(before, middle, host.actions, first, ReplacePlan(RoundcubeMySQL), ok);
    } else {
      FollowsPart(before, host.actions, first, RoundcubePlan(sqlite, mysql));
      assert !mysql ==> RoundcubePlan(sqlite, mysql) == first;
    }
  }

  function ReopenPlan(fpmActive: bool, hook: bool): seq<Action> {
    (if fpmActive then [StartFpm] else []) + (if hook then [Ownership] else [])
  }

  method Reopen(host: Host, fpmActive: bool) returns (ok: bool)
    requires host.Valid() && Balanced(host.trace)
    modifies host
    ensures host.Valid() && (ok ==> Recovered(host.trace, host.hook))
    ensures host.Followed(old(host.actions), old(host.unfailed), ReopenPlan(fpmActive, host.hook), ok)
    ensures (forall k :: host.fate(k)) ==> ok
  {
    ghost var before := host.actions;
    ghost var first := if fpmActive then [StartFpm] else [];
    ok := true;
    if fpmActive {
      ok := Settle(host, StartFpm);
    }
    assert host.actions == before + first;
    if ok && host.hook {
      FollowsStep(before, host.actions, first, Ownership);
      ok := Settle(host, Ownership);
    } else {
      FollowsPart(before, host.actions, first, ReopenPlan(fpmActive, host.hook));
      assert !host.hook ==> ReopenPlan(fpmActive, host.hook) == first;
    }
  }

  function DatabasePlan(dumps: seq<string>, sqlite: bool, mysql: bool, fpmActive: bool, hook: bool): seq<Action> {
    PanelPlan() + OthersPlan(dumps, sqlite, mysql, fpmActive, hook)
  }

  function OthersPlan(dumps: seq<string>, sqlite: bool, mysql: bool, fpmActive: bool, hook: bool): seq<Action> {
    TenantPlan(dumps) + (RoundcubePlan(sqlite, mysql) + ReopenPlan(fpmActive, hook))
  }

  /** Roundcube's database, then the hook for the tenants' ownership. */
  method RestoreRest(host: Host, sqlite: bool, mysql: bool, fpmActive: bool) returns (ok: bool)
    requires host.Valid() && Balanced(host.trace)
    modifies host
    ensures host.Valid() && (ok ==> Recovered(host.trace, host.hook))
    ensures host.Followed(old(host.actions), old(host.unfailed), RoundcubePlan(sqlite, mysql) + ReopenPlan(fpmActive, host.hook), ok)
    ensures (forall k :: host.fate(k)) ==> ok
  {
    ok := RestoreRoundcube(host, sqlite, mysql);
    ghost var middle := host.actions;
    if ok {
      ok := Reopen(host, fpmActive);
      FollowsThen(old(host.actions), middle, host.actions, RoundcubePlan(sqlite, mysql), ReopenPlan(fpmActive, host.hook), ok);
    } else {
      FollowsPart(old(host.actions), middle, RoundcubePlan(sqlite, mysql),
                  RoundcubePlan(sqlite, mysql) + ReopenPlan(fpmActive, host.hook));
    }
  }

  /** The tenants' databases, then Roundcube's and the hook. */
  method RestoreOthers(host: Host, valid: string -> bool, dumps: seq<string>, sqlite: bool, mysql: bool, fpmActive: bool)
    returns (error: Option<Error>)
    requires host.Valid() && Balanced(host.trace)
    modifies host
    ensures host.Valid() && (error.None? ==> Recovered(host.trace, host.hook))
    ensures host.Followed(old(host.actions), old(host.unfailed), OthersPlan(dumps, sqlite, mysql, fpmActive, host.hook), error.None?)
    ensures Tells(forall k :: host.fate(k), NamesVerdict(valid, dumps), error)
  {
    ghost var before := host.actions;
    ghost var rest := RoundcubePlan(sqlite, mysql) + ReopenPlan(fpmActive, host.hook);
    error := RestoreTenants(host, valid, dumps);
    if error.Some? {
      FollowsPart(before, host.actions, TenantPlan(dumps), TenantPlan(dumps) + rest);
    } else {
      ghost var tenants := host.actions;
      var ok := RestoreRest(host, sqlite, mysql, fpmActive);
      FollowsThen(before, tenants, host.actions, TenantPlan(dumps), rest, ok);
      error := if ok then None else Some(CommandFailed);
    }
  }

  method RestoreDatabases(host: Host, valid: string -> bool, dumps: seq<string>, sqlite: bool, mysql: bool, fpmActive: bool)
    returns (error: Option<Error>)
    requires host.Valid() && Balanced(host.trace)
    modifies host
    ensures host.Valid() && (error.None? ==> Recovered(host.trace, host.hook))
    ensures host.Followed(old(host.actions), old(host.unfailed), DatabasePlan(dumps, sqlite, mysql, fpmActive, host.hook), error.None?)
    ensures Tells(forall k :: host.fate(k), NamesVerdict(valid, dumps), error)
  {
    ghost var before := host.actions;
    ghost var others := OthersPlan(dumps, sqlite, mysql, fpmActive, host.hook);
    var ok := RestorePanel(host);
    if !ok {
      FollowsPart(before, host.actions, PanelPlan(), PanelPlan() + others);
      return Some(CommandFailed);
    }
    ghost var panel := host.actions;
    error := RestoreOthers(host, valid, dumps, sqlite, mysql, fpmActive);
    FollowsThen(before, panel, host.actions, PanelPlan(), others, error.None?);
  }

  // ------------------------------------------------------------------ services

  lemma StartOrderAllowed(i: nat)
    requires i < |START_ORDER|
    ensures ShouldStart(START_ORDER[i])
  {
    var unit := START_ORDER[i];
    if i == 0 {
      assert unit[9] == 'a' && "nakpanel-php-fpm@"[9] == 'p' && "nakpanel-php-worker@"[9] == 'p' && "nakpanel-php-app-"[9] == 'p';
    } else if i == 1 {
      assert unit[8] == '.' && "nakpanel-php-fpm@"[8] == '-' && "nakpanel-php-worker@"[8] == '-' && "nakpanel-php-app-"[8] == '-';
    } else if i == 2 {
      assert |unit| < |"nakpanel-php-fpm@"| && |unit| < |"nakpanel-php-worker@"| && |unit| < |"nakpanel-php-app-"|;
    } else if i == 3 {
      assert |unit| < |"nakpanel-php-fpm@"| && |unit| < |"nakpanel-php-worker@"| && |unit| < |"nakpanel-php-app-"|;
    } else if i == 4 {
      assert unit[0] == 's' && "nakpanel-php-fpm@"[0] == 'n' && "nakpanel-php-worker@"[0] == 'n' && "nakpanel-php-app-"[0] == 'n';
    } else {
      assert unit[11] == 'o' && "nakpanel-php-fpm@"[11] == 'p' && "nakpanel-php-worker@"[11] == 'p' && "nakpanel-php-app-"[11] == 'p';
    }
  }

  /** The conditions for starting services, which no later event takes away. */
  ghost predicate Recovered(trace: seq<Event>, hook: bool) {
    Balanced(trace) && (hook ==> Has(trace, Ownership))
  }

  method Start(host: Host, action: Action) returns (ok: bool)
    requires host.Valid() && Recovered(host.trace, host.hook)
    requires Services(action) && (action.StartUnit? ==> ShouldStart(action.unit))
    modifies host
    ensures host.Valid() && Recovered(host.trace, host.hook)
    ensures host.actions == old(host.actions) + [action]
    ensures host.unfailed <==> old(host.unfailed) && (ok || BestEffort(action))
    ensures (forall k :: host.fate(k)) ==> ok
  {
    ok := host.Try(action);
    BalancedAppend(old(host.trace), Event(action, ok));
    HasAppend(old(host.trace), Event(action, ok), Ownership);
  }

  /** The starts of those units that are wanted. */
  function Starts(units: seq<string>, wanted: string -> bool): seq<Action> {
    if units == [] then [] else
    var n := |units| - 1;
    Starts(units[..n], wanted) + if wanted(units[n]) then [StartUnit(units[n])] else []
  }

  /** Starts that fail are only logged. */
  method StartUnits(host: Host, units: seq<string>, wanted: string -> bool)
    requires host.Valid() && Recovered(host.trace, host.hook)
    requires forall i :: 0 <= i < |units| && wanted(units[i]) ==> ShouldStart(units[i])
    modifies host
    ensures host.Valid() && Recovered(host.trace, host.hook)
    ensures host.Followed(old(host.actions), old(host.unfailed), Starts(units, wanted), true)
  {
    FollowsNothing(host.actions);
    for i := 0 to |units|
      invariant host.Valid() && Recovered(host.trace, host.hook)
      invariant host.Followed(old(host.actions), old(host.unfailed), Starts(units[..i], wanted), true)
    {
      assert units[..i + 1][..i] == units[..i];
      if wanted(units[i]) {
        FollowsStep(old(host.actions), host.actions, Starts(units[..i], wanted), StartUnit(units[i]));
        var started := Start(host, StartUnit(units[i]));
      } else {
        assert Starts(units[..i + 1], wanted) == Starts(units[..i], wanted);
      }
    }
    assert units[..|units|] == units;
  }

  function ServicePlan(r: Request): seq<Action> {
    [Reload] + (Starts(START_ORDER, r.installed) + Starts(r.instances(1), ShouldStart))
  }

  method StartServices(host: Host, r: Request) returns (ok: bool)
    requires host.Valid() && Recovered(host.trace, host.hook)
    modifies host
    ensures host.Valid() && Recovered(host.trace, host.hook)
    ensures host.Followed(old(host.actions), old(host.unfailed), ServicePlan(r), ok)
    ensures (forall k :: host.fate(k)) ==> ok
  {
    ghost var before := host.actions;
    ok := Start(host, Reload);
    if !ok {
      FollowsPart(before, host.actions, [Reload], ServicePlan(r));
      return;
    }
    ghost var reloaded := host.actions;
    forall i | 0 <= i < |START_ORDER| ensures ShouldStart(START_ORDER[i]) {
      StartOrderAllowed(i);
    }
    StartUnits(host, START_ORDER, r.installed);
    ghost var services := host.actions;
    StartUnits(host, r.instances(1), ShouldStart);
    FollowsThen(reloaded, services, host.actions, Starts(START_ORDER, r.installed), Starts(r.instances(1), ShouldStart), true);
    FollowsThen(before, reloaded, host.actions, [Reload], Starts(START_ORDER, r.installed) + Starts(r.instances(1), ShouldStart), true);
  }

  // ------------------------------------------------------------------ the whole run

  /** What the preflight established about the extraction pass: no Roundcube payload surprises it. */
  ghost predicate Covered(lib: Library, m: Manifest, items: seq<Item>) {
    match ExtractAll(lib, m, items)
    case Failed(f) => f != UnexpectedMySQL && f != UnexpectedSQLite
    case Extracting(w) => (MySQLFile in w.files <==> m.mysql.Some?) && (SQLiteFile in w.files <==> m.sqlitePath != "")
  }

  /** The panel dump and every Roundcube payload the manifest declares were extracted. */
  predicate Complete(m: Manifest, work: Work) {
    && PostgresFile in work.files
    && (m.sqlitePath != "" ==> SQLiteFile in work.files) && (m.mysql.Some? ==> MySQLFile in work.files)
  }

  /** The entries can all be extracted and are complete, and every tenant dump names a database. */
  predicate Restorable(r: Request, m: Manifest, items: seq<Item>) {
    var work := ExtractAll(r.lib, m, items);
    work.Extracting? && Complete(m, work.work) && forall name :: name in Dumps(items) ==> r.databaseName(name)
  }

  function FpmActive(r: Request, m: Manifest): bool {
    UsesRoundcube(m) && r.fpm == Some(true)
  }

  /** The databases, then the services. */
  function RecoveryPlan(r: Request, m: Manifest, items: seq<Item>, hook: bool): seq<Action> {
    DatabasePlan(Dumps(items), m.sqlitePath != "", m.mysql.Some?, FpmActive(r, m), hook) + ServicePlan(r)
  }

  /** Everything after the preflight. */
  function MutationPlan(r: Request, m: Manifest, items: seq<Item>, hook: bool): seq<Action> {
    StopPlan(FpmActive(r, m), r.instances(0)) + (ExtractPlan(items) + RecoveryPlan(r, m, items, hook))
  }

  method Recover(host: Host, r: Request, m: Manifest, ghost items: seq<Item>, work: Work, dumps: seq<string>)
    returns (error: Option<Error>)
    requires host.Valid() && Balanced(host.trace) && dumps == Dumps(items)
    requires (MySQLFile in work.files <==> m.mysql.Some?) && (SQLiteFile in work.files <==> m.sqlitePath != "")
    modifies host
    ensures host.Valid() && (error.None? ==> Recovered(host.trace, host.hook))
    ensures host.Followed(old(host.actions), old(host.unfailed), RecoveryPlan(r, m, items, host.hook), error.None?)
    ensures Tells(forall k :: host.fate(k), NamesVerdict(r.databaseName, dumps), error)
  {
    var sqlite, mysql, fpmActive := SQLiteFile in work.files, MySQLFile in work.files, FpmActive(r, m);
    ghost var plan := DatabasePlan(dumps, sqlite, mysql, fpmActive, host.hook);
    error := RestoreDatabases(host, r.databaseName, dumps, sqlite, mysql, fpmActive);
    if error.Some? {
      FollowsPart(old(host.actions), host.actions, plan, plan + ServicePlan(r));
      return;
    }
    ghost var middle := host.actions;
    var ok := StartServices(host, r);
    FollowsThen(old(host.actions), middle, host.actions, plan, ServicePlan(r), ok);
    error := if ok then None else Some(CommandFailed);
  }

  /** The first payload that is missing after the loop. */
  function Missing(m: Manifest, work: Work): Option<Error> {
    if PostgresFile !in work.files then Some(NoPostgres)
    else if m.sqlitePath != "" && SQLiteFile !in work.files then Some(NoSQLite)
    else if m.mysql.Some? && MySQLFile !in work.files then Some(NoMySQL)
    else None
  }

  /** What the end of a restore past its preflight says of the extraction pass: the first thing wrong with it. */
  function PassVerdict(r: Request, m: Manifest, opens: bool, items: seq<Item>, clean: bool, drained: bool): Option<Error> {
    if !opens then Some(NotOpened) else
    var extracted := ExtractVerdict(r.lib, m, items, clean, drained);
    if extracted.Some? then extracted else
    var missing := Missing(m, ExtractAll(r.lib, m, items).work);
    if missing.Some? then missing else NamesVerdict(r.databaseName, Dumps(items))
  }

  /** Extraction and the checks after it. */
  method ExtractComplete(host: Host, r: Request, m: Manifest, items: seq<Item>, clean: bool)
    returns (error: Option<Error>, work: Work, dumps: seq<string>)
    requires host.Valid() && Reached(host.trace, Authenticate) && NoDatabases(host.trace)
    modifies host
    ensures host.Valid()
    ensures error.None? ==> host.Followed(old(host.actions), old(host.unfailed), ExtractPlan(items), true)
    ensures error.Some? ==> Follows(old(host.actions), host.actions, ExtractPlan(items), false)
    ensures error.Some? ==> Tells(forall k :: host.fate(k), PassVerdict(r, m, true, items, clean, host.drained), error)
    ensures error.None? ==> Balanced(host.trace) && ExtractVerdict(r.lib, m, items, clean, host.drained).None?
    ensures error.None? ==> ExtractAll(r.lib, m, items) == Extracting(work) && Missing(m, work).None? && dumps == Dumps(items)
  {
    error, work, dumps := Extract(host, r.lib, m, items, clean);
    if error.None? {
      error := Missing(m, work);
      BalancedStart(host.trace);
    }
  }

  /** Extraction and what follows it. */
  method ExtractAndRecover(host: Host, r: Request, m: Manifest, items: seq<Item>, clean: bool) returns (error: Option<Error>)
    requires host.Valid() && Reached(host.trace, Authenticate) && NoDatabases(host.trace)
    modifies host
    ensures host.Valid() && (error.None? ==> Recovered(host.trace, host.hook))
    ensures host.Followed(old(host.actions), old(host.unfailed), ExtractPlan(items) + RecoveryPlan(r, m, items, host.hook), error.None?)
    ensures Tells(forall k :: host.fate(k), PassVerdict(r, m, true, items, clean, host.drained), error)
  {
    ghost var recovery := RecoveryPlan(r, m, items, host.hook);
    var work, dumps;
    error, work, dumps := ExtractComplete(host, r, m, items, clean);
    if error.Some? {
      FollowsPart(old(host.actions), host.actions, ExtractPlan(items), ExtractPlan(items) + recovery);
      return;
    }
    ExtractedIsListed(r.lib, m, items);
    ghost var middle := host.actions;
    error := Recover(host, r, m, items, work, dumps);
    FollowsThen(old(host.actions), middle, host.actions, ExtractPlan(items), recovery, error.None?);
  }

  lemma BalancedStart(trace: seq<Event>)
    requires Reached(trace, Finish) && NoDatabases(trace)
    ensures Balanced(trace)
  {
  }

  /** Everything after the preflight, over the entries that the extraction pass yields if it opens. */
  method MutateOver(host: Host, r: Request, m: Manifest, opens: bool, items: seq<Item>, clean: bool) returns (error: Option<Error>)
    requires host.Valid() && Reached(host.trace, Authenticate) && NoDatabases(host.trace)
    modifies host
    ensures host.Valid() && (error.None? ==> Recovered(host.trace, host.hook))
    ensures host.Followed(old(host.actions), old(host.unfailed), MutationPlan(r, m, items, host.hook), error.None?)
    ensures Tells((forall k :: host.fate(k)) && r.workDir && r.opens(EXTRACTION_PASS),
                  PassVerdict(r, m, opens, items, clean, host.drained), error)
  {
    var ok := StopWorld(host, FpmActive(r, m), r.instances(0));
    if !ok || !r.workDir || !r.opens(EXTRACTION_PASS) || !opens {
      StoppedOnly(r, m, items, host.hook, old(host.actions), host.actions);
      return Some(if ok && r.workDir && r.opens(EXTRACTION_PASS) then NotOpened else CommandFailed);
    }
    ghost var stopped := host.actions;
    error := ExtractAndRecover(host, r, m, items, clean);
    StoppedThen(r, m, items, host.hook, old(host.actions), stopped, host.actions, error.None?);
  }

  /** Nothing after the stops was done. */
  lemma StoppedOnly(r: Request, m: Manifest, items: seq<Item>, hook: bool, a: seq<Action>, b: seq<Action>)
    requires Follows(a, b, StopPlan(FpmActive(r, m), r.instances(0)), false)
    ensures Follows(a, b, MutationPlan(r, m, items, hook), false)
  {
    FollowsPart(a, b, StopPlan(FpmActive(r, m), r.instances(0)), MutationPlan(r, m, items, hook));
  }

  lemma StoppedThen(r: Request, m: Manifest, items: seq<Item>, hook: bool, a: seq<Action>, b: seq<Action>, c: seq<Action>, done: bool)
    requires Follows(a, b, StopPlan(FpmActive(r, m), r.instances(0)), true)
    requires Follows(b, c, ExtractPlan(items) + RecoveryPlan(r, m, items, hook), done)
    ensures Follows(a, c, MutationPlan(r, m, items, hook), done)
  {
    FollowsThen(a, b, c, StopPlan(FpmActive(r, m), r.instances(0)), ExtractPlan(items) + RecoveryPlan(r, m, items, hook), done);
  }

  /** The verdict on what the extraction pass of a request reads. */
  function RunVerdict(r: Request, m: Manifest): Option<Error> {
    PassVerdict(r, m, Opens(ReadPass(r, EXTRACTION_PASS).1), Contents(r, EXTRACTION_PASS),
                TarOf(r, EXTRACTION_PASS).clean, Drained(r, EXTRACTION_PASS))
  }

  /** Everything after the preflight, whatever the extraction pass reads. */
  method Mutate(host: Host, r: Request, m: Manifest) returns (error: Option<Error>)
    requires host.Valid() && Reached(host.trace, Authenticate) && NoDatabases(host.trace)
    requires host.drained == Drained(r, EXTRACTION_PASS)
    modifies host
    ensures host.Valid() && (error.None? ==> Recovered(host.trace, host.hook))
    ensures host.Followed(old(host.actions), old(host.unfailed), MutationPlan(r, m, Contents(r, EXTRACTION_PASS), host.hook), error.None?)
    ensures Tells(NoFailures(host.fate, r), RunVerdict(r, m), error)
  {
    var opens := Opens(ReadPass(r, EXTRACTION_PASS).1);
    error := MutateOver(host, r, m, opens, Contents(r, EXTRACTION_PASS), TarOf(r, EXTRACTION_PASS).clean);
  }

  /** The extraction pass reads an archive to its end, with the panel dump and well-named tenant dumps. */
  predicate PassRestorable(r: Request, m: Manifest) {
    && Opens(ReadPass(r, EXTRACTION_PASS).1) && TarOf(r, EXTRACTION_PASS).clean && Drained(r, EXTRACTION_PASS)
    && Restorable(r, m, Contents(r, EXTRACTION_PASS))
  }

  /** Nothing is wrong with what extraction reads exactly when it is restorable. */
  lemma NothingWrong(r: Request, m: Manifest)
    ensures RunVerdict(r, m).None? <==> PassRestorable(r, m)
  {
  }

  /** The whole restore: the gates, the authentication, and what changes the machine. */
  function Plan(r: Request, hook: bool): seq<Action> {
    PreflightPlan() +
    if Declared(r).Some? then MutationPlan(r, Declared(r).value, Contents(r, EXTRACTION_PASS), hook) else []
  }

  /** The manifest is readable and what extraction then reads is restorable. */
  predicate Recoverable(r: Request) {
    Declared(r).Some? && PassRestorable(r, Declared(r).value)
  }

  /** The integrity pass saw the manifest that was read first, and extraction sees the bytes of the integrity pass. */
  predicate Steady(r: Request) {
    && ManifestOf(r, INTEGRITY_PASS) == Declared(r)
    && r.src(EXTRACTION_PASS) == r.src(INTEGRITY_PASS) && r.broken(EXTRACTION_PASS) == r.broken(INTEGRITY_PASS)
  }

  /** What the preflight establishes, and what it does for an extraction pass that reads the same bytes. */
  lemma AdmissibleCovers(r: Request)
    requires Consistent(r.lib) && Admissible(r)
    ensures Declared(r).Some?
    ensures Steady(r) ==>
      && Covered(r.lib, Declared(r).value, Contents(r, EXTRACTION_PASS))
      && TarOf(r, EXTRACTION_PASS).clean && Drained(r, EXTRACTION_PASS) && Opens(ReadPass(r, EXTRACTION_PASS).1)
  {
    assert GateOk(r, ManifestRead);
    if Steady(r) {
      PreflightCoversRoundcube(r.lib, Declared(r).value, Contents(r, INTEGRITY_PASS));
    }
  }

  /** A refused preflight leaves the rest of the plan undone. */
  lemma PreflightOnly(r: Request, hook: bool, actions: seq<Action>)
    requires Follows([], actions, PreflightPlan(), false)
    ensures Follows([], actions, Plan(r, hook), false)
  {
    FollowsPart([], actions, PreflightPlan(), Plan(r, hook));
  }

  lemma PreflightThen(r: Request, hook: bool, checked: seq<Action>, actions: seq<Action>, done: bool)
    requires Declared(r).Some? && Follows([], checked, PreflightPlan(), true)
    requires Follows(checked, actions, MutationPlan(r, Declared(r).value, Contents(r, EXTRACTION_PASS), hook), done)
    ensures Follows([], actions, Plan(r, hook), done)
  {
    FollowsThen([], checked, actions, PreflightPlan(),
                MutationPlan(r, Declared(r).value, Contents(r, EXTRACTION_PASS), hook), done);
  }

  /** A damaged archive or an unexpected Roundcube payload, met after the preflight. */
  predicate Surprise(error: Error) {
    error in {CorruptArchive, Unfinished, NotOpened, NoSQLite, NoMySQL, Refused(UnexpectedMySQL), Refused(UnexpectedSQLite)}
  }

  /** An extraction over covered entries of a clean, drained archive holds no surprise. */
  lemma CoveredVerdict(r: Request, m: Manifest, items: seq<Item>)
    requires Covered(r.lib, m, items)
    ensures var verdict := PassVerdict(r, m, true, items, true, true); verdict.Some? ==> !Surprise(verdict.value)
  {
  }

  /** When the passes agree, a passed preflight rules every surprise out. */
  lemma SteadyVerdict(r: Request)
    requires Consistent(r.lib) && Admissible(r)
    ensures Declared(r).Some?
    ensures Steady(r) && RunVerdict(r, Declared(r).value).Some? ==> !Surprise(RunVerdict(r, Declared(r).value).value)
  {
    AdmissibleCovers(r);
    if Steady(r) {
      CoveredVerdict(r, Declared(r).value, Contents(r, EXTRACTION_PASS));
    }
  }

  /** What a run that nothing outside disturbs ends in. */
  ghost function ExactEnd(r: Request): Option<Error> {
    if Admissible(r) && Declared(r).Some? then RunVerdict(r, Declared(r).value) else Some(GateRefused)
  }

  /** Everything a run has come to, beside the safety of its trace. */
  ghost predicate RunEnds(r: Request, fate: nat -> bool, hook: bool, error: Option<Error>,
                          trace: seq<Event>, actions: seq<Action>, unfailed: bool) {
    && Follows([], actions, Plan(r, hook), error.None?)
    && (if error == Some(GateRefused) then OnlyChecks(trace) && (NoFailures(fate, r) ==> ExactEnd(r) == error)
        else Admissible(r) && Tells(NoFailures(fate, r), ExactEnd(r), error))
    && (error.None? ==> unfailed && Recovered(trace, hook))
  }

  lemma RefusedRunEnds(r: Request, fate: nat -> bool, hook: bool, trace: seq<Event>, actions: seq<Action>, unfailed: bool)
    requires Follows([], actions, PreflightPlan(), false) && OnlyChecks(trace)
    requires !(NoFailures(fate, r) && Admissible(r))
    ensures RunEnds(r, fate, hook, Some(GateRefused), trace, actions, unfailed)
  {
    PreflightOnly(r, hook, actions);
  }

  lemma CheckedRunEnds(r: Request, fate: nat -> bool, hook: bool, error: Option<Error>,
                       trace: seq<Event>, checked: seq<Action>, actions: seq<Action>, unfailed: bool)
    requires Admissible(r) && Declared(r).Some?
    requires Follows([], checked, PreflightPlan(), true)
    requires Follows(checked, actions, MutationPlan(r, Declared(r).value, Contents(r, EXTRACTION_PASS), hook), error.None?)
    requires Tells(NoFailures(fate, r), RunVerdict(r, Declared(r).value), error)
    requires error.None? ==> unfailed && Recovered(trace, hook)
    ensures RunEnds(r, fate, hook, error, trace, actions, unfailed)
  {
    PreflightThen(r, hook, checked, actions, error.None?);
    NotRefused(r, Declared(r).value);
  }

  /** The verdict on an extraction pass is not about the preflight. */
  lemma NotRefused(r: Request, m: Manifest)
    ensures RunVerdict(r, m) != Some(GateRefused) && RunVerdict(r, m) != Some(CommandFailed)
  {
  }

  method Perform(host: Host, r: Request) returns (error: Option<Error>)
    requires Consistent(r.lib) && host.Valid() && host.trace == [] && host.actions == [] && host.unfailed
    requires host.drained == Drained(r, EXTRACTION_PASS)
    modifies host
    ensures host.Valid()
    ensures RunEnds(r, host.fate, host.hook, error, host.trace, host.actions, host.unfailed)
  {
    var ok := Preflight(host, r);
    if !ok {
      RefusedRunEnds(r, host.fate, host.hook, host.trace, host.actions, host.unfailed);
      return Some(GateRefused);
    }
    error := PerformChecked(host, r);
  }

  /** A run whose preflight passed. */
  method PerformChecked(host: Host, r: Request) returns (error: Option<Error>)
    requires Consistent(r.lib) && host.Valid() && Reached(host.trace, Authenticate) && NoDatabases(host.trace)
    requires host.Followed([], true, PreflightPlan(), true) && Admissible(r)
    requires host.drained == Drained(r, EXTRACTION_PASS)
    modifies host
    ensures host.Valid()
    ensures RunEnds(r, host.fate, host.hook, error, host.trace, host.actions, host.unfailed)
  {
    SteadyVerdict(r);
    ghost var checked := host.actions;
    error := Mutate(host, r, Declared(r).value);
    CheckedRunEnds(r, host.fate, host.hook, error, host.trace, checked, host.actions, host.unfailed);
  }

  /** A run that ended as the verdict has it ends well exactly when the archive allows it. */
  lemma VerdictSays(r: Request)
    requires Consistent(r.lib)
    ensures ExactEnd(r).None? <==> Admissible(r) && Recoverable(r)
    ensures ExactEnd(r) == Some(GateRefused) <==> !Admissible(r)
    ensures Steady(r) && ExactEnd(r).Some? ==> !Surprise(ExactEnd(r).value)
  {
    if Admissible(r) {
      SteadyVerdict(r);
      NothingWrong(r, Declared(r).value);
      NotRefused(r, Declared(r).value);
    }
  }

  /**
   RunRestore, whatever each opening of the archive yields.  In every run, whatever fails, each event is one the
   events before it allow, and the actions are an initial segment of one plan; Finish succeeds only when the bytes
   extracted drained cleanly.  A run past its preflight ends in the first thing that is wrong with what its
   extraction pass reads, or in an outside failure; so with no outside failure the verdict is its exact end, and
   success exactly when the archive is admissible and what extraction reads restorable.  A run whose extraction pass
   reads what the integrity pass read never ends in a surprise.  A run that succeeds carried out the whole plan.
   */
  method RunRestore(r: Request, fate: nat -> bool, hook: bool) returns (error: Option<Error>, trace: seq<Event>)
    requires Consistent(r.lib)
    ensures Safe(trace, hook)
    ensures Actions(trace) <= Plan(r, hook)
    ensures Has(trace, Finish) ==> Drained(r, EXTRACTION_PASS)
    ensures error == Some(GateRefused) ==> OnlyChecks(trace)
    ensures error != Some(GateRefused) ==> Admissible(r) && (error == ExactEnd(r) || error == Some(CommandFailed))
    ensures NoFailures(fate, r) ==> error == ExactEnd(r)
    ensures Steady(r) && error.Some? ==> !Surprise(error.value)
    ensures error.None? ==>
      && Actions(trace) == Plan(r, hook) && Succeeded(trace) && Recovered(trace, hook)
      && Admissible(r) && Recoverable(r)
  {
    var host := new Host(fate, hook, Drained(r, EXTRACTION_PASS));
    error := Perform(host, r);
    trace := host.trace;
    RunMeans(r, fate, hook, error, trace, host.actions, host.unfailed);
  }

  lemma RunMeans(r: Request, fate: nat -> bool, hook: bool, error: Option<Error>,
                 trace: seq<Event>, actions: seq<Action>, unfailed: bool)
    requires Consistent(r.lib) && RunEnds(r, fate, hook, error, trace, actions, unfailed)
    ensures actions <= Plan(r, hook) && (error.None? ==> actions == Plan(r, hook) && unfailed && Recovered(trace, hook))
    ensures error == Some(GateRefused) ==> OnlyChecks(trace)
    ensures error != Some(GateRefused) ==> Admissible(r) && (error == ExactEnd(r) || error == Some(CommandFailed))
    ensures NoFailures(fate, r) ==> error == ExactEnd(r)
    ensures Steady(r) && error.Some? ==> !Surprise(error.value)
    ensures error.None? ==> Admissible(r) && Recoverable(r)
  {
    VerdictSays(r);
    assert [] + Plan(r, hook) == Plan(r, hook);
  }

  /**
   No database is dropped unless the bytes that were extracted are, byte for byte, one finished archive under the
   key, whatever the passes before it read.
   */
  lemma DropNeedsArchive(r: Request, trace: seq<Event>, hook: bool, i: nat,
                         cipher: StreamFormat.Cipher, world: set<StreamFormat.Run>, table: StreamFormat.Table)
    returns (run: StreamFormat.Run)
    requires Safe(trace, hook) && (Has(trace, Finish) ==> Drained(r, EXTRACTION_PASS))
    requires i < |trace| && trace[i].action.Drop?
    requires Streams(r.lib, table) && Draining(r.lib) && StreamFormat.World(cipher, world, table)
    ensures run in world && run.finished && run.key.master == r.key
    ensures r.src(EXTRACTION_PASS) == StreamFormat.Encode(cipher, run)
    ensures ReadPass(r, EXTRACTION_PASS) == (StreamFormat.Plain(run), StreamFormat.EOF)
  {
    assert Allowed(trace[..i], trace[i].action, hook) && Has(trace[..i], Finish);
    var k :| 0 <= k < i && trace[..i][k] == Event(Finish, true);
    assert trace[k] == Event(Finish, true);
    run := StreamFormat.NoSplicing(cipher, world, table, r.key, r.src(EXTRACTION_PASS), r.broken(EXTRACTION_PASS));
  }
}
