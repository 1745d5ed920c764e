/**
 * The migration of legacy plaintext credentials into the encrypted secret store: one transaction over
 * job rows and mail settings, with an environment that may act, and a failure that may occur, at every statement.
 */
module SecretMigration {
  import opened Bytes

  // ----- Rows -----

  /** A JSON member the job arguments are decoded from. */
  datatype Text = Absent | Null | Text(text: string) | NotText
  datatype Number = NoNumber | Number(n: int) | NotNumber

  datatype Kind = CreateDatabase | OtherKind

  datatype State =
    | Completed | Cancelled | Discarded
    | Available | Pending | Retryable | Running | Scheduled
    | Unsupported

  datatype Job = Job(kind: Kind, state: State, password: Text, databaseId: Number, credentialRef: Text, rest: string)
  datatype Row = Row(id: int, job: Job)
  datatype Mail = Mail(host: string, password: string)
  datatype Name = Name(scope: string, name: string)
  datatype Tables = Tables(jobs: map<int, Job>, mail: Option<Mail>, secrets: map<Name, string>)

  const RELAY: Name := Name("mail", "smarthost")

  predicate Terminal(state: State) {
    state.Completed? || state.Cancelled? || state.Discarded?
  }

  predicate Active(state: State) {
    state.Available? || state.Pending? || state.Retryable? || state.Running? || state.Scheduled?
  }

  /** A job whose arguments still have a `password` member. */
  predicate Legacy(job: Job) {
    job.kind == CreateDatabase && !job.password.Absent?
  }

  predicate NoPlaintext(jobs: map<int, Job>) {
    forall id :: id in jobs ==> !Legacy(jobs[id])
  }

  function LegacyIds(jobs: map<int, Job>): set<int> {
    set id | id in jobs && Legacy(jobs[id])
  }

  lemma NoneLegacy(jobs: map<int, Job>)
    ensures LegacyIds(jobs) == {} <==> NoPlaintext(jobs)
  {
    var ids := LegacyIds(jobs);
    assert forall id :: id in ids <==> id in jobs && Legacy(jobs[id]);
    assert (forall id :: id !in ids) ==> ids == {};
  }

  /** The relay secret in `tables` is `password`. */
  predicate HoldsRelay(tables: Tables, password: string) {
    RELAY in tables.secrets && tables.secrets[RELAY] == password
  }

  // ----- The arguments of an active job -----

  datatype Payload = Payload(databaseId: int, password: string, credentialRef: string)

  function Unmarshal(job: Job): Option<Payload> {
    if job.password.NotText? || job.databaseId.NotNumber? || job.credentialRef.NotText? then None
    else Some(Payload(
      if job.databaseId.Number? then job.databaseId.n else 0,
      if job.password.Text? then job.password.text else "",
      if job.credentialRef.Text? then job.credentialRef.text else ""))
  }

  function Decimal(n: nat): (digits: string)
    ensures |digits| > 0
  {
    var last := [(n % 10) as char + '0'];
    if n < 10 then last else Decimal(n / 10) + last
  }

  lemma {:induction false} DecimalInjective(m: nat, n: nat)
    requires Decimal(m) == Decimal(n)
    ensures m == n
  {
    var x, y := Decimal(m), Decimal(n);
    assert x[|x| - 1] == (m % 10) as char + '0' && y[|y| - 1] == (n % 10) as char + '0';
    assert m % 10 == n % 10;
    assert m >= 10 ==> x[..|x| - 1] == Decimal(m / 10);
    assert n >= 10 ==> y[..|y| - 1] == Decimal(n / 10);
    if m >= 10 && n >= 10 {
      DecimalInjective(m / 10, n / 10);
    }
  }

  function Reference(databaseId: nat): string {
    "provision-" + Decimal(databaseId)
  }

  lemma ReferenceInjective(m: nat, n: nat)
    requires Reference(m) == Reference(n)
    ensures m == n
  {
    assert Reference(m)[10..] == Decimal(m) && Reference(n)[10..] == Decimal(n);
    DecimalInjective(m, n);
  }

  /** The conditions under which the credential of an active job can be moved. */
  predicate Movable(job: Job) {
    var p := Unmarshal(job);
    p.Some? && p.value.databaseId > 0 && p.value.password != ""
    && (p.value.credentialRef == "" || p.value.credentialRef == Reference(p.value.databaseId))
  }

  function DatabaseOf(job: Job): (id: nat)
    requires Movable(job)
  {
    Unmarshal(job).value.databaseId
  }

  function PasswordOf(job: Job): (password: string)
    requires Movable(job)
  {
    Unmarshal(job).value.password
  }

  function SecretOf(job: Job): Name
    requires Movable(job)
  {
    Name("database", Reference(DatabaseOf(job)))
  }

  // ----- What the transaction writes -----

  predicate Handled(job: Job) {
    Legacy(job) && (Terminal(job.state) || (Active(job.state) && Movable(job)))
  }

  predicate AllHandled(rows: seq<Row>) {
    forall i :: 0 <= i < |rows| ==> Handled(rows[i].job)
  }

  /** A handled job keeps everything but its password; an active one now names its stored secret. */
  function Scrubbed(job: Job): (scrubbed: Job)
    requires Handled(job)
    ensures !Legacy(scrubbed)
  {
    if Active(job.state) then job.(password := Absent, credentialRef := Text(Reference(DatabaseOf(job))))
    else job.(password := Absent)
  }

  function JobWrites(rows: seq<Row>): map<int, Job>
    requires AllHandled(rows)
  {
    if rows == [] then map[]
    else var n := |rows| - 1; JobWrites(rows[..n])[rows[n].id := Scrubbed(rows[n].job)]
  }

  function SecretWrites(rows: seq<Row>): map<Name, string>
    requires AllHandled(rows)
  {
    if rows == [] then map[] else
    var n := |rows| - 1;
    var before := SecretWrites(rows[..n]);
    if Active(rows[n].job.state) then before[SecretOf(rows[n].job) := PasswordOf(rows[n].job)] else before
  }

  /** The tables after the commit, from the tables just before it. */
  function Published(now: Tables, rows: seq<Row>, relayPassword: string): Tables
    requires AllHandled(rows)
  {
    Tables(now.jobs + JobWrites(rows),
           if relayPassword != "" && now.mail.Some? then Some(now.mail.value.(password := "")) else now.mail,
           now.secrets + SecretWrites(rows))
  }

  function ActiveCount(rows: seq<Row>): (n: nat)
    ensures n <= |rows|
  {
    if rows == [] then 0
    else ActiveCount(rows[..|rows| - 1]) + if Active(rows[|rows| - 1].job.state) then 1 else 0
  }

  predicate Ascending(rows: seq<Row>) {
    forall i, j :: 0 <= i < j < |rows| ==> rows[i].id < rows[j].id
  }

  /** The rows are those of the table. */
  predicate Present(rows: seq<Row>, jobs: map<int, Job>) {
    forall i :: 0 <= i < |rows| ==> rows[i].id in jobs && jobs[rows[i].id] == rows[i].job
  }

  predicate Selects(rows: seq<Row>, jobs: map<int, Job>) {
    Ascending(rows) && Present(rows, jobs)
    && (forall i :: 0 <= i < |rows| ==> Legacy(rows[i].job))
    && (forall id :: id in jobs && Legacy(jobs[id]) ==> Row(id, jobs[id]) in rows)
  }

  /** Every id written is that of a row, and none is left with plaintext. */
  lemma {:induction false} JobWritesKeys(rows: seq<Row>)
    requires AllHandled(rows)
    ensures forall id :: id in JobWrites(rows) ==> Written(rows, id) && !Legacy(JobWrites(rows)[id])
  {
    if rows == [] {
      assert JobWrites(rows) == map[];
    } else {
      var n := |rows| - 1;
      JobWritesKeys(rows[..n]);
      forall id | id in JobWrites(rows) ensures Written(rows, id) {
        if id == rows[n].id {
          assert rows[n].id == id;
        } else {
          assert id in JobWrites(rows[..n]) && Written(rows[..n], id);
          var i :| 0 <= i < n && rows[..n][i].id == id;
          assert rows[i].id == id;
        }
      }
    }
  }

  predicate Written(rows: seq<Row>, id: int) {
    exists i :: 0 <= i < |rows| && rows[i].id == id
  }

  /** Each row is written scrubbed. */
  lemma {:induction false} JobWritesContent(rows: seq<Row>, i: nat)
    requires AllHandled(rows) && Ascending(rows) && i < |rows|
    ensures rows[i].id in JobWrites(rows) && JobWrites(rows)[rows[i].id] == Scrubbed(rows[i].job)
  {
    var n := |rows| - 1;
    if i == n {
      assert JobWrites(rows) == JobWrites(rows[..n])[rows[n].id := Scrubbed(rows[n].job)];
    } else {
      assert rows[..n][i] == rows[i];
      JobWritesContent(rows[..n], i);
    }
  }

  // ----- What a commit means -----

  /**
   * A job is left with plaintext by the commit exactly when it is not one of the locked rows and has plaintext
   * already; the locked rows are scrubbed and nothing else in the job table changes.
   */
  lemma CommitScrubs(now: Tables, rows: seq<Row>, relayPassword: string)
    requires AllHandled(rows) && Ascending(rows) && Present(rows, now.jobs)
    ensures var after := Published(now, rows, relayPassword);
      && after.jobs.Keys == now.jobs.Keys
      && (forall i :: 0 <= i < |rows| ==> after.jobs[rows[i].id] == Scrubbed(rows[i].job))
      && (forall id :: id in now.jobs && Row(id, now.jobs[id]) !in rows ==> after.jobs[id] == now.jobs[id])
      && (forall id :: id in now.jobs ==> (Legacy(after.jobs[id]) <==> Legacy(now.jobs[id]) && Row(id, now.jobs[id]) !in rows))
  {
    JobWritesKeys(rows);
    forall i | 0 <= i < |rows| ensures rows[i].id in JobWrites(rows) && JobWrites(rows)[rows[i].id] == Scrubbed(rows[i].job) {
      JobWritesContent(rows, i);
    }
    var after := Published(now, rows, relayPassword);
    forall id | id in JobWrites(rows) ensures id in now.jobs && Row(id, now.jobs[id]) in rows {
      assert Written(rows, id);
      var i :| 0 <= i < |rows| && rows[i].id == id;
      assert rows[i] == Row(id, now.jobs[id]);
    }
    forall id | id in now.jobs && Row(id, now.jobs[id]) in rows ensures !Legacy(after.jobs[id]) {
      var i :| 0 <= i < |rows| && rows[i] == Row(id, now.jobs[id]);
      assert rows[i].id == id;
    }
  }

  /** Every plaintext removed from an active job can be read back from the store. */
  predicate Recoverable(rows: seq<Row>, secrets: map<Name, string>)
    requires AllHandled(rows)
  {
    forall i :: 0 <= i < |rows| && Active(rows[i].job.state) ==>
      SecretOf(rows[i].job) in secrets && secrets[SecretOf(rows[i].job)] == PasswordOf(rows[i].job)
  }

  /** Active jobs for one database agree on its password. */
  predicate Agreeing(rows: seq<Row>)
    requires AllHandled(rows)
  {
    forall i, j :: 0 <= i < j < |rows| ==>
      Active(rows[i].job.state) ==> Active(rows[j].job.state) ==>
      DatabaseOf(rows[i].job) == DatabaseOf(rows[j].job) ==> PasswordOf(rows[i].job) == PasswordOf(rows[j].job)
  }

  predicate DistinctDatabases(rows: seq<Row>)
    requires AllHandled(rows)
  {
    forall i, j :: 0 <= i < j < |rows| && Active(rows[i].job.state) && Active(rows[j].job.state)
      ==> DatabaseOf(rows[i].job) != DatabaseOf(rows[j].job)
  }

  /** The stored secret is that of the last active job for the database. */
  lemma {:induction false} LastWriter(rows: seq<Row>, i: nat) returns (j: nat)
    requires AllHandled(rows) && i < |rows| && Active(rows[i].job.state)
    ensures i <= j < |rows| && Active(rows[j].job.state) && SecretOf(rows[j].job) == SecretOf(rows[i].job)
    ensures SecretOf(rows[i].job) in SecretWrites(rows) && SecretWrites(rows)[SecretOf(rows[i].job)] == PasswordOf(rows[j].job)
  {
    var n := |rows| - 1;
    if Active(rows[n].job.state) && SecretOf(rows[n].job) == SecretOf(rows[i].job) {
      j := n;
    } else {
      j := LastWriter(rows[..n], i);
    }
  }

  /** No plaintext of an active job is lost exactly when the jobs for each database agree. */
  lemma RecoverableIffAgreeing(secrets: map<Name, string>, rows: seq<Row>)
    requires AllHandled(rows)
    ensures Recoverable(rows, secrets + SecretWrites(rows)) <==> Agreeing(rows)
    ensures DistinctDatabases(rows) ==> Recoverable(rows, secrets + SecretWrites(rows))
  {
    var after := secrets + SecretWrites(rows);
    forall i | 0 <= i < |rows| && Active(rows[i].job.state)
      ensures Agreeing(rows) ==> SecretOf(rows[i].job) in after && after[SecretOf(rows[i].job)] == PasswordOf(rows[i].job)
    {
      var j := LastWriter(rows, i);
      ReferenceInjective(DatabaseOf(rows[i].job), DatabaseOf(rows[j].job));
    }
  }

  lemma {:induction false} OnlyDatabaseSecrets(rows: seq<Row>)
    requires AllHandled(rows)
    ensures RELAY !in SecretWrites(rows)
  {
    if rows == [] {
    } else {
      OnlyDatabaseSecrets(rows[..|rows| - 1]);
      assert RELAY.scope[0] == 'm';
    }
  }

  // ----- The database and its environment -----

  /** How a statement ends: carried out, refused without effect, or carried out with the reply lost. */
  datatype Outcome = Done | Refused | Lost

  /** What the environment does before a statement, and how the statement then ends. */
  datatype Move = Move(next: Option<Tables>, outcome: Outcome)

  datatype Actor = Environment | SecretPut | Commit

  /** Everything that has happened to the committed tables. */
  datatype History = Start(tables: Tables) | Then(before: History, actor: Actor, after: Tables)

  function Now(h: History): Tables {
    match h
    case Start(tables) => tables
    case Then(_, _, after) => after
  }

  /** A secret stored outside the transaction leaves everything but the relay secret alone. */
  predicate Puts(before: Tables, after: Tables) {
    RELAY in after.secrets && after == before.(secrets := before.secrets[RELAY := after.secrets[RELAY]])
  }

  /** From `start` on, the migration itself has at most stored the relay secret. */
  predicate Uncommitted(h: History, start: Tables) {
    match h
    case Start(tables) => tables == start
    case Then(before, actor, after) =>
      Uncommitted(before, start) && (actor == Environment || (actor == SecretPut && Puts(Now(before), after)))
  }

  /** Since `earlier` only the environment has acted. */
  predicate Since(h: History, earlier: History) {
    h == earlier || (h.Then? && h.actor == Environment && Since(h.before, earlier))
  }

  /** The environment may change anything but the rows the transaction has locked. */
  function Interfere(now: Tables, next: Tables, jobs: set<int>, mail: bool, secrets: set<Name>): Tables {
    Tables((next.jobs - jobs) + (map id | id in now.jobs && id in jobs :: now.jobs[id]),
           if mail then now.mail else next.mail,
           (next.secrets - secrets) + (map name | name in now.secrets && name in secrets :: now.secrets[name]))
  }

  function Interfered(now: Tables, next: Option<Tables>, jobs: set<int>, mail: bool, secrets: set<Name>): Tables {
    if next.None? then now else Interfere(now, next.value, jobs, mail, secrets)
  }

  /** The environment leaves the statements from `first` on alone, and none of them fails. */
  ghost predicate Calm(moves: nat -> Move, first: nat, count: nat) {
    forall k: nat :: first <= k < first + count ==> moves(k) == Move(None, Done)
  }

  class Database {
    const moves: nat -> Move
    ghost const start: Tables
    var committed: Tables
    var clock: nat
    // The open transaction: its row locks and its uncommitted writes.
    var lockedJobs: set<int>
    var jobWrites: map<int, Job>
    var mailWrite: Option<Mail>
    var secretWrites: map<Name, string>
    // What happened, up to the read-back of the relay secret, up to the locking of the rows, and whether it ended in a commit.
    ghost var history: History
    ghost var verified: Option<History>
    ghost var locked: Option<History>
    ghost var closed: bool

    ghost predicate Traced()
      reads this`committed, this`history, this`verified, this`locked, this`closed
    {
      committed == Now(history) &&
      if closed then history.Then? && history.actor == Commit && Remembers(history.before, verified, locked, start)
      else Remembers(history, verified, locked, start)
    }

    ghost predicate Valid()
      reads this
    {
      Traced() && jobWrites.Keys <= lockedJobs
    }

    /** No transaction is open. */
    ghost predicate Idle()
      reads this
    {
      lockedJobs == {} && jobWrites == map[] && mailWrite == None && secretWrites == map[]
    }

    function View(): Tables
      reads this
    {
      Tables(committed.jobs + jobWrites, if mailWrite.Some? then mailWrite else committed.mail, committed.secrets + secretWrites)
    }

    constructor (tables: Tables, moves: nat -> Move)
      ensures Valid() && Idle() && start == committed == tables && this.moves == moves && clock == 0
      ensures verified == None && locked == None && !closed
    {
      this.moves, committed, clock := moves, tables, 0;
      start := tables;
      lockedJobs, jobWrites, mailWrite, secretWrites := {}, map[], None, map[];
      history, verified, locked, closed := Start(tables), None, None, false;
    }

    /** The environment moves, then the next statement takes effect or not. */
    method Tick() returns (outcome: Outcome)
      requires Traced() && !closed
      modifies this`committed, this`clock, this`history
      ensures Traced() && history == Then(old(history), Environment, committed)
      ensures clock == old(clock) + 1 && outcome == moves(old(clock)).outcome
      ensures committed == Interfered(old(committed), moves(old(clock)).next, lockedJobs, mailWrite.Some?, secretWrites.Keys)
    {
      var move := moves(clock);
      committed := Interfered(committed, move.next, lockedJobs, mailWrite.Some?, secretWrites.Keys);
      history, clock := Then(history, Environment, committed), clock + 1;
      outcome := move.outcome;
    }

    method Rollback()
      requires Valid()
      modifies this`lockedJobs, this`jobWrites, this`mailWrite, this`secretWrites
      ensures Valid() && Idle()
    {
      lockedJobs, jobWrites, mailWrite, secretWrites := {}, map[], None, map[];
    }

    /** Stores the relay credential outside any transaction. */
    method PutRelay(password: string) returns (ok: bool)
      requires Valid() && !closed && verified.None? && locked.None?
      modifies this`committed, this`clock, this`history
      ensures Valid()
      ensures clock == old(clock) + 1
      ensures Calm(moves, old(clock), 1) ==>
        ok && committed == old(committed).(secrets := old(committed).secrets[RELAY := password])
    {
      var outcome := Tick();
      ok := outcome.Done?;
      if !outcome.Refused? {
        committed := committed.(secrets := committed.secrets[RELAY := password]);
        history := Then(history, SecretPut, committed);
      }
    }
  }

  /** The two moments remembered lie in the past in this order, with nothing but the environment since. */
  ghost predicate Remembers(h: History, verified: Option<History>, locked: Option<History>, start: Tables) {
    && Uncommitted(h, start)
    && (verified.Some? ==> Since(if locked.Some? then locked.value else h, verified.value))
    && (locked.Some? ==> Since(h, locked.value))
  }

  /** Rows locked before the environment moved are as they were. */
  lemma LockedKept(now: Tables, next: Option<Tables>, jobs: set<int>, mail: bool, secrets: set<Name>, rows: seq<Row>)
    requires Present(rows, now.jobs) && forall i :: 0 <= i < |rows| ==> rows[i].id in jobs
    ensures Present(rows, Interfered(now, next, jobs, mail, secrets).jobs)
  {
  }

  // ----- The migration -----

  datatype Error =
    | ReadRelay | RelayWithoutHost | EncryptRelay | VerifyRelay | EmptyRelay | RelayDiffers
    | Begin | ListJobs | InvalidJob | UnsupportedState | EncryptJob | ScrubJob
    | ClearRelay | RelayChanged | CountRemaining | PlaintextRemains | CommitFailed

  datatype Result = Migrated(encrypted: nat, migrated: nat, scrubbed: nat) | Failed(error: Error)

  /** White space as Unicode defines it. */
  predicate Space(c: char) {
    '\t' <= c <= '\r' || c == ' ' || c == '\U{85}' || c == '\U{A0}' || c == '\U{1680}' || '\U{2000}' <= c <= '\U{200A}'
    || c == '\U{2028}' || c == '\U{2029}' || c == '\U{202F}' || c == '\U{205F}' || c == '\U{3000}'
  }

  predicate Blank(s: string) {
    forall i :: 0 <= i < |s| ==> Space(s[i])
  }

  function RelayOf(mail: Option<Mail>): Mail {
    if mail.Some? then mail.value else Mail("", "")
  }

  /** The relay credential can be brought into the store, or is there already. */
  predicate RelayMovable(t: Tables) {
    var relay := RelayOf(t.mail);
    if Blank(relay.host) then relay.password == ""
    else relay.password != "" || (RELAY in t.secrets && t.secrets[RELAY] != "")
  }

  /** The tables once the relay credential has been stored. */
  function RelayStored(t: Tables): Tables {
    var relay := RelayOf(t.mail);
    if Blank(relay.host) || relay.password == "" then t else t.(secrets := t.secrets[RELAY := relay.password])
  }

  /** The statements it takes to store and read back the relay credential. */
  function RelayCost(relay: Mail): nat {
    if Blank(relay.host) then 1 else if relay.password == "" then 2 else 3
  }

  predicate LegacyHandled(jobs: map<int, Job>) {
    forall id :: id in jobs && Legacy(jobs[id]) ==> Handled(jobs[id])
  }

  /** The relay credential is stored and read back before anything is scrubbed. */
  method MigrateRelay(db: Database) returns (error: Option<Error>, relay: Mail, encrypted: nat)
    requires db.Valid() && !db.closed && db.verified.None? && db.locked.None?
    modifies db`committed, db`clock, db`history, db`verified
    ensures db.Valid()
    ensures error != Some(CommitFailed)
    ensures error.None? ==> encrypted == if Blank(relay.host) then 0 else 1
    ensures error.None? && relay.password != "" ==>
      db.verified.Some? && HoldsRelay(Now(db.verified.value), relay.password)
    ensures error.None? ==> db.clock == old(db.clock) + RelayCost(relay)
    ensures Calm(db.moves, old(db.clock), 3) ==>
      && relay == RelayOf(old(db.committed).mail)
      && (error.None? <==> RelayMovable(old(db.committed)))
      && (error.None? ==> db.committed == RelayStored(old(db.committed)))
  {
    encrypted := 0;
    var outcome := db.Tick();
    relay := RelayOf(db.committed.mail);
    if !outcome.Done? {
      return Some(ReadRelay), relay, encrypted;
    }
    if Blank(relay.host) {
      error := if relay.password != "" then Some(RelayWithoutHost) else None;
      return;
    }
    if relay.password != "" {
      var ok := db.PutRelay(relay.password);
      if !ok {
        return Some(EncryptRelay), relay, encrypted;
      }
    }
    outcome := db.Tick();
    if !outcome.Done? || RELAY !in db.committed.secrets {
      return Some(VerifyRelay), relay, encrypted;
    }
    var verified := db.committed.secrets[RELAY];
    if verified == "" {
      return Some(EmptyRelay), relay, encrypted;
    }
    if relay.password != "" && verified != relay.password {
      return Some(RelayDiffers), relay, encrypted;
    }
    db.verified := Some(db.history);
    return None, relay, 1;
  }

  predicate Least(ids: set<int>, id: int) {
    id in ids && forall other :: other in ids ==> id <= other
  }

  lemma {:induction false} SmallestExists(ids: set<int>) returns (least: int)
    requires ids != {}
    ensures Least(ids, least)
  {
    assert (forall id :: id !in ids) ==> ids == {};
    var id :| id in ids;
    if ids == {id} {
      least := id;
    } else {
      assert ids - {id} != {};
      var rest := SmallestExists(ids - {id});
      least := if id < rest then id else rest;
      assert ids == (ids - {id}) + {id};
    }
  }

  function Smallest(ids: set<int>): (id: int)
    requires ids != {}
    ensures Least(ids, id)
  {
    assert exists id :: Least(ids, id) by {
      var _ := SmallestExists(ids);
    }
    var id :| Least(ids, id);
    id
  }

  /** The selected rows in the order of their ids. */
  function Ordered(jobs: map<int, Job>, ids: set<int>): seq<Row>
    requires ids <= jobs.Keys
  {
    if ids == {} then [] else
    var id := Smallest(ids);
    [Row(id, jobs[id])] + Ordered(jobs, ids - {id})
  }

  /** The rows of a set of ids. */
  ghost predicate Lists(rows: seq<Row>, jobs: map<int, Job>, ids: set<int>)
    requires ids <= jobs.Keys
  {
    && Ascending(rows) && Present(rows, jobs)
    && (forall i :: 0 <= i < |rows| ==> rows[i].id in ids)
    && (forall id :: id in ids ==> Row(id, jobs[id]) in rows)
  }

  lemma FirstRow(jobs: map<int, Job>, ids: set<int>, id: int, rest: seq<Row>)
    requires id in ids && ids <= jobs.Keys && Lists(rest, jobs, ids - {id})
    requires Least(ids, id)
    ensures Lists([Row(id, jobs[id])] + rest, jobs, ids)
  {
    var rows := [Row(id, jobs[id])] + rest;
    assert forall i :: 0 < i < |rows| ==> rows[i] == rest[i - 1];
    forall other | other in ids ensures Row(other, jobs[other]) in rows {
      if other == id {
        assert rows[0] == Row(id, jobs[id]);
      } else {
        assert Row(other, jobs[other]) in rest;
      }
    }
  }

  lemma {:induction false} OrderedContent(jobs: map<int, Job>, ids: set<int>)
    requires ids <= jobs.Keys
    ensures Lists(Ordered(jobs, ids), jobs, ids)
  {
    if ids == {} {
      assert Ordered(jobs, ids) == [];
    } else {
      var id := Smallest(ids);
      var rest := Ordered(jobs, ids - {id});
      OrderedContent(jobs, ids - {id});
      FirstRow(jobs, ids, id, rest);
    }
  }

  function LegacyRows(jobs: map<int, Job>): seq<Row> {
    Ordered(jobs, LegacyIds(jobs))
  }

  lemma LegacyRowsSelect(jobs: map<int, Job>)
    ensures Selects(LegacyRows(jobs), jobs)
  {
    OrderedContent(jobs, LegacyIds(jobs));
  }

  /** The transaction begins; the legacy rows are then read and locked in one statement. */
  method LockJobs(db: Database) returns (error: Option<Error>, rows: seq<Row>)
    requires db.Valid() && db.Idle() && !db.closed && db.locked.None?
    modifies db`committed, db`clock, db`history, db`lockedJobs, db`locked
    ensures db.Valid() && error != Some(CommitFailed)
    ensures error.None? ==> db.locked == Some(db.history) && rows == LegacyRows(db.committed.jobs)
    ensures error.None? ==> db.lockedJobs == LegacyIds(db.committed.jobs) && Lockable(rows) && Locks(db, rows)
    ensures error.None? ==> db.clock == old(db.clock) + 2
    ensures Calm(db.moves, old(db.clock), 2) ==> error.None? && db.committed == old(db.committed)
  {
    var outcome := db.Tick();
    if !outcome.Done? {
      return Some(Begin), [];
    }
    outcome := db.Tick();
    if !outcome.Done? {
      return Some(ListJobs), [];
    }
    rows := LegacyRows(db.committed.jobs);
    db.lockedJobs := LegacyIds(db.committed.jobs);
    db.locked := Some(db.history);
    LegacyRowsSelect(db.committed.jobs);
    return None, rows;
  }

  predicate Lockable(rows: seq<Row>) {
    Ascending(rows) && forall i :: 0 <= i < |rows| ==> Legacy(rows[i].job)
  }

  ghost predicate Locks(db: Database, rows: seq<Row>)
    reads db
  {
    Present(rows, db.committed.jobs) && forall i :: 0 <= i < |rows| ==> rows[i].id in db.lockedJobs
  }

  /** The transaction has handled the first `k` of the rows it locked. */
  ghost predicate Wrote(db: Database, rows: seq<Row>, k: nat)
    requires k <= |rows|
    reads db
  {
    Locks(db, rows) && AllHandled(rows[..k])
    && db.jobWrites == JobWrites(rows[..k]) && db.secretWrites == SecretWrites(rows[..k])
  }

  ghost predicate WroteAll(db: Database, rows: seq<Row>)
    reads db
  {
    Locks(db, rows) && AllHandled(rows) && db.jobWrites == JobWrites(rows) && db.secretWrites == SecretWrites(rows)
  }

  /** `UPDATE river_job ... WHERE id AND kind='create_database' AND args ? 'password'`. */
  method UpdateJob(db: Database, rows: seq<Row>, k: nat, reference: Option<string>) returns (ok: bool, affected: nat)
    requires db.Valid() && !db.closed && k < |rows| && Locks(db, rows) && Legacy(rows[k].job) && rows[k].id !in db.jobWrites
    modifies db`committed, db`clock, db`history, db`lockedJobs, db`jobWrites
    ensures db.Valid() && Locks(db, rows) && db.lockedJobs == old(db.lockedJobs) && db.clock == old(db.clock) + 1
    ensures Calm(db.moves, old(db.clock), 1) ==> ok && affected == 1 && db.committed == old(db.committed)
    ensures ok && affected == 1 ==> db.jobWrites == old(db.jobWrites)[rows[k].id := Rewritten(rows[k].job, reference)]
  {
    var id := rows[k].id;
    LockedKept(db.committed, db.moves(db.clock).next, db.lockedJobs, db.mailWrite.Some?, db.secretWrites.Keys, rows);
    var outcome := db.Tick();
    ok, affected := outcome.Done?, 0;
    var jobs := db.View().jobs;
    if ok && id in jobs && Legacy(jobs[id]) {
      db.jobWrites := db.jobWrites[id := Rewritten(jobs[id], reference)];
      db.lockedJobs := db.lockedJobs + {id};
      affected := 1;
    }
  }

  function Rewritten(job: Job, reference: Option<string>): Job {
    var bare := job.(password := Absent);
    if reference.Some? then bare.(credentialRef := Text(reference.value)) else bare
  }

  method PutSecretTx(db: Database, ghost rows: seq<Row>, name: Name, plaintext: string) returns (ok: bool)
    requires db.Valid() && !db.closed && Locks(db, rows)
    modifies db`committed, db`clock, db`history, db`secretWrites
    ensures db.Valid() && Locks(db, rows) && db.clock == old(db.clock) + 1
    ensures ok ==> db.secretWrites == old(db.secretWrites)[name := plaintext]
    ensures Calm(db.moves, old(db.clock), 1) ==> ok && db.committed == old(db.committed)
  {
    LockedKept(db.committed, db.moves(db.clock).next, db.lockedJobs, db.mailWrite.Some?, db.secretWrites.Keys, rows);
    var outcome := db.Tick();
    ok := outcome.Done?;
    if ok {
      db.secretWrites := db.secretWrites[name := plaintext];
    }
  }

  /** The statements it takes to handle a job. */
  function JobCost(job: Job): nat {
    if Active(job.state) then 2 else 1
  }

  function RowsCost(rows: seq<Row>): nat {
    if rows == [] then 0 else RowsCost(rows[..|rows| - 1]) + JobCost(rows[|rows| - 1].job)
  }

  lemma {:induction false} RowsCostPrefix(rows: seq<Row>, k: nat)
    requires k <= |rows|
    ensures RowsCost(rows[..k]) <= RowsCost(rows)
  {
    if k == |rows| {
      assert rows[..k] == rows;
    } else {
      assert rows[..|rows| - 1][..k] == rows[..k];
      RowsCostPrefix(rows[..|rows| - 1], k);
    }
  }

  /** What one more row adds to the counts. */
  lemma OneMoreRow(rows: seq<Row>, k: nat)
    requires k < |rows|
    ensures ActiveCount(rows[..k + 1]) == ActiveCount(rows[..k]) + if Active(rows[k].job.state) then 1 else 0
    ensures RowsCost(rows[..k + 1]) == RowsCost(rows[..k]) + JobCost(rows[k].job)
    ensures RowsCost(rows[..k]) + JobCost(rows[k].job) <= RowsCost(rows)
  {
    assert rows[..k + 1][..k] == rows[..k];
    RowsCostPrefix(rows, k + 1);
  }

  /** An active job's credential is checked and stored. */
  method StoreCredential(db: Database, rows: seq<Row>, k: nat) returns (error: Option<Error>)
    requires db.Valid() && !db.closed && k < |rows| && Locks(db, rows)
    modifies db`committed, db`clock, db`history, db`secretWrites
    ensures db.Valid() && Locks(db, rows) && error != Some(CommitFailed)
    ensures error.None? ==> Movable(rows[k].job) && db.clock == old(db.clock) + 1
    ensures error.None? ==> db.secretWrites == old(db.secretWrites)[SecretOf(rows[k].job) := PasswordOf(rows[k].job)]
    ensures Calm(db.moves, old(db.clock), 1) ==>
      db.committed == old(db.committed) && (Movable(rows[k].job) ==> error.None?)
  {
    var job := rows[k].job;
    if !Movable(job) {
      return Some(InvalidJob);
    }
    var stored := PutSecretTx(db, rows, SecretOf(job), PasswordOf(job));
    return if stored then None else Some(EncryptJob);
  }

  /** Handling one more row extends what the transaction writes. */
  lemma WritesGrow(rows: seq<Row>, k: nat)
    requires k < |rows| && AllHandled(rows[..k]) && Handled(rows[k].job)
    ensures AllHandled(rows[..k + 1])
    ensures JobWrites(rows[..k + 1]) == JobWrites(rows[..k])[rows[k].id := Scrubbed(rows[k].job)]
    ensures SecretWrites(rows[..k + 1]) ==
      if Active(rows[k].job.state) then SecretWrites(rows[..k])[SecretOf(rows[k].job) := PasswordOf(rows[k].job)]
      else SecretWrites(rows[..k])
  {
    assert rows[..k + 1][..k] == rows[..k];
  }

  /** The rows handled so far do not include the next one. */
  lemma NotYetWritten(rows: seq<Row>, k: nat)
    requires k < |rows| && Ascending(rows) && AllHandled(rows[..k])
    ensures rows[k].id !in JobWrites(rows[..k])
  {
    JobWritesKeys(rows[..k]);
  }

  /** One row of the loop: an active job's credential is stored, then its plaintext is removed. */
  method HandleJob(db: Database, rows: seq<Row>, k: nat) returns (error: Option<Error>)
    requires db.Valid() && !db.closed && k < |rows| && Ascending(rows) && Wrote(db, rows, k) && Legacy(rows[k].job)
    modifies db`committed, db`clock, db`history, db`lockedJobs, db`jobWrites, db`secretWrites
    ensures db.Valid() && db.lockedJobs == old(db.lockedJobs) && error != Some(CommitFailed)
    ensures error.None? ==> Wrote(db, rows, k + 1) && Handled(rows[k].job)
    ensures error.None? ==> db.clock == old(db.clock) + JobCost(rows[k].job)
    ensures Calm(db.moves, old(db.clock), JobCost(rows[k].job)) ==>
      db.committed == old(db.committed) && (Handled(rows[k].job) ==> error.None?)
  {
    var job, reference := rows[k].job, None;
    NotYetWritten(rows, k);
    if Active(job.state) {
      error := StoreCredential(db, rows, k);
      if error.Some? {
        return;
      }
      reference := Some(Reference(DatabaseOf(job)));
    } else if !Terminal(job.state) {
      return Some(UnsupportedState);
    }
    WritesGrow(rows, k);
    var ok, affected := UpdateJob(db, rows, k, reference);
    return if ok && affected == 1 then None else Some(ScrubJob);
  }

  method HandleJobs(db: Database, rows: seq<Row>) returns (error: Option<Error>, migrated: nat, scrubbed: nat)
    requires db.Valid() && !db.closed && Lockable(rows) && Locks(db, rows)
    requires db.jobWrites == map[] && db.secretWrites == map[]
    modifies db`committed, db`clock, db`history, db`lockedJobs, db`jobWrites, db`secretWrites
    ensures db.Valid() && db.lockedJobs == old(db.lockedJobs) && error != Some(CommitFailed)
    ensures error.None? ==> WroteAll(db, rows)
    ensures error.None? ==> migrated == ActiveCount(rows) && scrubbed == |rows| - ActiveCount(rows)
    ensures error.None? ==> db.clock == old(db.clock) + RowsCost(rows)
    ensures Calm(db.moves, old(db.clock), RowsCost(rows)) ==>
      db.committed == old(db.committed) && (AllHandled(rows) ==> error.None?)
  {
    migrated, scrubbed := 0, 0;
    for k := 0 to |rows|
      invariant db.Valid() && Wrote(db, rows, k)
      invariant db.lockedJobs == old(db.lockedJobs) && db.clock == old(db.clock) + RowsCost(rows[..k])
      invariant Calm(db.moves, old(db.clock), RowsCost(rows)) ==> db.committed == old(db.committed)
      invariant migrated == ActiveCount(rows[..k]) && scrubbed == k - ActiveCount(rows[..k])
    {
      OneMoreRow(rows, k);
      error := HandleJob(db, rows, k);
      if error.Some? {
        return;
      }
      if Active(rows[k].job.state) {
        migrated := migrated + 1;
      } else {
        scrubbed := scrubbed + 1;
      }
    }
    assert rows[..|rows|] == rows;
    error := None;
  }

  /** The relay row is cleared only while it still holds the password that was stored. */
  method ClearRelayRow(db: Database, ghost rows: seq<Row>, password: string) returns (error: Option<Error>)
    requires db.Valid() && !db.closed && Locks(db, rows) && db.mailWrite == None && password != ""
    modifies db`committed, db`clock, db`history, db`mailWrite
    ensures db.Valid() && Locks(db, rows) && error != Some(CommitFailed) && db.clock == old(db.clock) + 1
    ensures error.None? ==>
      db.committed.mail.Some? && db.committed.mail.value.password == password
      && db.mailWrite == Some(db.committed.mail.value.(password := ""))
    ensures Calm(db.moves, old(db.clock), 1) ==>
      db.committed == old(db.committed) && (RelayOf(db.committed.mail).password == password ==> error.None?)
  {
    LockedKept(db.committed, db.moves(db.clock).next, db.lockedJobs, db.mailWrite.Some?, db.secretWrites.Keys, rows);
    var outcome := db.Tick();
    if !outcome.Done? {
      return Some(ClearRelay);
    }
    var mail := db.committed.mail;
    if mail.None? || mail.value.password != password {
      return Some(RelayChanged);
    }
    db.mailWrite := Some(mail.value.(password := ""));
    return None;
  }

  /** Everything the transaction is about to publish. */
  ghost predicate Ready(db: Database, rows: seq<Row>, relayPassword: string)
    reads db
  {
    && WroteAll(db, rows)
    && (if relayPassword == "" then db.mailWrite.None?
        else db.committed.mail.Some? && db.committed.mail.value.password == relayPassword
             && db.mailWrite == Some(db.committed.mail.value.(password := "")))
  }

  /** The history ends in the commit; before it the environment makes its last move, after the final count. */
  ghost predicate Commits(h: History, rows: seq<Row>, relayPassword: string) {
    && AllHandled(rows)
    && h.Then? && h.actor == Commit && h.before.Then? && h.before.actor == Environment
    && NoPlaintext(Published(Now(h.before.before), rows, relayPassword).jobs)
    && var t := Now(h.before);
       && Present(rows, t.jobs) && h.after == Published(t, rows, relayPassword)
       && (relayPassword != "" ==> t.mail.Some? && t.mail.value.password == relayPassword)
  }

  /** The final count finds no plaintext in the transaction's view. */
  method CountRemainingJobs(db: Database, rows: seq<Row>, relayPassword: string) returns (error: Option<Error>)
    requires db.Valid() && !db.closed && Ready(db, rows, relayPassword)
    modifies db`committed, db`clock, db`history
    ensures db.Valid() && Ready(db, rows, relayPassword) && error != Some(CommitFailed) && db.clock == old(db.clock) + 1
    ensures error.None? ==> NoPlaintext(Published(db.committed, rows, relayPassword).jobs)
    ensures Calm(db.moves, old(db.clock), 1) && NoPlaintext(Published(old(db.committed), rows, relayPassword).jobs) ==>
      error.None? && db.committed == old(db.committed)
  {
    LockedKept(db.committed, db.moves(db.clock).next, db.lockedJobs, db.mailWrite.Some?, db.secretWrites.Keys, rows);
    var outcome := db.Tick();
    if !outcome.Done? {
      return Some(CountRemaining);
    }
    var jobs := db.View().jobs;
    NoneLegacy(jobs);
    if LegacyIds(jobs) != {} {
      return Some(PlaintextRemains);
    }
    return None;
  }

  /** The commit, whose reply may be lost. */
  method CommitWrites(db: Database, rows: seq<Row>, relayPassword: string) returns (ok: bool, ghost published: bool)
    requires db.Valid() && !db.closed && Ready(db, rows, relayPassword)
    requires NoPlaintext(Published(db.committed, rows, relayPassword).jobs)
    modifies db`committed, db`clock, db`history, db`closed
    ensures db.Valid() && db.closed == published
    ensures published <==> !db.moves(old(db.clock)).outcome.Refused?
    ensures ok <==> db.moves(old(db.clock)).outcome.Done?
    ensures published ==> Commits(db.history, rows, relayPassword)
    ensures published ==>
      Now(db.history.before) == Interfered(
        old(db.committed), db.moves(old(db.clock)).next, db.lockedJobs, relayPassword != "", SecretWrites(rows).Keys)
  {
    LockedKept(db.committed, db.moves(db.clock).next, db.lockedJobs, db.mailWrite.Some?, db.secretWrites.Keys, rows);
    var outcome := db.Tick();
    ok, published := outcome.Done?, !outcome.Refused?;
    if !outcome.Refused? {
      var next := db.View();
      assert next == Published(db.committed, rows, relayPassword);
      db.history := Then(db.history, Commit, next);
      db.committed, db.closed := next, true;
    }
  }

  /** The statements it takes to begin, lock and handle the rows, and clear the relay row. */
  function PrepareCost(rows: seq<Row>, relayPassword: string): nat {
    2 + RowsCost(rows) + ClearCost(relayPassword)
  }

  function ClearCost(relayPassword: string): nat {
    if relayPassword != "" then 1 else 0
  }

  /** The statements of the transaction before its final count. */
  method Prepare(db: Database, relayPassword: string) returns (error: Option<Error>, rows: seq<Row>, migrated: nat, scrubbed: nat)
    requires db.Valid() && db.Idle() && !db.closed && db.locked.None?
    modifies db`committed, db`clock, db`history, db`lockedJobs, db`jobWrites, db`secretWrites, db`mailWrite, db`locked
    ensures db.Valid() && error != Some(CommitFailed)
    ensures error.None? ==> db.locked.Some? && rows == LegacyRows(Now(db.locked.value).jobs)
    ensures error.None? ==> migrated == ActiveCount(rows) && scrubbed == |rows| - ActiveCount(rows)
    ensures error.None? ==> Ready(db, rows, relayPassword)
    ensures error.None? ==> db.clock == old(db.clock) + PrepareCost(rows, relayPassword)
    ensures Calm(db.moves, old(db.clock), 2) ==> rows == LegacyRows(old(db.committed).jobs)
    ensures Calm(db.moves, old(db.clock), PrepareCost(rows, relayPassword)) ==>
      && db.committed == old(db.committed) && db.lockedJobs == LegacyIds(db.committed.jobs)
      && (AllHandled(rows) && RelayOf(db.committed.mail).password == relayPassword ==> error.None?)
  {
    error, rows := LockJobs(db);
    migrated, scrubbed := 0, 0;
    if error.Some? {
      return;
    }
    error, migrated, scrubbed := HandleJobs(db, rows);
    if error.None? {
      error := ClearAnyRelay(db, rows, relayPassword);
    }
  }

  /** With no relay password there is nothing to clear. */
  method ClearAnyRelay(db: Database, ghost rows: seq<Row>, relayPassword: string) returns (error: Option<Error>)
    requires db.Valid() && !db.closed && WroteAll(db, rows) && db.mailWrite == None
    modifies db`committed, db`clock, db`history, db`mailWrite
    ensures db.Valid() && error != Some(CommitFailed)
    ensures error.None? ==> Ready(db, rows, relayPassword)
    ensures error.None? ==> db.clock == old(db.clock) + ClearCost(relayPassword)
    ensures Calm(db.moves, old(db.clock), ClearCost(relayPassword)) ==>
      db.committed == old(db.committed) && (RelayOf(db.committed.mail).password == relayPassword ==> error.None?)
  {
    error := None;
    if relayPassword != "" {
      error := ClearRelayRow(db, rows, relayPassword);
    }
  }

  /** All legacy jobs can be handled exactly when the selected rows can, and then publishing leaves no plaintext. */
  lemma SelectedHandled(now: Tables, relayPassword: string)
    ensures AllHandled(LegacyRows(now.jobs)) <==> LegacyHandled(now.jobs)
    ensures LegacyHandled(now.jobs) ==> NoPlaintext(Published(now, LegacyRows(now.jobs), relayPassword).jobs)
  {
    var rows := LegacyRows(now.jobs);
    LegacyRowsSelect(now.jobs);
    if AllHandled(rows) {
      CommitScrubs(now, rows, relayPassword);
      forall id | id in now.jobs && Legacy(now.jobs[id]) ensures Handled(now.jobs[id]) {
        var i :| 0 <= i < |rows| && rows[i] == Row(id, now.jobs[id]);
      }
    }
  }

  /** The count and the commit; `commitAt` is the commit statement, if it gets that far. */
  method CountAndCommit(db: Database, rows: seq<Row>, relayPassword: string)
    returns (error: Option<Error>, ghost published: bool, ghost commitAt: Option<nat>)
    requires db.Valid() && !db.closed && Ready(db, rows, relayPassword)
    modifies db`committed, db`clock, db`history, db`closed
    ensures db.Valid() && db.closed == published
    ensures published ==> Commits(db.history, rows, relayPassword)
    ensures published <==> commitAt.Some? && !db.moves(commitAt.value).outcome.Refused?
    ensures error.None? <==> commitAt.Some? && db.moves(commitAt.value).outcome.Done?
    ensures error == Some(CommitFailed) <==> commitAt.Some? && !db.moves(commitAt.value).outcome.Done?
    ensures commitAt.Some? ==> commitAt.value == old(db.clock) + 1
    ensures Calm(db.moves, old(db.clock), 1) && NoPlaintext(Published(old(db.committed), rows, relayPassword).jobs) ==>
      && commitAt.Some?
      && (published ==> Now(db.history.before) == Interfered(
            old(db.committed), db.moves(old(db.clock) + 1).next, db.lockedJobs, relayPassword != "", SecretWrites(rows).Keys))
  {
    published, commitAt := false, None;
    error := CountRemainingJobs(db, rows, relayPassword);
    if error.Some? {
      return;
    }
    commitAt := Some(db.clock);
    var ok;
    ok, published := CommitWrites(db, rows, relayPassword);
    error := if ok then None else Some(CommitFailed);
  }

  /** What a transaction that was calm until its commit statement found there. */
  ghost predicate CalmCommit(t: Tables, rows: seq<Row>, relayPassword: string, next: Option<Tables>, before: Tables) {
    && AllHandled(rows)
    && before == Interfered(t, next, LegacyIds(t.jobs), relayPassword != "", SecretWrites(rows).Keys)
  }

  /** The body of the transaction; `commitAt` is the commit statement, if it gets that far. */
  method Transact(db: Database, relayPassword: string)
    returns (error: Option<Error>, rows: seq<Row>, migrated: nat, scrubbed: nat, ghost published: bool, ghost commitAt: Option<nat>)
    requires db.Valid() && db.Idle() && !db.closed && db.locked.None?
    modifies db`committed, db`clock, db`history, db`lockedJobs, db`jobWrites, db`secretWrites, db`mailWrite, db`locked, db`closed
    ensures db.Valid() && db.closed == published
    ensures published ==> Commits(db.history, rows, relayPassword)
    ensures published ==> db.locked.Some? && rows == LegacyRows(Now(db.locked.value).jobs)
    ensures published <==> commitAt.Some? && !db.moves(commitAt.value).outcome.Refused?
    ensures error.None? <==> commitAt.Some? && db.moves(commitAt.value).outcome.Done?
    ensures error.None? ==> migrated == ActiveCount(rows) && scrubbed == |rows| - ActiveCount(rows)
    ensures error == Some(CommitFailed) <==> commitAt.Some? && !db.moves(commitAt.value).outcome.Done?
    ensures commitAt.Some? ==> commitAt.value == old(db.clock) + PrepareCost(rows, relayPassword) + 1
    ensures CalmTransaction(db.moves, old(db.clock), old(db.committed), relayPassword) ==>
      && rows == LegacyRows(old(db.committed).jobs)
      && (commitAt.Some? <==> AllHandled(rows))
      && (published ==> CalmCommit(old(db.committed), rows, relayPassword, db.moves(commitAt.value).next,
                                   Now(db.history.before)))
  {
    published, commitAt := false, None;
    SelectedHandled(db.committed, relayPassword);
    error, rows, migrated, scrubbed := Prepare(db, relayPassword);
    if error.None? {
      error, published, commitAt := CountAndCommit(db, rows, relayPassword);
    }
  }

  /** Nothing disturbs a transaction over `t` before its commit statement. */
  ghost predicate CalmTransaction(moves: nat -> Move, first: nat, t: Tables, relayPassword: string) {
    Calm(moves, first, PrepareCost(LegacyRows(t.jobs), relayPassword) + 1) && RelayOf(t.mail).password == relayPassword
  }

  /** A committed run: the relay it read, the moments of the read-back and of the locking, and the rows it handled. */
  datatype Commitment = Commitment(relay: Mail, verified: Option<History>, locked: History, rows: seq<Row>)

  /**
   * A committed run from `start`: the commit is the last thing that happened, the rows are exactly the legacy rows
   * of the table it locked, a final count found no plaintext, and a relay password was cleared only after the store
   * held it.
   */
  ghost predicate Committed(h: History, start: Tables, c: Commitment) {
    && Commits(h, c.rows, c.relay.password) && Uncommitted(h.before, start)
    && c.rows == LegacyRows(Now(c.locked).jobs) && Since(h.before, c.locked)
    && (c.relay.password != "" ==>
        c.verified.Some? && HoldsRelay(Now(c.verified.value), c.relay.password) && Since(c.locked, c.verified.value))
  }

  /** The commit statement of an undisturbed migration of `t`. */
  function CommitIndex(t: Tables): nat {
    var relay := RelayOf(t.mail);
    RelayCost(relay) + PrepareCost(LegacyRows(t.jobs), relay.password) + 1
  }

  /** The tables after a migration that was calm until its commit statement, at which the environment did `next`. */
  ghost predicate CalmOutcome(t: Tables, next: Option<Tables>, after: Tables) {
    var rows, password := LegacyRows(t.jobs), RelayOf(t.mail).password;
    && AllHandled(rows)
    && after == Published(
         Interfered(RelayStored(t), next, LegacyIds(t.jobs), password != "", SecretWrites(rows).Keys), rows, password)
  }

  /** All legacy jobs of `t` can be handled, and its relay credential moved. */
  predicate Migratable(t: Tables) {
    RelayMovable(t) && LegacyHandled(t.jobs)
  }

  lemma CalmIndex(moves: nat -> Move, t: Tables)
    ensures Calm(moves, 0, CommitIndex(t)) ==>
      Calm(moves, 0, 3) && CalmTransaction(moves, RelayCost(RelayOf(t.mail)), RelayStored(t), RelayOf(t.mail).password)
  {
    assert CommitIndex(t) >= 3;
  }

  /** The outcome of a calm run, from what its transaction found. */
  lemma CalmConcludes(t: Tables, rows: seq<Row>, next: Option<Tables>, before: Tables, after: Tables)
    requires AllHandled(rows)
    ensures rows == LegacyRows(t.jobs) && CalmCommit(RelayStored(t), rows, RelayOf(t.mail).password, next, before) ==>
      after == Published(before, rows, RelayOf(t.mail).password) ==> CalmOutcome(t, next, after)
  {
  }

  /** The transaction of a calm run starts with the jobs and the mail settings untouched. */
  lemma CalmStart(t: Tables)
    ensures RelayStored(t).jobs == t.jobs && RelayStored(t).mail == t.mail
    ensures AllHandled(LegacyRows(t.jobs)) <==> LegacyHandled(t.jobs)
  {
    SelectedHandled(t, "");
  }

  /**
   * Every run either publishes nothing of the transaction (each of its own events only stores the relay secret), or
   * ends in the one commit.  What the run reports and whether it has published is decided by how its commit
   * statement `commitAt` ends: a failed run has published exactly when that statement's reply was lost.
   */
  method MigrateLegacySecrets(db: Database) returns (result: Result, ghost published: Option<Commitment>, ghost commitAt: Option<nat>)
    requires db.Valid() && db.Idle() && !db.closed && db.verified.None? && db.locked.None? && db.clock == 0
    modifies db
    ensures db.Valid() && db.Idle() && db.closed == published.Some?
    ensures published.Some? ==> Committed(db.history, db.start, published.value)
    ensures published.Some? <==> commitAt.Some? && !db.moves(commitAt.value).outcome.Refused?
    ensures result.Migrated? <==> commitAt.Some? && db.moves(commitAt.value).outcome.Done?
    ensures commitAt.Some? && result.Failed? ==> result.error == CommitFailed
    ensures result.Migrated? ==> Counted(result, published.value)
    ensures Calm(db.moves, 0, CommitIndex(old(db.committed))) ==>
      && commitAt == (if Migratable(old(db.committed)) then Some(CommitIndex(old(db.committed))) else None)
      && (published.Some? ==> CalmOutcome(old(db.committed), db.moves(commitAt.value).next, db.committed))
  {
    published, commitAt := None, None;
    ghost var t := db.committed;
    CalmStart(t);
    CalmIndex(db.moves, t);
    var error, relay, credentials := MigrateRelay(db);
    if error.Some? {
      return Failed(error.value), published, commitAt;
    }
    result, published, commitAt := ScrubPlaintext(db, relay, credentials);
    if published.Some? {
      CalmConcludes(t, published.value.rows, db.moves(commitAt.value).next, Now(db.history.before), db.committed);
    }
  }

  /** The transaction, rolled back unless it commits. */
  method ScrubPlaintext(db: Database, relay: Mail, credentials: nat)
    returns (result: Result, ghost published: Option<Commitment>, ghost commitAt: Option<nat>)
    requires db.Valid() && db.Idle() && !db.closed && db.locked.None?
    requires relay.password != "" ==> db.verified.Some? && HoldsRelay(Now(db.verified.value), relay.password)
    requires credentials == if Blank(relay.host) then 0 else 1
    modifies db
    ensures db.Valid() && db.Idle() && db.closed == published.Some?
    ensures published.Some? ==> Committed(db.history, db.start, published.value) && published.value.relay == relay
    ensures published.Some? <==> commitAt.Some? && !db.moves(commitAt.value).outcome.Refused?
    ensures result.Migrated? <==> commitAt.Some? && db.moves(commitAt.value).outcome.Done?
    ensures commitAt.Some? && result.Failed? ==> result.error == CommitFailed
    ensures result.Migrated? ==> Counted(result, published.value)
    ensures CalmTransaction(db.moves, old(db.clock), old(db.committed), relay.password) ==>
      var rows := LegacyRows(old(db.committed).jobs);
      && commitAt == (if AllHandled(rows) then Some(old(db.clock) + PrepareCost(rows, relay.password) + 1) else None)
      && (published.Some? ==>
          published.value.rows == rows &&
          CalmCommit(old(db.committed), rows, relay.password, db.moves(commitAt.value).next, Now(db.history.before)))
  {
    var error, rows, migrated, scrubbed;
    ghost var done: bool;
    error, rows, migrated, scrubbed, done, commitAt := Transact(db, relay.password);
    result := if error.None? then Migrated(credentials + migrated, migrated, scrubbed) else Failed(error.value);
    published := if done then Some(Commitment(relay, db.verified, db.locked.value, rows)) else None;
    db.Rollback();
  }

  /** The counters are the numbers of rows handled, and of credentials brought into the store. */
  predicate Counted(result: Result, c: Commitment) {
    && result.Migrated?
    && result.migrated == ActiveCount(c.rows)
    && result.scrubbed == |c.rows| - ActiveCount(c.rows)
    && result.encrypted == ActiveCount(c.rows) + if Blank(c.relay.host) then 0 else 1
  }

  /** The migration of given tables, against any environment and any failures. */
  method RunMigration(tables: Tables, moves: nat -> Move)
    returns (result: Result, after: Tables, ghost history: History, ghost published: Option<Commitment>, ghost commitAt: Option<nat>)
    ensures after == Now(history)
    ensures published.None? ==> Uncommitted(history, tables)
    ensures published.Some? ==> Committed(history, tables, published.value)
    ensures published.Some? <==> commitAt.Some? && !moves(commitAt.value).outcome.Refused?
    ensures result.Migrated? <==> commitAt.Some? && moves(commitAt.value).outcome.Done?
    ensures result.Failed? ==> (published.Some? <==> commitAt.Some? && moves(commitAt.value).outcome.Lost?)
    ensures commitAt.Some? && result.Failed? ==> result.error == CommitFailed
    ensures result.Migrated? ==> Counted(result, published.value)
    ensures Calm(moves, 0, CommitIndex(tables)) ==>
      && commitAt == (if Migratable(tables) then Some(CommitIndex(tables)) else None)
      && (published.Some? ==> CalmOutcome(tables, moves(commitAt.value).next, after))
    ensures Calm(moves, 0, CommitIndex(tables)) ==>
      var commit := moves(CommitIndex(tables));
      && (result.Migrated? <==> Migratable(tables) && commit.outcome.Done?)
      && (Migratable(tables) && !commit.outcome.Refused? ==> CalmOutcome(tables, commit.next, after))
  {
    var db := new Database(tables, moves);
    result, published, commitAt := MigrateLegacySecrets(db);
    after, history := db.committed, db.history;
  }

  // ----- What a committed run has achieved -----

  /**
   * After the commit a job holds plaintext exactly when it is not one of the locked rows and held it just before,
   * that is, when the environment's last move, between the final count and the commit, wrote it there; every row the
   * run locked is scrubbed and everything else in the table is as it was.
   */
  lemma CommittedPlaintext(h: History, start: Tables, c: Commitment)
    requires Committed(h, start, c)
    ensures var late, after := Now(h.before).jobs, h.after.jobs;
      && after.Keys == late.Keys
      && (forall i :: 0 <= i < |c.rows| ==> after[c.rows[i].id] == Scrubbed(c.rows[i].job))
      && (forall id :: id in late && Row(id, late[id]) !in c.rows ==> after[id] == late[id])
      && (NoPlaintext(after) <==> forall id :: id in late && Legacy(late[id]) ==> Row(id, late[id]) in c.rows)
      && (Now(h.before.before).jobs == late ==> NoPlaintext(after))
  {
    LegacyRowsSelect(Now(c.locked).jobs);
    CommitScrubs(Now(h.before), c.rows, c.relay.password);
  }

  /**
   * The passwords taken out of active jobs are all in the store after the commit exactly when active jobs for the
   * same database agree on the password, and so whenever their database ids are distinct.
   */
  lemma CommittedSecrets(h: History, start: Tables, c: Commitment)
    requires Committed(h, start, c)
    ensures Recoverable(c.rows, h.after.secrets) <==> Agreeing(c.rows)
    ensures DistinctDatabases(c.rows) ==> Recoverable(c.rows, h.after.secrets)
  {
    RecoverableIffAgreeing(Now(h.before).secrets, c.rows);
  }

  /** What the store holds for the relay. */
  function RelayEntry(t: Tables): Option<string> {
    if RELAY in t.secrets then Some(t.secrets[RELAY]) else None
  }

  /** Since `earlier` the relay secret has been changed, and the last change did not write `password`. */
  predicate Displaced(h: History, earlier: History, password: string) {
    h != earlier && h.Then? &&
    if RelayEntry(h.after) == RelayEntry(Now(h.before)) then Displaced(h.before, earlier, password)
    else RelayEntry(h.after) != Some(password)
  }

  /** From a moment at which the store held the password: it holds it still unless it was displaced. */
  lemma {:induction false} HeldUnlessDisplaced(h: History, earlier: History, password: string)
    requires Since(h, earlier) && HoldsRelay(Now(earlier), password)
    ensures HoldsRelay(Now(h), password) <==> !Displaced(h, earlier, password)
  {
    if h == earlier {
      assert !Displaced(h, earlier, password);
    } else {
      HeldUnlessDisplaced(h.before, earlier, password);
    }
  }

  lemma {:induction false} SinceTransitive(h: History, middle: History, earlier: History)
    requires Since(h, middle) && Since(middle, earlier)
    ensures Since(h, earlier)
  {
    if h == middle {
      assert Since(h, earlier);
    } else {
      SinceTransitive(h.before, middle, earlier);
    }
  }

  /**
   * The relay password the commit clears is in the store after it exactly when it was there just before it, and that
   * is exactly when the last change made to the relay secret since the read-back, if any, wrote that password.
   */
  lemma CommittedRelay(h: History, start: Tables, c: Commitment)
    requires Committed(h, start, c) && c.relay.password != ""
    ensures HoldsRelay(h.after, c.relay.password) <==> HoldsRelay(Now(h.before), c.relay.password)
    ensures HoldsRelay(h.after, c.relay.password) <==> !Displaced(h.before, c.verified.value, c.relay.password)
    ensures var mail := Now(h.before).mail;
      mail.Some? && mail.value.password == c.relay.password && h.after.mail == Some(mail.value.(password := ""))
  {
    SinceTransitive(h.before, c.locked, c.verified.value);
    HeldUnlessDisplaced(h.before, c.verified.value, c.relay.password);
    OnlyDatabaseSecrets(c.rows);
  }

  // ----- Runs that do less than one would wish -----

  const NOTHING: Tables := Tables(map[], None, map[])
  const WAITING: Job := Job(CreateDatabase, Available, Text("a"), Number(7), Absent, "")
  const FINISHED: Job := Job(CreateDatabase, Completed, Text("a"), Number(7), Absent, "")

  /** Calm, except that at statement `at` the environment does `next` and the statement ends as `outcome` says. */
  function CalmBut(at: nat, next: Option<Tables>, outcome: Outcome): nat -> Move {
    (k: nat) => if k == at then Move(next, outcome) else Move(None, Done)
  }

  lemma NoRows()
    ensures LegacyIds(NOTHING.jobs) == {} && LegacyRows(NOTHING.jobs) == []
  {
    NoneLegacy(NOTHING.jobs);
  }

  /** A migration disturbed at nothing but its commit statement. */
  method CalmMigration(tables: Tables, at: nat, next: Option<Tables>, outcome: Outcome) returns (result: Result, after: Tables)
    requires Migratable(tables) && at == CommitIndex(tables)
    ensures result.Migrated? <==> outcome.Done?
    ensures !outcome.Done? ==> result == Failed(CommitFailed)
    ensures !outcome.Refused? ==> CalmOutcome(tables, next, after)
  {
    ghost var history, published, commitAt;
    result, after, history, published, commitAt := RunMigration(tables, CalmBut(at, next, outcome));
  }

  /** A job added between the final count and the commit keeps its plaintext. */
  method LatePlaintextSurvives() returns (result: Result, after: Tables)
    ensures result.Migrated? && !NoPlaintext(after.jobs)
  {
    NoRows();
    var late := NOTHING.(jobs := map[1 := WAITING]);
    result, after := CalmMigration(NOTHING, 4, Some(late), Done);
    assert after.jobs == Interfered(NOTHING, Some(late), {}, false, {}).jobs + map[];
    assert after.jobs[1] == WAITING && Legacy(WAITING);
  }

  /** What becomes of the relay secret when the environment writes it at the commit statement. */
  lemma DisplacedEntry(tables: Tables, other: Tables, after: Tables)
    requires LegacyIds(tables.jobs) == {} && LegacyRows(tables.jobs) == []
    requires CalmOutcome(tables, Some(other), after)
    ensures RelayEntry(after) == RelayEntry(other)
  {
    var rows: seq<Row> := [];
    assert SecretWrites(rows) == map[];
  }

  /** A relay secret written between the read-back and the commit displaces the password that is then cleared. */
  method DisplacedRelayIsLost() returns (result: Result, after: Tables)
    ensures result.Migrated? && after.mail == Some(Mail("h", "")) && !HoldsRelay(after, "a")
  {
    NoRows();
    var tables := NOTHING.(mail := Some(Mail("h", "a")));
    assert !Blank("h") by { assert !Space("h"[0]); }
    var other := tables.(secrets := map[RELAY := "b"]);
    result, after := CalmMigration(tables, 7, Some(other), Done);
    DisplacedEntry(tables, other, after);
  }

  lemma OneRow(job: Job)
    requires Handled(job)
    ensures LegacyIds(map[1 := job]) == {1} && LegacyRows(map[1 := job]) == [Row(1, job)]
    ensures var rows := [Row(1, job)];
      RowsCost(rows) == JobCost(job) && AllHandled(rows) && JobWrites(rows) == map[1 := Scrubbed(job)]
  {
    var jobs := map[1 := job];
    assert LegacyIds(jobs) == {1};
    assert Smallest({1}) == 1 && {1} - {1} == {};
    assert Ordered(jobs, {1}) == [Row(1, job)] + Ordered(jobs, {});
    var rows := [Row(1, job)];
    assert rows[..0] == [] && JobWrites([]) == map[];
    assert JobWrites(rows) == JobWrites(rows[..0])[1 := Scrubbed(job)];
  }

  /** A commit whose reply is lost is reported as a failure although the tables have changed. */
  method LostCommitReplyFails() returns (result: Result, after: Tables)
    ensures result == Failed(CommitFailed) && after.jobs == map[1 := FINISHED.(password := Absent)]
  {
    var tables := NOTHING.(jobs := map[1 := FINISHED]);
    OneRow(FINISHED);
    result, after := CalmMigration(tables, 5, None, Lost);
    assert after.jobs == tables.jobs + map[1 := Scrubbed(FINISHED)];
  }

  const RIVAL: Job := Job(CreateDatabase, Available, Text("b"), Number(7), Absent, "")

  lemma TwoRows()
    ensures Handled(WAITING) && Handled(RIVAL)
    ensures var jobs := map[1 := WAITING, 2 := RIVAL];
      LegacyIds(jobs) == {1, 2} && LegacyRows(jobs) == [Row(1, WAITING), Row(2, RIVAL)]
  {
    var jobs := map[1 := WAITING, 2 := RIVAL];
    assert LegacyIds(jobs) == {1, 2};
    assert Smallest({1, 2}) == 1 && {1, 2} - {1} == {2};
    assert Smallest({2}) == 2 && {2} - {2} == {};
    assert Ordered(jobs, {2}) == [Row(2, RIVAL)] + Ordered(jobs, {});
    assert Ordered(jobs, {1, 2}) == [Row(1, WAITING)] + Ordered(jobs, {2});
  }

  /** What the transaction over the two rows takes and writes. */
  lemma TwoRowsWrite()
    requires Handled(WAITING) && Handled(RIVAL)
    ensures var rows := [Row(1, WAITING), Row(2, RIVAL)];
      && RowsCost(rows) == 4 && AllHandled(rows)
      && SecretWrites(rows) == map[Name("database", Reference(7)) := "b"]
  {
    var rows := [Row(1, WAITING), Row(2, RIVAL)];
    assert rows[..1] == [Row(1, WAITING)] && rows[..1][..0] == [];
    assert SecretOf(WAITING) == SecretOf(RIVAL) == Name("database", Reference(7));
    assert SecretWrites(rows[..1]) == map[Name("database", Reference(7)) := "a"];
    assert RowsCost(rows[..1]) == 2;
  }

  /** A run over two active jobs for one database with different passwords: the first password is lost. */
  method SharedDatabaseLosesPassword() returns (result: Result, after: Tables)
    ensures result.Migrated? && NoPlaintext(after.jobs)
    ensures after.secrets == map[Name("database", Reference(7)) := "b"]
  {
    var tables := NOTHING.(jobs := map[1 := WAITING, 2 := RIVAL]);
    TwoRows();
    TwoRowsWrite();
    SelectedHandled(tables, "");
    result, after := CalmMigration(tables, 8, None, Done);
    assert after.secrets == map[] + SecretWrites([Row(1, WAITING), Row(2, RIVAL)]);
  }
}
