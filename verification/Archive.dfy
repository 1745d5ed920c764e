/**
 The archive as an entry list: the manifest read, the integrity pass made before anything is touched,
 and the extraction pass made afterwards over the same entries.
 */
module Archive {
  import opened Bytes
  import opened Paths
  import opened Platform
  import StreamFormat

  const MANIFEST := "manifest.json"
  const USERS := "system/users.json"
  const POSTGRES_DUMP := "postgres/nakpanel.dump"
  const MARIA_PREFIX := "mariadb/"
  const TREE_PREFIX := "files/"
  const MYSQL_DUMP := "roundcube/mysql.sql.gz"
  const SQLITE_DUMP := "sqlite/roundcube.sqlite"
  const PACKAGE_CONFIG := "files/etc/dbconfig-common/roundcube.conf"
  /** The Roundcube configuration files that the integrity pass reads. */
  const CONFIGS := {"files/etc/roundcube/debian-db.php", "files/etc/roundcube/debian-db-roundcube.php",
                    "files/etc/roundcube/config.inc.php"}
  const PROTECTED := CONFIGS + {PACKAGE_CONFIG, MYSQL_DUMP}
  const CONFIG_LIMIT: nat := 65536
  const MANIFEST_LIMIT: nat := 0x10_0000
  const USERS_LIMIT: nat := 0x40_0000

  /** What the two passes distinguish about an entry name. */
  datatype Kind =
    | ManifestFile | UsersFile | MySQLDump | SQLiteDump | PostgresDump
    | MariaDump(base: string) | Tree(rel: string, role: Role) | Unknown
  datatype Role = PackageConfig | Config(base: string) | Plain

  function Classify(name: string): Kind {
    if name == MANIFEST then ManifestFile
    else if name == USERS then UsersFile
    else if name == MYSQL_DUMP then MySQLDump
    else if name == SQLITE_DUMP then SQLiteDump
    else if name == POSTGRES_DUMP then PostgresDump
    else if MARIA_PREFIX <= name then MariaDump(Base(name))
    else if TREE_PREFIX <= name then
      Tree(name[|TREE_PREFIX|..],
           if name == PACKAGE_CONFIG then PackageConfig else if name in CONFIGS then Config(Base(name)) else Plain)
    else Unknown
  }

  /** A tar entry: its header fields and content. */
  datatype Entry = Entry(name: string, regular: bool, uid: int, mode: bv12, data: Bytes)

  /** An entry as the two passes see it: its kind, and whether its name is another spelling of a protected name. */
  datatype Item = Item(kind: Kind, aliased: bool, entry: Entry)

  function ItemOf(e: Entry): Item {
    Item(Classify(e.name), Clean(e.name) in PROTECTED && Clean(e.name) != e.name, e)
  }

  function Items(entries: seq<Entry>): seq<Item> {
    seq(|entries|, i requires 0 <= i < |entries| => ItemOf(entries[i]))
  }

  /**
   What reading tar from gzip yields: the entries, and whether it ended without an error.  Without a clean end the
   content of the last entry may be cut short.
   */
  datatype Tar = Tar(entries: seq<Entry>, clean: bool)

  /**
   The stream reader, JSON, gzip, tar, PHP configuration parsing and the database validators, as the code calls
   them: `read` is what a key and a source deliver before the first error, and that error.  Over a stream that
   yields some bytes and then ends in some outcome, `untar` is what tar reads and `drains` is whether copying
   the rest of the decompressor to nowhere reports no error.
   */
  datatype Library = Library(
    read: (Bytes, Bytes, bool) -> (Bytes, StreamFormat.Outcome),
    first: Bytes -> Option<Manifest>,
    whole: Bytes -> Option<Manifest>,
    users: Bytes -> bool,
    untar: (Bytes, StreamFormat.Outcome) -> Tar,
    drains: (Bytes, StreamFormat.Outcome) -> bool,
    numbers: Numbers,
    configured: map<string, Bytes> -> Option<MySQL>,
    packaged: (Bytes, MySQL) -> bool,
    dumped: Bytes -> bool,
    quickCheck: Bytes -> bool)

  /** A document that unmarshals whole is also what a decoder reads first. */
  ghost predicate Consistent(lib: Library) {
    forall d: Bytes :: lib.whole(d).Some? ==> lib.first(d) == lib.whole(d)
  }

  /** The reader is that of the encrypted stream, where what opens is given by `table`. */
  ghost predicate Streams(lib: Library, table: StreamFormat.Table) {
    forall master, src, broken :: lib.read(master, src, broken) == StreamFormat.ReadStream(table, master, src, broken)
  }

  /** The decompressor reads on to the end of the stream below it and passes every error on. */
  ghost predicate Draining(lib: Library) {
    forall plain, outcome :: lib.drains(plain, outcome) ==> outcome == StreamFormat.EOF
  }

  function Limit(data: Bytes, n: nat): Bytes {
    data[..Min(n, |data|)]
  }

  predicate IsSQLitePath(path: string) {
    path in {"/var/lib/roundcube/roundcube.sqlite", "/var/lib/roundcube/db/roundcube",
             "/var/lib/dbconfig-common/sqlite3/roundcube/roundcube"}
  }

  // ------------------------------------------------------------------ ReadManifest

  function ReadManifest(lib: Library, items: seq<Item>): Option<Manifest> {
    if items == [] || items[0].kind != ManifestFile then None else
    match lib.first(Limit(items[0].entry.data, MANIFEST_LIMIT))
    case None => None
    case Some(m) => if m.format in {1, 2, 3} && ValidRoundcube(lib.numbers, m) then Some(m) else None
  }

  // ------------------------------------------------------------------ the integrity pass

  /** The variables of the integrity loop. */
  datatype Scan = Scan(manifest: Manifest, seen: bool, sqlite: Option<Bytes>, mysql: Option<Bytes>,
                       configs: map<string, Bytes>, package: Option<Bytes>)

  const START := Scan(Manifest(None, "", None, 0, [], false), false, None, None, map[], None)

  /** One iteration; None is a rejection.  Once MySQL is declared, aliases of protected names are rejected first. */
  function ScanItem(lib: Library, s: Scan, item: Item): Option<Scan> {
    if s.manifest.mysql.Some? && item.aliased then None else ScanKind(lib, s, item.kind, item.entry)
  }

  function ScanKind(lib: Library, s: Scan, kind: Kind, e: Entry): Option<Scan> {
    match kind
    case ManifestFile =>
      if s.seen then None else
      (match lib.whole(Limit(e.data, MANIFEST_LIMIT))
       case None => None
       case Some(m) => Some(s.(manifest := m, seen := true)))
    case MySQLDump =>
      if s.manifest.mysql.None? || s.mysql.Some? || !e.regular then None else Some(s.(mysql := Some(e.data)))
    case SQLiteDump =>
      if s.manifest.sqlitePath == "" || s.sqlite.Some? || !e.regular then None else Some(s.(sqlite := Some(e.data)))
    case Tree(_, role) => if s.manifest.mysql.Some? then ScanConfig(s, role, e) else Some(s)
    case _ => Some(s)
  }

  function ScanConfig(s: Scan, role: Role, e: Entry): Option<Scan> {
    var plain := e.regular && |e.data| <= CONFIG_LIMIT && e.uid == 0;
    match role
    case PackageConfig =>
      if s.package.None? && plain && e.mode & 0x3F == 0 then
        Some(s.(package := Some(Limit(e.data, CONFIG_LIMIT + 1))))
      else None
    case Config(base) =>
      if base !in s.configs && plain && e.mode & 0x12 == 0 then
        Some(s.(configs := s.configs[base := Limit(e.data, CONFIG_LIMIT + 1)]))
      else None
    case Plain => Some(s)
  }

  function ScanAll(lib: Library, items: seq<Item>): Option<Scan> {
    if items == [] then Some(START) else
    var n := |items| - 1;
    match ScanAll(lib, items[..n])
    case None => None
    case Some(s) => ScanItem(lib, s, items[n])
  }

  /** The checks made after the whole stream has been authenticated. */
  predicate Verdict(lib: Library, s: Scan) {
    && ValidRoundcube(lib.numbers, s.manifest)
    && (s.manifest.mysql.Some? ==>
          && s.mysql.Some? && lib.configured(s.configs) == s.manifest.mysql
          && lib.packaged(if s.package.Some? then s.package.value else [], s.manifest.mysql.value)
          && lib.dumped(s.mysql.value))
    && (s.manifest.sqlitePath != "" ==>
          && s.manifest.format == 2 && IsSQLitePath(s.manifest.sqlitePath)
          && s.sqlite.Some? && lib.quickCheck(s.sqlite.value))
  }

  predicate ItemsPass(lib: Library, items: seq<Item>) {
    var s := ScanAll(lib, items);
    s.Some? && Verdict(lib, s.value)
  }

  /** The stream reader accepted the key and the header. */
  predicate Opens(outcome: StreamFormat.Outcome) {
    outcome !in {StreamFormat.BadKey, StreamFormat.NotNKBK, StreamFormat.UnsupportedVersion}
  }

  /** What CheckArchiveIntegrity accepts: tar ends cleanly, its entries pass, and the rest of the stream drains. */
  predicate Passes(lib: Library, master: Bytes, src: Bytes, broken: bool) {
    var (plain, outcome) := lib.read(master, src, broken);
    var tar := lib.untar(plain, outcome);
    Opens(outcome) && tar.clean && lib.drains(plain, outcome) && ItemsPass(lib, Items(tar.entries))
  }

  /** `io` says whether the temporary file work for the i-th entry succeeds. */
  method CheckArchiveIntegrity(lib: Library, master: Bytes, src: Bytes, broken: bool, io: nat -> bool) returns (ok: bool)
    ensures ok ==> Passes(lib, master, src, broken)
    ensures (forall i :: io(i)) ==> (ok <==> Passes(lib, master, src, broken))
  {
    var (plain, outcome) := lib.read(master, src, broken);
    if !Opens(outcome) {
      return false;
    }
    var tar := lib.untar(plain, outcome);
    var s := ScanEntries(lib, Items(tar.entries), io);
    ok := s.Some? && tar.clean && lib.drains(plain, outcome) && Verdict(lib, s.value);
  }

  /** The loop over the entries. */
  method ScanEntries(lib: Library, items: seq<Item>, io: nat -> bool) returns (r: Option<Scan>)
    ensures r.Some? ==> ScanAll(lib, items) == r
    ensures r.None? && (forall i :: io(i)) ==> ScanAll(lib, items).None?
  {
    var s := START;
    for i := 0 to |items|
      invariant ScanAll(lib, items[..i]) == Some(s)
    {
      var next := ScanItem(lib, s, items[i]);
      assert items[..i + 1][..i] == items[..i];
      if next.None? {
        ScanRejects(lib, items, i + 1);
        return None;
      }
      if !io(i) {
        return None;
      }
      s := next.value;
    }
    assert items[..|items|] == items;
    return Some(s);
  }

  lemma {:induction false} ScanRejects(lib: Library, items: seq<Item>, n: nat)
    requires n <= |items| && ScanAll(lib, items[..n]).None?
    ensures ScanAll(lib, items).None?
    decreases |items|
  {
    if n < |items| {
      assert items[..|items| - 1][..n] == items[..n];
      ScanRejects(lib, items[..|items| - 1], n);
    } else {
      assert items[..n] == items;
    }
  }

  /** An archive that passes is, byte for byte, one finished archive of some writer, read to its last frame. */
  lemma PassedIsAuthentic(lib: Library, cipher: StreamFormat.Cipher, world: set<StreamFormat.Run>,
                          table: StreamFormat.Table, master: Bytes, src: Bytes, broken: bool)
    returns (run: StreamFormat.Run)
    requires StreamFormat.World(cipher, world, table) && Streams(lib, table) && Draining(lib)
    requires Passes(lib, master, src, broken)
    ensures run in world && run.finished && run.key.master == master && src == StreamFormat.Encode(cipher, run)
    ensures ItemsPass(lib, Items(lib.untar(StreamFormat.Plain(run), StreamFormat.EOF).entries))
  {
    run := StreamFormat.NoSplicing(cipher, world, table, master, src, broken);
  }

  // ------------------------------------------------------------------ the extraction pass

  datatype Failure = CorruptUsers | UnexpectedMySQL | UnexpectedSQLite | FileExists | BadMariaName | UnsafePath | UnexpectedEntry

  /** The files created in the work directory, each with O_EXCL. */
  datatype File = MySQLFile | SQLiteFile | PostgresFile | MariaFile(base: string)

  /** The variables of the extraction loop. */
  datatype Work = Work(files: set<File>, extracted: nat)

  datatype Extraction = Extracting(work: Work) | Failed(failure: Failure)

  function CreateFile(w: Work, file: File): Extraction {
    if file in w.files then Failed(FileExists) else Extracting(w.(files := w.files + {file}))
  }

  /** The installer's own platform identity, which no archive replaces. */
  predicate IsPlatformIdentity(rel: string) {
    Clean(rel) == "etc/nakpanel/platform.json"
  }

  predicate MariaName(base: string) {
    HasSuffix(base, ".sql.gz") && !Contains(base, "..")
  }

  /** No ".." component, and not the root directory itself. */
  predicate SafeTree(rel: string) {
    rel == "" || (".." !in Split(rel) && Clean(rel) != "")
  }

  function ExtractEntry(lib: Library, m: Manifest, w: Work, kind: Kind, e: Entry): Extraction {
    match kind
    case ManifestFile => Extracting(w)
    case UsersFile => if lib.users(Limit(e.data, USERS_LIMIT)) then Extracting(w) else Failed(CorruptUsers)
    case MySQLDump => if m.mysql.None? || MySQLFile in w.files then Failed(UnexpectedMySQL) else CreateFile(w, MySQLFile)
    case SQLiteDump => if m.sqlitePath == "" || SQLiteFile in w.files then Failed(UnexpectedSQLite) else CreateFile(w, SQLiteFile)
    case PostgresDump => CreateFile(w, PostgresFile)
    case MariaDump(base) => if MariaName(base) then CreateFile(w, MariaFile(base)) else Failed(BadMariaName)
    case Tree(rel, _) =>
      if IsPlatformIdentity(rel) then Extracting(w)
      else if SafeTree(rel) then Extracting(w.(extracted := w.extracted + 1)) else Failed(UnsafePath)
    case Unknown => Failed(UnexpectedEntry)
  }

  function ExtractAll(lib: Library, m: Manifest, items: seq<Item>): Extraction {
    if items == [] then Extracting(Work({}, 0)) else
    var n := |items| - 1;
    match ExtractAll(lib, m, items[..n])
    case Failed(f) => Failed(f)
    case Extracting(w) => ExtractEntry(lib, m, w, items[n].kind, items[n].entry)
  }

  /** Extraction only ever holds Roundcube payloads that the manifest declares. */
  lemma {:induction false} ExtractedIsListed(lib: Library, m: Manifest, items: seq<Item>)
    requires ExtractAll(lib, m, items).Extracting?
    ensures var files := ExtractAll(lib, m, items).work.files;
      (MySQLFile in files ==> m.mysql.Some?) && (SQLiteFile in files ==> m.sqlitePath != "")
  {
    if items == [] {
      assert ExtractAll(lib, m, items).work.files == {};
    } else {
      var n := |items| - 1;
      ExtractedIsListed(lib, m, items[..n]);
      var kind := items[n].kind;
      if kind != MySQLDump && kind != SQLiteDump {
        OtherEntry(lib, m, ExtractAll(lib, m, items[..n]).work, kind, items[n].entry);
      }
    }
  }

  // ------------------------------------------------------------------ agreement

  /** The scan's payload variables and the extraction's work files say the same. */
  predicate Matches(s: Scan, w: Work) {
    (s.mysql.Some? <==> MySQLFile in w.files) && (s.sqlite.Some? <==> SQLiteFile in w.files)
  }

  /** The manifest was read, and only payloads it declares are held. */
  predicate Listed(m: Manifest, s: Scan) {
    s.manifest == m && s.seen && (s.mysql.Some? ==> m.mysql.Some?) && (s.sqlite.Some? ==> m.sqlitePath != "")
  }

  /** Extraction of any other entry leaves the Roundcube payloads alone. */
  lemma OtherEntry(lib: Library, m: Manifest, w: Work, kind: Kind, e: Entry)
    requires kind != MySQLDump && kind != SQLiteDump
    ensures match ExtractEntry(lib, m, w, kind, e)
      case Failed(f) => f != UnexpectedMySQL && f != UnexpectedSQLite
      case Extracting(w') => (MySQLFile in w'.files <==> MySQLFile in w.files) && (SQLiteFile in w'.files <==> SQLiteFile in w.files)
  {
  }

  /** The scan of any other entry after the manifest leaves the Roundcube payloads and the manifest alone. */
  lemma OtherScan(lib: Library, s: Scan, s': Scan, kind: Kind, e: Entry)
    requires kind != MySQLDump && kind != SQLiteDump && s.seen && ScanKind(lib, s, kind, e) == Some(s')
    ensures s'.mysql == s.mysql && s'.sqlite == s.sqlite && s'.manifest == s.manifest && s'.seen
  {
  }

  /** One entry that the scan accepts after the manifest: extraction does not refuse its payload. */
  lemma StepAgrees(lib: Library, m: Manifest, s: Scan, s': Scan, w: Work, kind: Kind, e: Entry)
    requires Listed(m, s) && Matches(s, w) && ScanKind(lib, s, kind, e) == Some(s')
    ensures Listed(m, s')
    ensures match ExtractEntry(lib, m, w, kind, e)
      case Failed(f) => f != UnexpectedMySQL && f != UnexpectedSQLite
      case Extracting(w') => Matches(s', w')
  {
    if kind != MySQLDump && kind != SQLiteDump {
      OtherEntry(lib, m, w, kind, e);
      OtherScan(lib, s, s', kind, e);
    }
  }

  lemma StepListed(lib: Library, m: Manifest, s: Scan, s': Scan, kind: Kind, e: Entry)
    requires Listed(m, s) && ScanKind(lib, s, kind, e) == Some(s')
    ensures Listed(m, s')
  {
  }

  lemma {:induction false} PassesAgree(lib: Library, m: Manifest, items: seq<Item>)
    requires Consistent(lib) && ReadManifest(lib, items) == Some(m) && ScanAll(lib, items).Some?
    ensures Listed(m, ScanAll(lib, items).value)
    ensures match ExtractAll(lib, m, items)
      case Failed(f) => f != UnexpectedMySQL && f != UnexpectedSQLite
      case Extracting(w) => Matches(ScanAll(lib, items).value, w)
    decreases |items|
  {
    var n := |items| - 1;
    var init, kind, e := items[..n], items[n].kind, items[n].entry;
    if n == 0 {
      assert init == [] && kind == ManifestFile;
      assert ScanAll(lib, init) == Some(START) && ExtractAll(lib, m, init) == Extracting(Work({}, 0));
    } else {
      assert init[0] == items[0];
      PassesAgree(lib, m, init);
      var s, s' := ScanAll(lib, init).value, ScanAll(lib, items).value;
      StepListed(lib, m, s, s', kind, e);
      var before := ExtractAll(lib, m, init);
      if before.Extracting? {
        StepAgrees(lib, m, s, s', before.work, kind, e);
      }
    }
  }

  /**
   Preflight and extraction agree: after a manifest read and an integrity pass that accept, extraction
   over the same items can never meet an unlisted or duplicate Roundcube payload, and when it reaches
   the end it holds exactly the payloads the manifest declares.
   */
  lemma PreflightCoversRoundcube(lib: Library, m: Manifest, items: seq<Item>)
    requires Consistent(lib) && ReadManifest(lib, items) == Some(m) && ItemsPass(lib, items)
    ensures match ExtractAll(lib, m, items)
      case Failed(f) => f != UnexpectedMySQL && f != UnexpectedSQLite
      case Extracting(w) =>
        (MySQLFile in w.files <==> m.mysql.Some?) && (SQLiteFile in w.files <==> m.sqlitePath != "")
  {
    PassesAgree(lib, m, items);
  }

  // ------------------------------------------------------------------ what the preflight leaves to extraction

  /** The work file an entry is written to, if any. */
  function WorkFile(kind: Kind): Option<File> {
    match kind
    case MySQLDump => Some(MySQLFile)
    case SQLiteDump => Some(SQLiteFile)
    case PostgresDump => Some(PostgresFile)
    case MariaDump(base) => Some(MariaFile(base))
    case _ => None
  }

  /** Extraction accepts the entry on its own: a known name, a decodable users file, a safe path. */
  predicate Acceptable(lib: Library, kind: Kind, e: Entry) {
    match kind
    case UsersFile => lib.users(Limit(e.data, USERS_LIMIT))
    case MariaDump(base) => MariaName(base)
    case Tree(rel, _) => IsPlatformIdentity(rel) || SafeTree(rel)
    case Unknown => false
    case _ => true
  }

  function Kinds(items: seq<Item>): (kinds: seq<Kind>)
    ensures |kinds| == |items|
    ensures forall i :: 0 <= i < |kinds| ==> kinds[i] == items[i].kind
  {
    seq(|items|, i requires 0 <= i < |items| => items[i].kind)
  }

  ghost predicate DistinctFiles(kinds: seq<Kind>) {
    forall i, j :: 0 <= i < j < |kinds| && WorkFile(kinds[i]).Some? ==> WorkFile(kinds[i]) != WorkFile(kinds[j])
  }

  ghost predicate AllAcceptable(lib: Library, items: seq<Item>) {
    forall i :: 0 <= i < |items| ==> Acceptable(lib, items[i].kind, items[i].entry)
  }

  ghost predicate WritesFile(kinds: seq<Kind>, file: File) {
    exists i :: 0 <= i < |kinds| && WorkFile(kinds[i]) == Some(file)
  }

  /** Extraction of the last entry, once the items before it went through. */
  lemma ExtractStep(lib: Library, m: Manifest, w: Work, kind: Kind, e: Entry)
    requires var r := ExtractEntry(lib, m, w, kind, e); r.Failed? ==> r.failure !in {UnexpectedMySQL, UnexpectedSQLite}
    ensures var r := ExtractEntry(lib, m, w, kind, e);
      && (r.Extracting? <==> Acceptable(lib, kind, e) && (WorkFile(kind).Some? ==> WorkFile(kind).value !in w.files))
      && (r.Extracting? ==> r.work.files == w.files + if WorkFile(kind).Some? then {WorkFile(kind).value} else {})
  {
  }

  lemma FilesExtend(kinds: seq<Kind>, kind: Kind)
    ensures forall file :: WritesFile(kinds + [kind], file) <==> WritesFile(kinds, file) || WorkFile(kind) == Some(file)
    ensures DistinctFiles(kinds + [kind]) <==>
      (DistinctFiles(kinds) && (WorkFile(kind).Some? ==> !WritesFile(kinds, WorkFile(kind).value)))
  {
    var all := kinds + [kind];
    forall file ensures WritesFile(all, file) <==> WritesFile(kinds, file) || WorkFile(kind) == Some(file) {
      if WritesFile(kinds, file) {
        var i :| 0 <= i < |kinds| && WorkFile(kinds[i]) == Some(file);
        assert all[i] == kinds[i];
      }
      assert all[|kinds|] == kind;
    }
    if DistinctFiles(all) {
      forall i, j | 0 <= i < j < |kinds| && WorkFile(kinds[i]).Some? ensures WorkFile(kinds[i]) != WorkFile(kinds[j]) {
        assert all[i] == kinds[i] && all[j] == kinds[j];
      }
      forall i | 0 <= i < |kinds| && WorkFile(kinds[i]).Some? ensures WorkFile(kinds[i]) != WorkFile(kind) {
        assert all[i] == kinds[i] && all[|kinds|] == kind;
      }
    }
  }

  /** The items extraction accepts, each on its own and no two for one work file. */
  ghost predicate Extractable(lib: Library, items: seq<Item>) {
    AllAcceptable(lib, items) && DistinctFiles(Kinds(items))
  }

  ghost predicate FilesAre(files: set<File>, items: seq<Item>) {
    forall file :: file in files <==> WritesFile(Kinds(items), file)
  }

  lemma ExtractableStep(lib: Library, init: seq<Item>, last: Item)
    ensures Extractable(lib, init + [last]) <==>
      && Extractable(lib, init) && Acceptable(lib, last.kind, last.entry)
      && (WorkFile(last.kind).Some? ==> !WritesFile(Kinds(init), WorkFile(last.kind).value))
  {
    var items := init + [last];
    assert Kinds(items) == Kinds(init) + [last.kind];
    FilesExtend(Kinds(init), last.kind);
    if AllAcceptable(lib, items) {
      assert forall i :: 0 <= i < |init| ==> items[i] == init[i];
      assert items[|init|] == last;
    }
  }

  lemma FilesStep(files: set<File>, init: seq<Item>, last: Item)
    requires FilesAre(files, init)
    ensures FilesAre(files + if WorkFile(last.kind).Some? then {WorkFile(last.kind).value} else {}, init + [last])
  {
    assert Kinds(init + [last]) == Kinds(init) + [last.kind];
    FilesExtend(Kinds(init), last.kind);
  }

  /**
   Exactly which archives that pass the preflight still fail in the extraction loop, after services were
   stopped: those with an entry extraction does not accept, or with two items for one work file.
   */
  lemma {:induction false} ExtractionSucceedsIff(lib: Library, m: Manifest, items: seq<Item>)
    requires Consistent(lib) && ReadManifest(lib, items) == Some(m) && ScanAll(lib, items).Some?
    ensures ExtractAll(lib, m, items).Extracting? <==> Extractable(lib, items)
    ensures ExtractAll(lib, m, items).Extracting? ==> FilesAre(ExtractAll(lib, m, items).work.files, items)
    decreases |items|
  {
    var n := |items| - 1;
    var init, last := items[..n], items[n];
    assert items == init + [last];
    PassesAgree(lib, m, items);
    if n == 0 {
      assert init == [] && ExtractAll(lib, m, init) == Extracting(Work({}, 0));
      assert Kinds(init) == [];
    } else {
      assert init[0] == items[0];
      ExtractionSucceedsIff(lib, m, init);
    }
    ExtractionStep(lib, m, init, last);
  }

  /** What extraction makes of one more item. */
  lemma ExtractionStep(lib: Library, m: Manifest, init: seq<Item>, last: Item)
    requires ExtractAll(lib, m, init).Extracting? <==> Extractable(lib, init)
    requires ExtractAll(lib, m, init).Extracting? ==> FilesAre(ExtractAll(lib, m, init).work.files, init)
    requires var r := ExtractAll(lib, m, init + [last]); r.Failed? ==> r.failure !in {UnexpectedMySQL, UnexpectedSQLite}
    ensures ExtractAll(lib, m, init + [last]).Extracting? <==> Extractable(lib, init + [last])
    ensures ExtractAll(lib, m, init + [last]).Extracting? ==>
      FilesAre(ExtractAll(lib, m, init + [last]).work.files, init + [last])
  {
    assert (init + [last])[..|init|] == init;
    ExtractableStep(lib, init, last);
    var before := ExtractAll(lib, m, init);
    if before.Extracting? {
      ExtractStep(lib, m, before.work, last.kind, last.entry);
      FilesStep(before.work.files, init, last);
    }
  }

  lemma UnknownItemFails(lib: Library, m: Manifest, manifest: Item, stray: Item)
    requires manifest.kind == ManifestFile && stray.kind == Unknown
    requires var data := Limit(manifest.entry.data, MANIFEST_LIMIT); lib.first(data) == lib.whole(data) == Some(m)
    requires m.format == 1 && m.mysql.None? && m.sqlitePath == ""
    ensures var items := [manifest, stray];
      && ReadManifest(lib, items) == Some(m) && ItemsPass(lib, items)
      && ExtractAll(lib, m, items) == Failed(UnexpectedEntry)
  {
    assert [manifest, stray][..1] == [manifest] && [manifest][..0] == [];
    assert ScanAll(lib, [manifest]) == Some(START.(manifest := m, seen := true));
    assert ExtractAll(lib, m, [manifest]) == Extracting(Work({}, 0));
  }

  lemma StrayName()
    ensures Classify("notes.txt") == Unknown
  {
    assert "notes.txt"[0] == 'n';
  }

  /** A preflight that passes does not rule out a failing extraction: an entry under an unknown name is enough. */
  lemma PreflightMissesUnknownEntry(lib: Library, m: Manifest, data: Bytes)
    requires lib.first(data) == lib.whole(data) == Some(m) && |data| <= MANIFEST_LIMIT
    requires m.format == 1 && m.mysql.None? && m.sqlitePath == ""
    ensures var items := [ItemOf(Entry(MANIFEST, true, 0, 0, data)), ItemOf(Entry("notes.txt", true, 0, 0, []))];
      && ReadManifest(lib, items) == Some(m) && ItemsPass(lib, items)
      && ExtractAll(lib, m, items) == Failed(UnexpectedEntry)
  {
    var manifest, stray := ItemOf(Entry(MANIFEST, true, 0, 0, data)), ItemOf(Entry("notes.txt", true, 0, 0, []));
    StrayName();
    assert Limit(data, MANIFEST_LIMIT) == data;
    UnknownItemFails(lib, m, manifest, stray);
  }

  // ------------------------------------------------------------------ validated configuration is what gets extracted

  lemma {:induction false} ScanPrefix(lib: Library, items: seq<Item>, k: nat)
    requires k <= |items| && ScanAll(lib, items).Some?
    ensures ScanAll(lib, items[..k]).Some?
  {
    if ScanAll(lib, items[..k]).None? {
      ScanRejects(lib, items, k);
    }
  }

  ghost predicate Keeps(s: Scan, s': Scan) {
    forall base :: base in s.configs ==> base in s'.configs && s'.configs[base] == s.configs[base]
  }

  lemma StepKeeps(lib: Library, s: Scan, s': Scan, kind: Kind, e: Entry)
    requires ScanKind(lib, s, kind, e) == Some(s')
    ensures Keeps(s, s')
  {
  }

  /** A configuration file once recorded stays recorded with the same content. */
  lemma {:induction false} ConfigsKept(lib: Library, items: seq<Item>, k: nat)
    requires k <= |items| && ScanAll(lib, items).Some? && ScanAll(lib, items[..k]).Some?
    ensures Keeps(ScanAll(lib, items[..k]).value, ScanAll(lib, items).value)
    decreases |items|
  {
    if k < |items| {
      var n := |items| - 1;
      assert items[..n][..k] == items[..k];
      ConfigsKept(lib, items[..n], k);
      StepKeeps(lib, ScanAll(lib, items[..n]).value, ScanAll(lib, items).value, items[n].kind, items[n].entry);
    } else {
      assert items[..k] == items;
    }
  }

  lemma StepRecords(lib: Library, s: Scan, s': Scan, kind: Kind, e: Entry, base: string)
    requires ScanKind(lib, s, kind, e) == Some(s') && s.manifest.mysql.Some?
    requires kind.Tree? && kind.role == Config(base)
    ensures base !in s.configs && s'.configs == s.configs[base := Limit(e.data, CONFIG_LIMIT + 1)]
  {
  }

  /** The scan before and after the i-th entry of an accepted MySQL archive. */
  lemma ScanAt(lib: Library, m: Manifest, items: seq<Item>, i: nat) returns (s: Scan, s': Scan)
    requires Consistent(lib) && ReadManifest(lib, items) == Some(m) && 0 < i < |items| && ScanAll(lib, items).Some?
    ensures ScanAll(lib, items[..i]) == Some(s) && ScanAll(lib, items[..i + 1]) == Some(s')
    ensures s.manifest == m && ScanItem(lib, s, items[i]) == Some(s')
  {
    ScanPrefix(lib, items, i);
    ScanPrefix(lib, items, i + 1);
    assert items[..i + 1][..i] == items[..i] && items[..i][0] == items[0];
    PassesAgree(lib, m, items[..i]);
    s, s' := ScanAll(lib, items[..i]).value, ScanAll(lib, items[..i + 1]).value;
  }

  /** The entry at i is recorded under its base name when it is a configuration file, and is the first such entry. */
  lemma ConfigRecorded(lib: Library, m: Manifest, items: seq<Item>, i: nat, base: string)
    requires Consistent(lib) && ReadManifest(lib, items) == Some(m) && m.mysql.Some?
    requires 0 < i < |items| && ScanAll(lib, items).Some?
    requires items[i].kind.Tree? && items[i].kind.role == Config(base)
    ensures ScanAll(lib, items[..i]).Some? && base !in ScanAll(lib, items[..i]).value.configs
    ensures ScanAll(lib, items[..i + 1]).Some?
    ensures var configs := ScanAll(lib, items[..i + 1]).value.configs;
      base in configs && configs[base] == Limit(items[i].entry.data, CONFIG_LIMIT + 1)
  {
    var s, s' := ScanAt(lib, m, items, i);
    StepRecords(lib, s, s', items[i].kind, items[i].entry, base);
  }

  lemma ConfigStays(lib: Library, m: Manifest, items: seq<Item>, i: nat, j: nat, base: string)
    requires Consistent(lib) && ReadManifest(lib, items) == Some(m) && m.mysql.Some?
    requires 0 < i < j < |items| && ScanAll(lib, items).Some?
    requires items[i].kind.Tree? && items[i].kind.role == Config(base)
    ensures ScanAll(lib, items[..j]).Some? && base in ScanAll(lib, items[..j]).value.configs
  {
    ConfigRecorded(lib, m, items, i, base);
    ScanPrefix(lib, items, j);
    assert items[..j][..i + 1] == items[..i + 1];
    ConfigsKept(lib, items[..j], i + 1);
  }

  lemma ConfigOnce(lib: Library, m: Manifest, items: seq<Item>, i: nat, j: nat, base: string)
    requires Consistent(lib) && ReadManifest(lib, items) == Some(m) && m.mysql.Some?
    requires 0 < i < j < |items| && ScanAll(lib, items).Some?
    requires items[i].kind.Tree? && items[i].kind.role == Config(base)
    ensures items[j].kind != items[i].kind
  {
    if items[j].kind == items[i].kind {
      ConfigStays(lib, m, items, i, j, base);
      ConfigRecorded(lib, m, items, j, base);
    }
  }

  lemma CleanTree(rel: string)
    requires ".." !in Split(rel) && Clean(rel) != ""
    ensures Clean(TREE_PREFIX + rel) == TREE_PREFIX + Clean(rel)
  {
    CleanBelow("files", rel);
    assert TREE_PREFIX + rel == "files" + "/" + rel && TREE_PREFIX + Clean(rel) == "files" + "/" + Clean(rel);
  }

  /** A name that is not an alias and that cleans to a configuration file's name is that exact name. */
  lemma NotAliased(e: Entry, rel: string)
    requires e.name == TREE_PREFIX + rel && !ItemOf(e).aliased
    requires ".." !in Split(rel) && Clean(rel) != "" && TREE_PREFIX + Clean(rel) in CONFIGS
    ensures e.name == TREE_PREFIX + Clean(rel)
  {
    CleanTree(rel);
  }

  /**
   In an accepted MySQL archive, an entry whose cleaned name is that of a validated configuration file is the
   one entry of that exact name, and what was validated under it is its content.
   */
  lemma ValidatedConfigIsExtracted(lib: Library, m: Manifest, entries: seq<Entry>, i: nat, rel: string)
    requires Consistent(lib) && ReadManifest(lib, Items(entries)) == Some(m) && m.mysql.Some?
    requires ScanAll(lib, Items(entries)).Some?
    requires 0 < i < |entries| && entries[i].name == TREE_PREFIX + rel
    requires ".." !in Split(rel) && Clean(rel) != "" && TREE_PREFIX + Clean(rel) in CONFIGS
    ensures entries[i].name == TREE_PREFIX + Clean(rel)
    ensures forall j :: 0 < j < |entries| && entries[j].name == entries[i].name ==> j == i
    ensures var configs, base := ScanAll(lib, Items(entries)).value.configs, Base(entries[i].name);
      base in configs && configs[base] == Limit(entries[i].data, CONFIG_LIMIT + 1)
  {
    var items, name := Items(entries), entries[i].name;
    var base := Base(name);
    var s, s' := ScanAt(lib, m, items, i);
    NotAliased(entries[i], rel);
    ConfigKind(name);
    ConfigRecorded(lib, m, items, i, base);
    ConfigsKept(lib, items, i + 1);
    forall j | 0 < j < |entries| && entries[j].name == name ensures j == i {
      assert items[j].kind == items[i].kind;
      if i < j {
        ConfigOnce(lib, m, items, i, j, base);
      } else if j < i {
        ConfigOnce(lib, m, items, j, i, base);
      }
    }
  }

  lemma ConfigKind(name: string)
    requires name in CONFIGS
    ensures Classify(name).Tree? && Classify(name).role == Config(Base(name))
  {
    var a, b, c := "files/etc/roundcube/debian-db.php", "files/etc/roundcube/debian-db-roundcube.php",
                   "files/etc/roundcube/config.inc.php";
    assert name == a || name == b || name == c;
    assert name[..11] == "files/etc/r" by {
      assert a[..11] == "files/etc/r" && b[..11] == "files/etc/r" && c[..11] == "files/etc/r";
    }
    TreeKind(name);
  }

  lemma TreeKind(name: string)
    requires |name| >= 11 && name[..11] == "files/etc/r"
    ensures Classify(name).Tree? && name != PACKAGE_CONFIG
  {
    assert name[0] == name[..11][0] && name[10] == name[..11][10];
    assert TREE_PREFIX == name[..11][..6] && name[..11][..6] == name[..6];
    assert PACKAGE_CONFIG[10] == 'd';
  }
}
