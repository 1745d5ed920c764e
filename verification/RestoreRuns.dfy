/** A restore that fails after its preflight passed: the archive is cut short between the integrity pass and extraction. */
module RestoreRuns {
  import opened Bytes
  import opened Platform
  import opened Archive
  import opened Restore
  import StreamFormat

  const HOST: Provenance := Provenance(
    "ubuntu", "26.04", "resolute", "amd64", "ubuntu-26.04-native", "8.5", [], [], true, None, false,
    "18", "18", "18", "11", "11", "11", "")

  const BARE: Manifest := Manifest(None, "", Some(HOST), 1, [], false)

  function TwoParts(): Numbers {
    (v: string) => [18, 0]
  }

  lemma SameNotOlder(v: string, parts: nat)
    requires v != "" && parts <= 2
    ensures NotOlder(TwoParts(), v, v, parts)
  {
    var n := TwoParts()(v);
    assert n[..parts] == n[..parts];
  }

  /** A host is compatible with the manifest of a backup of itself. */
  lemma SelfCompatible()
    ensures Compatible(TwoParts(), BARE, HOST)
  {
    SameNotOlder("18", 1);
    MariaNotOlder();
  }

  lemma MariaNotOlder()
    ensures NotOlder(TwoParts(), "11", "11", 2)
  {
    SameNotOlder("11", 2);
  }

  /** A backup that holds nothing but its manifest, and a library that reads it from any stream that ends well. */
  function Only(table: StreamFormat.Table): Library {
    var manifest := Entry(MANIFEST, true, 0, 0, []);
    Library(
      (master: Bytes, src: Bytes, broken: bool) => StreamFormat.ReadStream(table, master, src, broken),
      (d: Bytes) => Some(BARE), (d: Bytes) => Some(BARE), (d: Bytes) => true,
      (plain: Bytes, outcome: StreamFormat.Outcome) => Tar([manifest], outcome == StreamFormat.EOF),
      (plain: Bytes, outcome: StreamFormat.Outcome) => outcome == StreamFormat.EOF,
      TwoParts(), (files: map<string, Bytes>) => None, (d: Bytes, m: MySQL) => false, (d: Bytes) => false, (d: Bytes) => false)
  }

  /** The stream is `whole` until the extraction pass, which finds it cut. */
  function CutBetween(table: StreamFormat.Table, master: Bytes, whole: Bytes, cut: Bytes): Request {
    Request(Only(table), (pass: nat) => if pass == EXTRACTION_PASS then cut else whole, (pass: nat) => false, (i: nat) => true,
            true, master, true, (pass: nat) => true, SamePlatform, false, false, true,
            Some(HOST), None, true, true, None, 0, 0, false,
            (listing: nat) => [], (unit: string) => true, true, (name: string) => true)
  }

  lemma ManifestPasses(lib: Library, item: Item)
    requires item.kind == ManifestFile && lib.first == lib.whole
    requires var data := Limit(item.entry.data, MANIFEST_LIMIT); lib.whole(data) == Some(BARE)
    ensures ReadManifest(lib, [item]) == Some(BARE) && ItemsPass(lib, [item])
    ensures ExtractAll(lib, BARE, [item]) == Extracting(Work({}, 0))
  {
    assert [item][..0] == [];
  }

  lemma ManifestItem()
    ensures ItemOf(Entry(MANIFEST, true, 0, 0, [])).kind == ManifestFile
  {
  }

  /** What the passes of this request find. */
  lemma PassesFind(table: StreamFormat.Table, master: Bytes, whole: Bytes, cut: Bytes)
    requires StreamFormat.ReadStream(table, master, whole, false).1 == StreamFormat.EOF
    requires StreamFormat.ReadStream(table, master, cut, false).1 == StreamFormat.Truncated
    ensures var r := CutBetween(table, master, whole, cut);
      && Declared(r) == Some(BARE) && IntegrityPasses(r) && RunVerdict(r, BARE) == Some(CorruptArchive)
  {
    var r := CutBetween(table, master, whole, cut);
    var item := ItemOf(Entry(MANIFEST, true, 0, 0, []));
    ManifestItem();
    assert Contents(r, MANIFEST_PASS) == [item] && Contents(r, INTEGRITY_PASS) == [item] && Contents(r, EXTRACTION_PASS) == [item];
    ManifestPasses(r.lib, item);
  }

  /** The request of an operator with nothing to decide, on a host that answers everything. */
  predicate Ready(r: Request) {
    && r.root && |r.key| == StreamFormat.KEY_SIZE && r.given && r.opens(MANIFEST_PASS) && Declared(r) == Some(BARE)
    && r.mode == SamePlatform && !r.review && r.fingerprint && r.target == Some(HOST) && r.ready.None?
    && r.roundcubeTarget && r.mysqlTarget && r.archiveSchema == r.installedSchema == 0
  }

  lemma OtherGate(r: Request, gate: Gate)
    requires Ready(r) && gate != Compatibility
    ensures GateOk(r, gate)
  {
  }

  lemma CompatibilityGate(r: Request)
    requires Ready(r) && r.lib.numbers == TwoParts()
    ensures GateOk(r, Compatibility)
  {
    SelfCompatible();
  }

  lemma GatesHold(r: Request)
    requires Ready(r) && r.lib.numbers == TwoParts()
    ensures GatesOk(r)
  {
    forall gate: Gate ensures GateOk(r, gate) {
      if gate == Compatibility {
        CompatibilityGate(r);
      } else {
        OtherGate(r, gate);
      }
    }
  }

  /** An archive reads to its end, and an initial segment of it does not. */
  lemma WholeAndCut(cipher: StreamFormat.Cipher, run: StreamFormat.Run, n: nat)
    requires StreamFormat.WellFormed(run) && run.finished && n < |StreamFormat.Encode(cipher, run)|
    ensures var table, whole := StreamFormat.Ledger(cipher, [run]), StreamFormat.Encode(cipher, run);
      && StreamFormat.ReadStream(table, run.key.master, whole, false).1 == StreamFormat.EOF
      && StreamFormat.ReadStream(table, run.key.master, whole[..n], false).1 == StreamFormat.Truncated
  {
    var runs := [run];
    StreamFormat.LedgerIsIdeal(cipher, runs);
    var world, table := StreamFormat.Runs(runs), StreamFormat.Ledger(cipher, runs);
    assert run in world;
    StreamFormat.RoundTrip(cipher, world, table, run, [], false);
    assert StreamFormat.Encode(cipher, run) + [] == StreamFormat.Encode(cipher, run);
    StreamFormat.Truncation(cipher, world, table, run, n, false);
  }

  lemma LawfulLibrary(table: StreamFormat.Table)
    ensures Streams(Only(table), table) && Draining(Only(table)) && Consistent(Only(table))
  {
  }

  lemma BetweenAdmissible(table: StreamFormat.Table, master: Bytes, whole: Bytes, cut: Bytes)
    requires |master| == StreamFormat.KEY_SIZE
    requires Declared(CutBetween(table, master, whole, cut)) == Some(BARE) && IntegrityPasses(CutBetween(table, master, whole, cut))
    ensures Admissible(CutBetween(table, master, whole, cut))
  {
    GatesHold(CutBetween(table, master, whole, cut));
  }

  lemma Undisturbed(table: StreamFormat.Table, master: Bytes, whole: Bytes, cut: Bytes)
    ensures NoFailures((k: nat) => true, CutBetween(table, master, whole, cut))
  {
  }

  lemma EndOf(r: Request)
    requires Admissible(r) && Declared(r) == Some(BARE) && RunVerdict(r, BARE) == Some(CorruptArchive)
    ensures ExactEnd(r) == Some(CorruptArchive)
  {
  }

  /** The cut request passes its preflight, nothing outside disturbs it, and extraction finds a corrupt archive. */
  lemma CutVerdict(table: StreamFormat.Table, master: Bytes, whole: Bytes, cut: Bytes)
    requires StreamFormat.ReadStream(table, master, whole, false).1 == StreamFormat.EOF && |master| == StreamFormat.KEY_SIZE
    requires StreamFormat.ReadStream(table, master, cut, false).1 == StreamFormat.Truncated
    ensures var r := CutBetween(table, master, whole, cut);
      Admissible(r) && NoFailures((k: nat) => true, r) && ExactEnd(r) == Some(CorruptArchive)
  {
    PassesFind(table, master, whole, cut);
    BetweenAdmissible(table, master, whole, cut);
    Undisturbed(table, master, whole, cut);
    EndOf(CutBetween(table, master, whole, cut));
  }

  /**
   An archive is cut short, to any length, after the integrity pass has read it: the preflight passes and the restore
   ends on a corrupt archive.
   */
  method CutArchiveFails(cipher: StreamFormat.Cipher, run: StreamFormat.Run, n: nat)
    returns (r: Request, error: Option<Error>, trace: seq<Event>)
    requires StreamFormat.WellFormed(run) && run.finished && n < |StreamFormat.Encode(cipher, run)|
    requires |run.key.master| == StreamFormat.KEY_SIZE && |run.key.fileId| == StreamFormat.FILE_ID_SIZE
    ensures Streams(r.lib, StreamFormat.Ledger(cipher, [run])) && Draining(r.lib) && Admissible(r)
    ensures error == Some(CorruptArchive)
  {
    var table, whole := StreamFormat.Ledger(cipher, [run]), StreamFormat.Encode(cipher, run);
    r := CutBetween(table, run.key.master, whole, whole[..n]);
    WholeAndCut(cipher, run, n);
    LawfulLibrary(table);
    CutVerdict(table, run.key.master, whole, whole[..n]);
    error, trace := RunRestore(r, (k: nat) => true, false);
  }
}
