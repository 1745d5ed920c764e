/**
 The NKBK version 1 stream: its byte format, the ideal AEAD it is read against, and what a
 reader makes of an arbitrary byte string.  The imperative writer and reader are in Stream.dfy.
 */
module StreamFormat {
  import opened Bytes

  const CHUNK_SIZE: nat := 0x10_0000
  const TAG_SIZE: nat := 16
  const FRAME_SIZE: nat := 4
  const FILE_ID_SIZE: nat := 16
  const HEADER_SIZE: nat := 21
  const MAX_SEALED: nat := CHUNK_SIZE + TAG_SIZE
  const KEY_SIZE: nat := 32
  const COUNTERS: nat := 0x1_0000_0000_0000_0000
  const STREAM_VERSION: byte := 1
  const MAGIC: Bytes := [0x4E, 0x4B, 0x42, 0x4B]

  /** The per-file key: HKDF is ideal, so the key is the pair it is derived from. */
  datatype FileKey = FileKey(master: Bytes, fileId: Bytes)

  /** AES-GCM as a function of key, nonce, plaintext and associated data; only its length is fixed. */
  type Cipher = f: (FileKey, Bytes, Bytes, Bytes) -> Bytes |
      forall k: FileKey, n: Bytes, p: Bytes, a: Bytes :: |f(k, n, p, a)| == |p| + TAG_SIZE
    witness (k: FileKey, n: Bytes, p: Bytes, a: Bytes) => p + seq(TAG_SIZE, _ => 0)

  /** One `Seal` call of a writer. */
  datatype Seal = Seal(counter: nat, final: bool, chunk: Bytes)

  /** One `Open` call that succeeds. */
  datatype Slot = Slot(key: FileKey, nonce: Bytes, sealed: Bytes, ad: Bytes)

  /** The ideal AEAD: `Open` succeeds exactly on these slots and returns the plaintext stored there. */
  type Table = map<Slot, Bytes>

  /** What one writer accepted, cut into full chunks and a shorter tail, and whether it sealed that tail as final. */
  datatype Run = Run(key: FileKey, chunks: seq<Bytes>, tail: Bytes, finished: bool)

  // ------------------------------------------------------------------ nonces and frames

  /** The counter wraps at 64 bits: only its low 8 bytes reach the nonce. */
  function ChunkNonce(counter: nat, final: bool): (nonce: Bytes)
    ensures |nonce| == 12
  {
    [0, 0, 0] + ToBE(counter, 8) + [if final then 1 else 0]
  }

  lemma Pow256At4And8()
    ensures Pow256(4) == 0x1_0000_0000 && Pow256(8) == COUNTERS
  {
  }

  /** Below 2^64 the nonce determines both the counter and the final flag. */
  lemma ChunkNonceInjective(c1: nat, f1: bool, c2: nat, f2: bool)
    requires c1 < COUNTERS && c2 < COUNTERS
    ensures ChunkNonce(c1, f1) == ChunkNonce(c2, f2) <==> c1 == c2 && f1 == f2
  {
    var n1, n2 := ChunkNonce(c1, f1), ChunkNonce(c2, f2);
    assert n1[3..11] == ToBE(c1, 8) && n2[3..11] == ToBE(c2, 8);
    assert n1[11] == (if f1 then 1 else 0) && n2[11] == (if f2 then 1 else 0);
    Pow256At4And8();
    FromBEOfToBE(c1, 8);
    FromBEOfToBE(c2, 8);
  }

  function Header(fileId: Bytes): Bytes {
    MAGIC + [STREAM_VERSION] + fileId
  }

  function SlotOf(cipher: Cipher, key: FileKey, seal: Seal): (slot: Slot)
    ensures |slot.sealed| == |seal.chunk| + TAG_SIZE
  {
    var nonce, ad := ChunkNonce(seal.counter, seal.final), Header(key.fileId);
    Slot(key, nonce, cipher(key, nonce, seal.chunk, ad), ad)
  }

  /** The length prefix is cut to 32 bits. */
  function FrameOf(sealed: Bytes): (frame: Bytes)
    ensures |frame| == FRAME_SIZE + |sealed|
  {
    ToBE(|sealed| % 0x1_0000_0000, 4) + sealed
  }

  /** How a writer turns a chunk into stream bytes. */
  type Framer = f: Seal -> Bytes | forall s: Seal :: |f(s)| == FRAME_SIZE + |s.chunk| + TAG_SIZE
    witness (s: Seal) => seq(FRAME_SIZE + |s.chunk| + TAG_SIZE, _ => 0)

  function FramerOf(cipher: Cipher, key: FileKey): Framer {
    (seal: Seal) => FrameOf(SlotOf(cipher, key, seal).sealed)
  }

  // ------------------------------------------------------------------ what a writer seals

  /** The plaintext from the c-th chunk on. */
  function PlainFrom(run: Run, c: nat): Bytes
    requires c <= |run.chunks|
  {
    Flatten(run.chunks[c..]) + run.tail
  }

  function Plain(run: Run): Bytes {
    PlainFrom(run, 0)
  }

  ghost predicate Chunked(run: Run) {
    && |run.key.master| == KEY_SIZE && |run.key.fileId| == FILE_ID_SIZE
    && (forall i :: 0 <= i < |run.chunks| ==> |run.chunks[i]| == CHUNK_SIZE)
    && |run.tail| < CHUNK_SIZE
  }

  /** Chunks are cut at CHUNK_SIZE, and the 64-bit counter does not wrap. */
  ghost predicate WellFormed(run: Run) {
    Chunked(run) && |run.chunks| + 1 < COUNTERS
  }

  function Seals(run: Run): nat {
    |run.chunks| + if run.finished then 1 else 0
  }

  /** The i-th seal: it is final exactly when no full chunk is left. */
  function SealAt(run: Run, i: nat): Seal {
    if i < |run.chunks| then Seal(i, false, run.chunks[i]) else Seal(i, true, run.tail)
  }

  /** The `Seal` calls of a run, in order. */
  function SealsOf(run: Run): (seals: seq<Seal>)
    ensures |seals| == Seals(run)
    ensures forall i :: 0 <= i < |seals| ==> seals[i] == SealAt(run, i)
  {
    seq(Seals(run), i requires 0 <= i => SealAt(run, i))
  }

  function Frames(framer: Framer, seals: seq<Seal>): Bytes {
    if seals == [] then [] else framer(seals[0]) + Frames(framer, seals[1..])
  }

  /** The archive a run writes. */
  function Encode(cipher: Cipher, run: Run): Bytes {
    Header(run.key.fileId) + Frames(FramerOf(cipher, run.key), SealsOf(run))
  }

  lemma {:induction false} FramesAppend(framer: Framer, seals: seq<Seal>, seal: Seal)
    ensures Frames(framer, seals + [seal]) == Frames(framer, seals) + framer(seal)
  {
    if seals == [] {
      assert Frames(framer, [seal]) == framer(seal) + Frames(framer, []);
    } else {
      FramesAppend(framer, seals[1..], seal);
      assert (seals + [seal])[1..] == seals[1..] + [seal];
      ConcatAssociative(framer(seals[0]), Frames(framer, seals[1..]), framer(seal));
    }
  }

  /** The plaintext of a run is its first chunk and the plaintext of the rest. */
  lemma PlainFirst(run: Run)
    requires run.chunks != []
    ensures Plain(run) == run.chunks[0] + Plain(run.(chunks := run.chunks[1..]))
  {
    var rest := run.(chunks := run.chunks[1..]);
    assert run.chunks[0..] == run.chunks && rest.chunks[0..] == rest.chunks;
    ConcatAssociative(run.chunks[0], Flatten(rest.chunks), run.tail);
  }

  lemma SameCount(run: Run, other: Run)
    requires Chunked(run) && Chunked(other) && |Plain(run)| == |Plain(other)|
    ensures |run.chunks| == |other.chunks|
  {
    ChunkCount(run);
    ChunkCount(other);
  }

  /** The chunk boundaries, and so every seal, depend only on the plaintext. */
  lemma {:induction false} ChunksDetermined(run: Run, other: Run)
    requires Chunked(run) && Chunked(other) && Plain(run) == Plain(other)
    ensures run.chunks == other.chunks && run.tail == other.tail
    decreases |run.chunks|
  {
    SameCount(run, other);
    if run.chunks == [] {
      assert run.chunks[0..] == [] && other.chunks[0..] == [];
      assert [] + run.tail == run.tail && [] + other.tail == other.tail;
    } else {
      var run', other' := run.(chunks := run.chunks[1..]), other.(chunks := other.chunks[1..]);
      PlainFirst(run);
      PlainFirst(other);
      HeadsAndTails(run.chunks[0], Plain(run'), other.chunks[0], Plain(other'));
      ChunksDetermined(run', other');
      assert run.chunks == [run.chunks[0]] + run'.chunks && other.chunks == [other.chunks[0]] + other'.chunks;
    }
  }

  lemma HeadsAndTails(a: Bytes, b: Bytes, c: Bytes, d: Bytes)
    requires a + b == c + d && |a| == |c|
    ensures a == c && b == d
  {
    assert a == (a + b)[..|a|] && b == (a + b)[|a|..];
    assert c == (c + d)[..|c|] && d == (c + d)[|c|..];
  }

  lemma {:induction false} FlattenLength(chunks: seq<Bytes>)
    requires forall i :: 0 <= i < |chunks| ==> |chunks[i]| == CHUNK_SIZE
    ensures |Flatten(chunks)| == |chunks| * 0x10_0000
  {
    if chunks == [] {
    } else {
      FlattenLength(chunks[1..]);
    }
  }

  /** A plaintext of exactly n full chunks ends with an empty final chunk. */
  lemma ChunkCount(run: Run)
    requires Chunked(run)
    ensures |run.chunks| == |Plain(run)| / 0x10_0000 && |run.tail| == |Plain(run)| % 0x10_0000
  {
    assert run.chunks[0..] == run.chunks;
    FlattenLength(run.chunks);
  }

  // ------------------------------------------------------------------ the ideal AEAD

  /** No two writers share a derived key: file ids are distinct under one master key. */
  ghost predicate DistinctKeys(world: set<Run>) {
    forall r, s :: r in world && s in world && r.key == s.key ==> r == s
  }

  predicate IsSeal(cipher: Cipher, run: Run, i: nat, slot: Slot) {
    i < Seals(run) && slot == SlotOf(cipher, run.key, SealAt(run, i))
  }

  ghost predicate SealedBy(cipher: Cipher, world: set<Run>, slot: Slot) {
    exists run, i: nat :: run in world && IsSeal(cipher, run, i, slot)
  }

  /** `Open` succeeds exactly on what the writers of `world` sealed. */
  ghost predicate Ideal(cipher: Cipher, world: set<Run>, table: Table) {
    && (forall run, i: nat, slot :: run in world && IsSeal(cipher, run, i, slot) ==>
          slot in table && table[slot] == SealAt(run, i).chunk)
    && (forall slot :: slot in table ==> SealedBy(cipher, world, slot))
  }

  ghost predicate World(cipher: Cipher, world: set<Run>, table: Table) {
    && DistinctKeys(world)
    && (forall run :: run in world ==> WellFormed(run))
    && Ideal(cipher, world, table)
  }

  /** A slot that opens under counter c was sealed, under its key, as the c-th chunk of a run. */
  lemma OpenedChunk(cipher: Cipher, world: set<Run>, table: Table, slot: Slot, c: nat, final: bool) returns (run: Run)
    requires World(cipher, world, table) && c < COUNTERS
    requires slot in table && slot.nonce == ChunkNonce(c, final)
    ensures run in world && run.key == slot.key && c < Seals(run) < COUNTERS
    ensures final == (c == |run.chunks|)
    ensures IsSeal(cipher, run, c, slot) && table[slot] == SealAt(run, c).chunk
  {
    assert SealedBy(cipher, world, slot);
    var r, i: nat :| r in world && IsSeal(cipher, r, i, slot);
    assert WellFormed(r);
    ChunkNonceInjective(c, final, i, i == |r.chunks|);
    run := r;
  }

  /** The table the `Seal` calls of one run fill in. */
  function RunLedger(cipher: Cipher, run: Run, n: nat): Table {
    if n == 0 then map[] else
    var seal := SealAt(run, n - 1);
    RunLedger(cipher, run, n - 1)[SlotOf(cipher, run.key, seal) := seal.chunk]
  }

  function Ledger(cipher: Cipher, runs: seq<Run>): Table {
    if runs == [] then map[] else
    var last := runs[|runs| - 1];
    Ledger(cipher, runs[..|runs| - 1]) + RunLedger(cipher, last, Seals(last))
  }

  lemma SlotsDiffer(cipher: Cipher, run: Run, i: nat, j: nat)
    requires WellFormed(run) && i < j < Seals(run)
    ensures SlotOf(cipher, run.key, SealAt(run, i)) != SlotOf(cipher, run.key, SealAt(run, j))
  {
    NoncesUnique(run, i, j);
  }

  /** What the i-th `Seal` call of a run recorded is not overwritten by a later one. */
  lemma {:induction false} RunLedgerHolds(cipher: Cipher, run: Run, n: nat, i: nat, slot: Slot)
    requires WellFormed(run) && i < n <= Seals(run) && IsSeal(cipher, run, i, slot)
    ensures slot in RunLedger(cipher, run, n) && RunLedger(cipher, run, n)[slot] == SealAt(run, i).chunk
  {
    var last := SealAt(run, n - 1);
    if i == n - 1 {
      assert slot == SlotOf(cipher, run.key, last);
    } else {
      RunLedgerHolds(cipher, run, n - 1, i, slot);
      SlotsDiffer(cipher, run, i, n - 1);
    }
  }

  lemma {:induction false} RunLedgerSealed(cipher: Cipher, run: Run, n: nat, slot: Slot) returns (i: nat)
    requires n <= Seals(run) && slot in RunLedger(cipher, run, n)
    ensures i < n && IsSeal(cipher, run, i, slot)
  {
    i := n - 1;
    if slot != SlotOf(cipher, run.key, SealAt(run, n - 1)) {
      i := RunLedgerSealed(cipher, run, n - 1, slot);
    }
  }

  ghost function Runs(runs: seq<Run>): set<Run> {
    set run | run in runs
  }

  /**
   The ideal table exists: when keys are distinct and counters do not wrap, no `Seal` call overwrites
   what another one recorded, so the accumulated table is ideal for its writers.
   */
  lemma {:induction false} LedgerIsIdeal(cipher: Cipher, runs: seq<Run>)
    requires forall run :: run in runs ==> WellFormed(run)
    requires forall i, j :: 0 <= i < j < |runs| ==> runs[i].key != runs[j].key
    ensures World(cipher, Runs(runs), Ledger(cipher, runs))
  {
    var table := Ledger(cipher, runs);
    if runs == [] {
      assert Runs(runs) == {} && table == map[];
    } else {
      var n := |runs| - 1;
      var last, before := runs[n], runs[..n];
      LedgerIsIdeal(cipher, before);
      assert Runs(runs) == Runs(before) + {last};
      forall run, i: nat, slot | run in Runs(runs) && IsSeal(cipher, run, i, slot)
        ensures slot in table && table[slot] == SealAt(run, i).chunk
      {
        LedgerHolds(cipher, runs, run, i, slot);
      }
      forall slot | slot in table ensures SealedBy(cipher, Runs(runs), slot) {
        LedgerSealed(cipher, runs, slot);
      }
    }
  }

  /** One writer's record in the ledger of all of them, from the ledger of those before the last. */
  lemma LedgerHolds(cipher: Cipher, runs: seq<Run>, run: Run, i: nat, slot: Slot)
    requires runs != [] && run in runs && IsSeal(cipher, run, i, slot) && WellFormed(runs[|runs| - 1])
    requires forall i, j :: 0 <= i < j < |runs| ==> runs[i].key != runs[j].key
    requires World(cipher, Runs(runs[..|runs| - 1]), Ledger(cipher, runs[..|runs| - 1]))
    ensures slot in Ledger(cipher, runs) && Ledger(cipher, runs)[slot] == SealAt(run, i).chunk
  {
    var n := |runs| - 1;
    var last, before := runs[n], runs[..n];
    if run == last {
      RunLedgerHolds(cipher, last, Seals(last), i, slot);
    } else {
      assert run in Runs(before) && slot.key != last.key;
      if slot in RunLedger(cipher, last, Seals(last)) {
        var _ := RunLedgerSealed(cipher, last, Seals(last), slot);
      }
    }
  }

  lemma LedgerSealed(cipher: Cipher, runs: seq<Run>, slot: Slot)
    requires runs != [] && slot in Ledger(cipher, runs)
    requires World(cipher, Runs(runs[..|runs| - 1]), Ledger(cipher, runs[..|runs| - 1]))
    ensures SealedBy(cipher, Runs(runs), slot)
  {
    var n := |runs| - 1;
    var last, before := runs[n], runs[..n];
    if slot in RunLedger(cipher, last, Seals(last)) {
      var i := RunLedgerSealed(cipher, last, Seals(last), slot);
      assert last in Runs(runs);
    } else {
      assert SealedBy(cipher, Runs(before), slot);
      var run, i: nat :| run in Runs(before) && IsSeal(cipher, run, i, slot);
      assert run in Runs(runs);
    }
  }

  // ------------------------------------------------------------------ reading

  datatype Outcome = EOF | Truncated | Corrupt | SourceFailed | BadKey | NotNKBK | UnsupportedVersion

  /** What a source that has run dry reports: its own failure, or the end of its bytes. */
  function RanDry(broken: bool): Outcome {
    if broken then SourceFailed else Truncated
  }

  /** One attempt to read a chunk: an error, a chunk, or the final chunk, with the bytes left after it. */
  datatype Step = Stop(error: Outcome) | More(chunk: Bytes, rest: Bytes) | Last(chunk: Bytes, rest: Bytes)

  function NextChunk(table: Table, key: FileKey, rest: Bytes, broken: bool, counter: nat): (step: Step)
    ensures if step.Stop? then step.error != EOF
            else |step.rest| < |rest| && step.rest == rest[|rest| - |step.rest|..]
  {
    if |rest| < FRAME_SIZE then Stop(RanDry(broken)) else
    var size := FromBE(rest[..FRAME_SIZE]);
    if size < TAG_SIZE || size > MAX_SEALED then Stop(Corrupt) else
    if |rest| < FRAME_SIZE + size then Stop(RanDry(broken)) else
    var sealed, rest' := rest[FRAME_SIZE..FRAME_SIZE + size], rest[FRAME_SIZE + size..];
    var slot := Slot(key, ChunkNonce(counter, false), sealed, Header(key.fileId));
    var last := slot.(nonce := ChunkNonce(counter, true));
    if slot in table then More(table[slot], rest')
    else if last in table then Last(table[last], rest')
    else Stop(Corrupt)
  }

  /** Reading chunk by chunk: the bytes left and the counter give the next step. */
  type ChunkReader = f: (Bytes, nat) -> Step |
      forall rest: Bytes, c: nat :: var step := f(rest, c);
        if step.Stop? then step.error != EOF else |step.rest| < |rest|
    witness (rest: Bytes, c: nat) => Stop(Corrupt)

  function Opener(table: Table, key: FileKey, broken: bool): ChunkReader {
    (rest: Bytes, c: nat) => NextChunk(table, key, rest, broken, c)
  }

  /** All the plaintext delivered before the first error (or EOF), and that error. */
  function Decode(next: ChunkReader, rest: Bytes, counter: nat): (Bytes, Outcome)
    decreases |rest|
  {
    match next(rest, counter)
    case Stop(error) => ([], error)
    case More(chunk, rest') =>
      var (plain, outcome) := Decode(next, rest', counter + 1);
      (chunk + plain, outcome)
    case Last(chunk, rest') => (chunk, if rest' == [] then EOF else Corrupt)
  }

  lemma DecodeMore(next: ChunkReader, rest: Bytes, c: nat, chunk: Bytes, rest': Bytes)
    requires next(rest, c) == More(chunk, rest')
    ensures var tail := Decode(next, rest', c + 1);
      Decode(next, rest, c) == (chunk + tail.0, tail.1)
  {
  }

  /** The header checks of the reader, then `Decode`. */
  function ReadStream(table: Table, master: Bytes, src: Bytes, broken: bool): (Bytes, Outcome) {
    if |src| < HEADER_SIZE then ([], RanDry(broken)) else
    if src[..4] != MAGIC then ([], NotNKBK) else
    if src[4] != STREAM_VERSION then ([], UnsupportedVersion) else
    if |master| != KEY_SIZE then ([], BadKey) else
    Decode(Opener(table, FileKey(master, src[5..HEADER_SIZE]), broken), src[HEADER_SIZE..], 0)
  }

  // ------------------------------------------------------------------ one frame

  /** A written frame is parsed back whole: its size passes the bounds and its sealed bytes come out. */
  lemma FrameParses(sealed: Bytes, suffix: Bytes)
    requires TAG_SIZE <= |sealed| <= MAX_SEALED
    ensures var stream := FrameOf(sealed) + suffix;
      && FromBE(stream[..FRAME_SIZE]) == |sealed|
      && stream[FRAME_SIZE..FRAME_SIZE + |sealed|] == sealed
      && stream[FRAME_SIZE + |sealed|..] == suffix
  {
    var width := FRAME_SIZE;
    FrameShape(sealed, width);
    SizeReads(|sealed|, width);
    Slices(ToBE(|sealed|, width), sealed, suffix);
  }

  /** The size in front of a frame is not truncated. */
  lemma FrameShape(sealed: Bytes, width: nat)
    requires |sealed| <= MAX_SEALED && width == FRAME_SIZE
    ensures FrameOf(sealed) == ToBE(|sealed|, width) + sealed
  {
    assert |sealed| % 0x1_0000_0000 == |sealed|;
  }

  lemma SizeReads(size: nat, width: nat)
    requires size <= MAX_SEALED && width == FRAME_SIZE
    ensures FromBE(ToBE(size, width)) == size
  {
    Pow256At4And8();
    FromBEOfToBE(size, width);
  }

  lemma Slices(a: Bytes, b: Bytes, c: Bytes)
    ensures var all := a + b + c;
      all[..|a|] == a && all[|a|..|a| + |b|] == b && all[|a| + |b|..] == c
  {
  }

  lemma SplitInThree(bytes: Bytes, i: nat, j: nat)
    requires i <= j <= |bytes|
    ensures bytes == bytes[..i] + bytes[i..j] + bytes[j..]
  {
  }

  /** Four bytes are the encoding of the size they encode. */
  lemma SizeIsWritten(bytes: Bytes)
    requires |bytes| == FRAME_SIZE
    ensures FromBE(bytes) < 0x1_0000_0000 && ToBE(FromBE(bytes), FRAME_SIZE) == bytes
  {
    ToBEOfFromBE(bytes);
    Pow256At4And8();
  }

  /** Conversely, bytes that parse as a frame are the frame of their sealed part. */
  lemma FrameIsWritten(rest: Bytes, size: nat)
    requires FRAME_SIZE + size <= |rest| && size == FromBE(rest[..FRAME_SIZE])
    ensures rest == FrameOf(rest[FRAME_SIZE..FRAME_SIZE + size]) + rest[FRAME_SIZE + size..]
  {
    SplitInThree(rest, FRAME_SIZE, FRAME_SIZE + size);
    SizeIsWritten(rest[..FRAME_SIZE]);
    assert FrameOf(rest[FRAME_SIZE..FRAME_SIZE + size]) == rest[..FRAME_SIZE] + rest[FRAME_SIZE..FRAME_SIZE + size];
  }

  function ChunkStep(seal: Seal, rest: Bytes): Step {
    if seal.final then Last(seal.chunk, rest) else More(seal.chunk, rest)
  }

  /** Reading one written frame at its own counter. */
  lemma NextWritten(cipher: Cipher, world: set<Run>, table: Table, run: Run, c: nat, suffix: Bytes, broken: bool)
    requires World(cipher, world, table) && run in world && c < Seals(run)
    ensures var frame := FramerOf(cipher, run.key)(SealAt(run, c));
      NextChunk(table, run.key, frame + suffix, broken, c) == ChunkStep(SealAt(run, c), suffix)
  {
    assert WellFormed(run);
    var slot := SlotOf(cipher, run.key, SealAt(run, c));
    assert IsSeal(cipher, run, c, slot);
    FrameParses(slot.sealed, suffix);
    if c == |run.chunks| && slot.(nonce := ChunkNonce(c, false)) in table {
      var other := OpenedChunk(cipher, world, table, slot.(nonce := ChunkNonce(c, false)), c, false);
    }
  }

  /** Reading a frame that was cut short. */
  lemma NextCut(cipher: Cipher, table: Table, run: Run, c: nat, k: nat, broken: bool)
    requires Chunked(run) && c < Seals(run) && k < |FramerOf(cipher, run.key)(SealAt(run, c))|
    ensures NextChunk(table, run.key, FramerOf(cipher, run.key)(SealAt(run, c))[..k], broken, c) == Stop(RanDry(broken))
  {
    var sealed := SlotOf(cipher, run.key, SealAt(run, c)).sealed;
    FrameParses(sealed, []);
    var frame := FrameOf(sealed);
    assert frame + [] == frame;
    if k >= FRAME_SIZE {
      assert frame[..k][..FRAME_SIZE] == frame[..FRAME_SIZE];
    }
  }

  predicate ReadsAt(next: ChunkReader, framer: Framer, run: Run, c: nat, rest: Bytes)
    requires c < Seals(run)
  {
    next(framer(SealAt(run, c)) + rest, c) == ChunkStep(SealAt(run, c), rest)
  }

  predicate DryAt(next: ChunkReader, framer: Framer, run: Run, c: nat, k: nat, broken: bool)
    requires c < Seals(run) && k < |framer(SealAt(run, c))|
  {
    next(framer(SealAt(run, c))[..k], c) == Stop(RanDry(broken))
  }

  /** What a reader of `run`'s own bytes sees: each frame gives its chunk, and a cut frame runs dry. */
  ghost predicate Reads(next: ChunkReader, framer: Framer, run: Run, broken: bool) {
    && Chunked(run)
    && (forall c: nat, rest: Bytes :: c < Seals(run) ==> ReadsAt(next, framer, run, c, rest))
    && (forall c: nat, k: nat :: c < Seals(run) && k < |framer(SealAt(run, c))| ==> DryAt(next, framer, run, c, k, broken))
    && (forall c: nat :: next([], c) == Stop(RanDry(broken)))
  }

  lemma WorldReads(cipher: Cipher, world: set<Run>, table: Table, run: Run, broken: bool)
    requires World(cipher, world, table) && run in world
    ensures Reads(Opener(table, run.key, broken), FramerOf(cipher, run.key), run, broken)
  {
    assert WellFormed(run);
    var next, framer := Opener(table, run.key, broken), FramerOf(cipher, run.key);
    forall c: nat, rest: Bytes | c < Seals(run) ensures ReadsAt(next, framer, run, c, rest) {
      NextWritten(cipher, world, table, run, c, rest, broken);
    }
    forall c: nat, k: nat | c < Seals(run) && k < |framer(SealAt(run, c))| ensures DryAt(next, framer, run, c, k, broken) {
      NextCut(cipher, table, run, c, k, broken);
    }
  }

  /** The step taken at counter c on `rest` is the c-th frame of `run`, byte for byte. */
  predicate WrittenStep(framer: Framer, run: Run, c: nat, rest: Bytes, step: Step)
    requires !step.Stop?
  {
    && c < Seals(run) < COUNTERS
    && step == ChunkStep(SealAt(run, c), step.rest)
    && rest == framer(SealAt(run, c)) + step.rest
  }

  predicate Accepts(next: ChunkReader, rest: Bytes, c: nat) {
    !next(rest, c).Stop?
  }

  ghost predicate Written(next: ChunkReader, framer: Framer, world: set<Run>, key: FileKey, rest: Bytes, c: nat)
    requires Accepts(next, rest, c)
  {
    exists run :: run in world && run.key == key && WrittenStep(framer, run, c, rest, next(rest, c))
  }

  /** Every chunk a reader under `key` accepts was written by a run of `world` under that key. */
  ghost predicate Faithful(next: ChunkReader, framer: Framer, world: set<Run>, key: FileKey) {
    forall rest: Bytes, c: nat :: c < COUNTERS && Accepts(next, rest, c) ==> Written(next, framer, world, key, rest, c)
  }

  /** What an accepted frame was opened from. */
  lemma AcceptedFrame(table: Table, key: FileKey, rest: Bytes, broken: bool, c: nat) returns (sealed: Bytes, slot: Slot)
    requires !NextChunk(table, key, rest, broken, c).Stop?
    ensures var step := NextChunk(table, key, rest, broken, c);
      && slot == Slot(key, ChunkNonce(c, step.Last?), sealed, Header(key.fileId))
      && slot in table && table[slot] == step.chunk
      && rest == FrameOf(sealed) + step.rest
  {
    var size := FromBE(rest[..FRAME_SIZE]);
    sealed := rest[FRAME_SIZE..FRAME_SIZE + size];
    slot := Slot(key, ChunkNonce(c, NextChunk(table, key, rest, broken, c).Last?), sealed, Header(key.fileId));
    FrameIsWritten(rest, size);
  }

  lemma ChunkIsWritten(cipher: Cipher, world: set<Run>, table: Table, key: FileKey,
                       rest: Bytes, broken: bool, c: nat) returns (run: Run)
    requires World(cipher, world, table) && c < COUNTERS
    requires !NextChunk(table, key, rest, broken, c).Stop?
    ensures run in world && run.key == key
    ensures WrittenStep(FramerOf(cipher, key), run, c, rest, NextChunk(table, key, rest, broken, c))
  {
    var step := NextChunk(table, key, rest, broken, c);
    var sealed, slot := AcceptedFrame(table, key, rest, broken, c);
    run := OpenedChunk(cipher, world, table, slot, c, step.Last?);
    assert sealed == SlotOf(cipher, key, SealAt(run, c)).sealed;
  }

  lemma WorldFaithful(cipher: Cipher, world: set<Run>, table: Table, key: FileKey, broken: bool)
    requires World(cipher, world, table)
    ensures Faithful(Opener(table, key, broken), FramerOf(cipher, key), world, key)
  {
    var next, framer := Opener(table, key, broken), FramerOf(cipher, key);
    forall rest: Bytes, c: nat | c < COUNTERS && Accepts(next, rest, c)
      ensures Written(next, framer, world, key, rest, c)
    {
      var run := ChunkIsWritten(cipher, world, table, key, rest, broken, c);
    }
  }

  // ------------------------------------------------------------------ no splicing

  /** The stream bytes from the c-th frame on, head first. */
  lemma FramesFrom(framer: Framer, run: Run, c: nat)
    requires c < Seals(run)
    ensures Frames(framer, SealsOf(run)[c..]) == framer(SealAt(run, c)) + Frames(framer, SealsOf(run)[c + 1..])
  {
  }

  lemma PlainStep(run: Run, c: nat)
    requires c < |run.chunks|
    ensures PlainFrom(run, c) == run.chunks[c] + PlainFrom(run, c + 1)
  {
  }

  lemma PlainEnd(run: Run)
    ensures PlainFrom(run, |run.chunks|) == run.tail
  {
  }

  /** A tail that decodes cleanly from counter c is the tail of one finished run under that key. */
  lemma {:induction false} CleanTail(next: ChunkReader, framer: Framer, world: set<Run>, key: FileKey,
                                     rest: Bytes, c: nat) returns (run: Run)
    requires DistinctKeys(world) && Faithful(next, framer, world, key) && c < COUNTERS
    requires Decode(next, rest, c).1 == EOF
    ensures run in world && run.key == key && run.finished && c < Seals(run)
    ensures rest == Frames(framer, SealsOf(run)[c..])
    ensures Decode(next, rest, c).0 == PlainFrom(run, c)
    decreases |rest|
  {
    var step := next(rest, c);
    assert Accepts(next, rest, c);
    var sealer :| sealer in world && sealer.key == key && WrittenStep(framer, sealer, c, rest, step);
    if step.More? {
      DecodeMore(next, rest, c, step.chunk, step.rest);
      run := CleanTail(next, framer, world, key, step.rest, c + 1);
      PlainStep(run, c);
    } else {
      run := sealer;
      PlainEnd(run);
      assert SealsOf(run)[c + 1..] == [];
    }
    FramesFrom(framer, run, c);
  }

  /** Bytes that start like a header are a header and what follows it. */
  lemma StartsWithHeader(src: Bytes)
    requires |src| >= HEADER_SIZE && src[..4] == MAGIC && src[4] == STREAM_VERSION
    ensures src == Header(src[5..HEADER_SIZE]) + src[HEADER_SIZE..]
  {
    SplitInThree(src, 5, HEADER_SIZE);
    assert src[..5] == src[..4] + [src[4]];
  }

  lemma HeaderAccepted(table: Table, master: Bytes, src: Bytes, broken: bool) returns (key: FileKey, body: Bytes)
    requires ReadStream(table, master, src, broken).1 == EOF
    ensures key.master == master && src == Header(key.fileId) + body
    ensures ReadStream(table, master, src, broken) == Decode(Opener(table, key, broken), body, 0)
  {
    key, body := FileKey(master, src[5..HEADER_SIZE]), src[HEADER_SIZE..];
    StartsWithHeader(src);
  }

  /**
   Authenticity: whatever bytes the source holds, the reader reaches EOF without an error only when
   they are exactly one finished archive of the world, and it then returned exactly its plaintext.
   So truncation, extension, reordering, substitution and splicing between archives all fail.
   */
  lemma NoSplicing(cipher: Cipher, world: set<Run>, table: Table, master: Bytes, src: Bytes, broken: bool) returns (run: Run)
    requires World(cipher, world, table)
    requires ReadStream(table, master, src, broken).1 == EOF
    ensures run in world && run.finished && run.key.master == master
    ensures src == Encode(cipher, run)
    ensures ReadStream(table, master, src, broken).0 == Plain(run)
  {
    var key, body := HeaderAccepted(table, master, src, broken);
    WorldFaithful(cipher, world, table, key, broken);
    run := CleanTail(Opener(table, key, broken), FramerOf(cipher, key), world, key, body, 0);
    assert SealsOf(run)[0..] == SealsOf(run);
  }

  // ------------------------------------------------------------------ round trip, extension

  lemma {:induction false} DecodeWritten(next: ChunkReader, framer: Framer, run: Run, c: nat, suffix: Bytes, broken: bool)
    requires Reads(next, framer, run, broken) && run.finished && c < Seals(run)
    ensures Decode(next, Frames(framer, SealsOf(run)[c..]) + suffix, c)
         == (PlainFrom(run, c), if suffix == [] then EOF else Corrupt)
    decreases Seals(run) - c
  {
    var frame, frames := framer(SealAt(run, c)), Frames(framer, SealsOf(run)[c + 1..]);
    FramesFrom(framer, run, c);
    ConcatAssociative(frame, frames, suffix);
    assert ReadsAt(next, framer, run, c, frames + suffix);
    if c < |run.chunks| {
      DecodeMore(next, frame + (frames + suffix), c, run.chunks[c], frames + suffix);
      DecodeWritten(next, framer, run, c + 1, suffix, broken);
      PlainStep(run, c);
    } else {
      assert SealsOf(run)[c + 1..] == [] && frames + suffix == suffix;
      PlainEnd(run);
    }
  }

  lemma ReadHeader(table: Table, key: FileKey, body: Bytes, broken: bool)
    requires |key.master| == KEY_SIZE && |key.fileId| == FILE_ID_SIZE
    ensures ReadStream(table, key.master, Header(key.fileId) + body, broken)
         == Decode(Opener(table, key, broken), body, 0)
  {
  }

  /** A finished archive reads back to its plaintext; any byte appended to it is reported after that plaintext. */
  lemma RoundTrip(cipher: Cipher, world: set<Run>, table: Table, run: Run, suffix: Bytes, broken: bool)
    requires World(cipher, world, table) && run in world && run.finished
    ensures ReadStream(table, run.key.master, Encode(cipher, run) + suffix, broken)
         == (Plain(run), if suffix == [] then EOF else Corrupt)
  {
    assert WellFormed(run);
    WorldReads(cipher, world, table, run, broken);
    var framer := FramerOf(cipher, run.key);
    var frames := Frames(framer, SealsOf(run));
    assert SealsOf(run)[0..] == SealsOf(run);
    ReadHeader(table, run.key, frames + suffix, broken);
    ConcatAssociative(Header(run.key.fileId), frames, suffix);
    DecodeWritten(Opener(table, run.key, broken), framer, run, 0, suffix, broken);
  }

  // ------------------------------------------------------------------ truncation

  /** The frames of a run from the c-th on. */
  function FramesAt(framer: Framer, run: Run, c: nat): Bytes
    decreases Seals(run) - c
  {
    if c >= Seals(run) then [] else framer(SealAt(run, c)) + FramesAt(framer, run, c + 1)
  }

  lemma {:induction false} FramesAreFramesAt(framer: Framer, run: Run, c: nat)
    requires c <= Seals(run)
    ensures Frames(framer, SealsOf(run)[c..]) == FramesAt(framer, run, c)
    decreases Seals(run) - c
  {
    if c == Seals(run) {
      assert SealsOf(run)[c..] == [];
    } else {
      FramesAreFramesAt(framer, run, c + 1);
      FramesFrom(framer, run, c);
    }
  }

  /** How many of these frames the first k bytes of them hold whole. */
  function Whole(framer: Framer, run: Run, c: nat, k: nat): nat
    decreases Seals(run) - c
  {
    if c >= Seals(run) || k < |framer(SealAt(run, c))| then 0 else 1 + Whole(framer, run, c + 1, k - |framer(SealAt(run, c))|)
  }

  /** The chunks c to d - 1, one after the other. */
  function TakeChunks(run: Run, c: nat, d: nat): Bytes
    requires d <= |run.chunks|
    decreases d - c
  {
    if c >= d then [] else run.chunks[c] + TakeChunks(run, c + 1, d)
  }

  lemma {:induction false} TakeChunksIsFlatten(run: Run, c: nat, d: nat)
    requires c <= d <= |run.chunks|
    ensures TakeChunks(run, c, d) == Flatten(run.chunks[c..d])
    decreases d - c
  {
    if c == d {
      assert run.chunks[c..d] == [];
    } else {
      TakeChunksIsFlatten(run, c + 1, d);
      assert run.chunks[c..d][1..] == run.chunks[c + 1..d];
    }
  }

  lemma CutAfter(a: Bytes, b: Bytes, k: nat)
    requires k <= |a| + |b|
    ensures (a + b)[..k] == if k < |a| then a[..k] else a + b[..k - |a|]
  {
  }

  /** The cut lies in the frames from c on, and before the end of a finished run. */
  predicate Within(framer: Framer, run: Run, c: nat, k: nat) {
    k <= |FramesAt(framer, run, c)| && (run.finished ==> k < |FramesAt(framer, run, c)|)
  }

  /** Decoding the frames from c on, cut at k, gives the chunks of the whole frames and then runs dry. */
  predicate DecodesCut(next: ChunkReader, framer: Framer, run: Run, c: nat, k: nat, broken: bool)
    requires Within(framer, run, c, k)
  {
    var d := c + Whole(framer, run, c, k);
    d <= |run.chunks| && Decode(next, FramesAt(framer, run, c)[..k], c) == (TakeChunks(run, c, d), RanDry(broken))
  }

  /** The cut lies in the first frame. */
  lemma CutFirst(next: ChunkReader, framer: Framer, run: Run, c: nat, k: nat, broken: bool)
    requires Reads(next, framer, run, broken) && c < Seals(run) && k < |framer(SealAt(run, c))| && Within(framer, run, c, k)
    ensures DecodesCut(next, framer, run, c, k, broken)
  {
    CutAfter(framer(SealAt(run, c)), FramesAt(framer, run, c + 1), k);
    assert DryAt(next, framer, run, c, k, broken);
  }

  /** A whole frame in front adds its chunk. */
  lemma ReadOn(next: ChunkReader, framer: Framer, run: Run, c: nat, d: nat, rest: Bytes, broken: bool)
    requires Reads(next, framer, run, broken) && c < d <= |run.chunks|
    requires Decode(next, rest, c + 1) == (TakeChunks(run, c + 1, d), RanDry(broken))
    ensures Decode(next, framer(SealAt(run, c)) + rest, c) == (TakeChunks(run, c, d), RanDry(broken))
  {
    assert ReadsAt(next, framer, run, c, rest);
    DecodeMore(next, framer(SealAt(run, c)) + rest, c, run.chunks[c], rest);
  }

  /** The bytes up to a cut behind the first frame. */
  lemma CutBehind(framer: Framer, run: Run, c: nat, k: nat)
    requires c < Seals(run) && |framer(SealAt(run, c))| <= k <= |FramesAt(framer, run, c)|
    ensures k - |framer(SealAt(run, c))| <= |FramesAt(framer, run, c + 1)|
    ensures FramesAt(framer, run, c)[..k] ==
      framer(SealAt(run, c)) + FramesAt(framer, run, c + 1)[..k - |framer(SealAt(run, c))|]
  {
    CutAfter(framer(SealAt(run, c)), FramesAt(framer, run, c + 1), k);
  }

  /** The first frame is whole and the cut lies in the frames after it, so the first is not the final one. */
  lemma CutLater(next: ChunkReader, framer: Framer, run: Run, c: nat, k: nat, broken: bool)
    requires Reads(next, framer, run, broken) && c < Seals(run) && Within(framer, run, c, k)
    requires k >= |framer(SealAt(run, c))| && Within(framer, run, c + 1, k - |framer(SealAt(run, c))|) && c < |run.chunks|
    requires DecodesCut(next, framer, run, c + 1, k - |framer(SealAt(run, c))|, broken)
    ensures DecodesCut(next, framer, run, c, k, broken)
  {
    var rest, whole := k - |framer(SealAt(run, c))|, Whole(framer, run, c, k);
    CutBehind(framer, run, c, k);
    ReadOn(next, framer, run, c, c + whole, FramesAt(framer, run, c + 1)[..rest], broken);
  }

  lemma {:induction false} DecodeCut(next: ChunkReader, framer: Framer, run: Run, c: nat, k: nat, broken: bool)
    requires Reads(next, framer, run, broken) && c <= Seals(run) && Within(framer, run, c, k)
    ensures DecodesCut(next, framer, run, c, k, broken)
    decreases Seals(run) - c
  {
    if c == Seals(run) {
      assert FramesAt(framer, run, c)[..k] == [];
    } else if k < |framer(SealAt(run, c))| {
      CutFirst(next, framer, run, c, k, broken);
    } else {
      CutOnward(framer, run, c, k);
      DecodeCut(next, framer, run, c + 1, k - |framer(SealAt(run, c))|, broken);
      CutLater(next, framer, run, c, k, broken);
    }
  }

  /** A cut behind the first frame cuts the frames after it, which are not none in a finished run. */
  lemma CutOnward(framer: Framer, run: Run, c: nat, k: nat)
    requires c < Seals(run) && Within(framer, run, c, k) && k >= |framer(SealAt(run, c))|
    ensures Within(framer, run, c + 1, k - |framer(SealAt(run, c))|) && c < |run.chunks|
  {
    assert c + 1 >= Seals(run) ==> FramesAt(framer, run, c + 1) == [];
  }

  /** All frames but the final one take 4 + CHUNK_SIZE + 16 bytes, so counting whole frames is a division. */
  lemma {:induction false} WholeIsQuotient(framer: Framer, run: Run, c: nat, k: nat)
    requires Chunked(run) && c <= Seals(run) && Within(framer, run, c, k)
    ensures Whole(framer, run, c, k) == k / 0x10_0014
    decreases Seals(run) - c
  {
    if c == Seals(run) {
      assert k == 0;
    } else if k >= |framer(SealAt(run, c))| {
      CutOnward(framer, run, c, k);
      WholeIsQuotient(framer, run, c + 1, k - |framer(SealAt(run, c))|);
    }
  }

  lemma DecodeTruncated(next: ChunkReader, framer: Framer, run: Run, k: nat, broken: bool)
    requires Reads(next, framer, run, broken)
    requires k <= |Frames(framer, SealsOf(run))| && (run.finished ==> k < |Frames(framer, SealsOf(run))|)
    ensures k / 0x10_0014 <= |run.chunks|
    ensures Decode(next, Frames(framer, SealsOf(run))[..k], 0) == (Flatten(run.chunks[..k / 0x10_0014]), RanDry(broken))
  {
    assert SealsOf(run)[0..] == SealsOf(run);
    FramesAreFramesAt(framer, run, 0);
    WholeIsQuotient(framer, run, 0, k);
    DecodeCut(next, framer, run, 0, k, broken);
    TakeChunksIsFlatten(run, 0, k / 0x10_0014);
  }

  /**
   Truncation: every proper prefix of a finished archive, and every prefix of an archive whose writer
   never sealed a final chunk, is reported as truncated, after exactly the plaintext of the chunks it
   holds whole: a full chunk takes 4 + CHUNK_SIZE + 16 bytes of stream.
   */
  lemma Truncation(cipher: Cipher, world: set<Run>, table: Table, run: Run, k: nat, broken: bool)
    requires World(cipher, world, table) && run in world
    requires k <= |Encode(cipher, run)| && (run.finished ==> k < |Encode(cipher, run)|)
    ensures k < HEADER_SIZE ==> ReadsWhole(table, run, Encode(cipher, run)[..k], 0, broken)
    ensures k >= HEADER_SIZE ==> ReadsWhole(table, run, Encode(cipher, run)[..k], (k - HEADER_SIZE) / 0x10_0014, broken)
  {
    if k < HEADER_SIZE {
      CutHeader(table, run, Encode(cipher, run)[..k], broken);
    } else {
      EncodeCut(cipher, run, k);
      TruncatedBody(cipher, world, table, run, k - HEADER_SIZE, broken);
    }
  }

  /** `src` reads as the first `whole` chunks of the run and then runs dry. */
  ghost predicate ReadsWhole(table: Table, run: Run, src: Bytes, whole: nat, broken: bool) {
    whole <= |run.chunks| &&
    ReadStream(table, run.key.master, src, broken) == (Flatten(run.chunks[..whole]), RanDry(broken))
  }

  lemma CutHeader(table: Table, run: Run, src: Bytes, broken: bool)
    requires |src| < HEADER_SIZE
    ensures ReadsWhole(table, run, src, 0, broken)
  {
    assert run.chunks[..0] == [];
  }

  lemma EncodeCut(cipher: Cipher, run: Run, k: nat)
    requires |run.key.fileId| == FILE_ID_SIZE && HEADER_SIZE <= k <= |Encode(cipher, run)|
    ensures var frames := Frames(FramerOf(cipher, run.key), SealsOf(run));
      k - HEADER_SIZE <= |frames| && Encode(cipher, run)[..k] == Header(run.key.fileId) + frames[..k - HEADER_SIZE]
  {
    CutAfter(Header(run.key.fileId), Frames(FramerOf(cipher, run.key), SealsOf(run)), k);
  }

  lemma TruncatedBody(cipher: Cipher, world: set<Run>, table: Table, run: Run, k: nat, broken: bool)
    requires World(cipher, world, table) && run in world
    requires var frames := Frames(FramerOf(cipher, run.key), SealsOf(run)); k <= |frames| && (run.finished ==> k < |frames|)
    ensures var frames := Frames(FramerOf(cipher, run.key), SealsOf(run));
      ReadsWhole(table, run, Header(run.key.fileId) + frames[..k], k / 0x10_0014, broken)
  {
    assert WellFormed(run);
    var framer, next := FramerOf(cipher, run.key), Opener(table, run.key, broken);
    WorldReads(cipher, world, table, run, broken);
    DecodeTruncated(next, framer, run, k, broken);
    ReadHeader(table, run.key, Frames(framer, SealsOf(run))[..k], broken);
  }

  // ------------------------------------------------------------------ nonce uniqueness

  /** One run never seals two chunks under one nonce, and seals a final nonce at most once and last. */
  lemma NoncesUnique(run: Run, i: nat, j: nat)
    requires WellFormed(run) && i < Seals(run) && j < Seals(run)
    ensures var s, t := SealAt(run, i), SealAt(run, j);
      ChunkNonce(s.counter, s.final) == ChunkNonce(t.counter, t.final) ==> i == j
    ensures SealAt(run, i).final <==> run.finished && i == Seals(run) - 1
  {
    ChunkNonceInjective(i, i == |run.chunks|, j, j == |run.chunks|);
  }
}
