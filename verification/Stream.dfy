/** The imperative NKBK writer and reader, proved against the format of StreamFormat.dfy. */
module Stream {
  import opened Bytes
  import opened StreamFormat

  /** What the destination does with one write: take it all, or take at most `n` bytes and report an error. */
  datatype Fate = Accept | Fail(n: nat)

  /**
   `dst` is the destination's contents and `fate` what it does with its i-th write; `seals` is the
   ideal AEAD's record of the `Seal` calls made.
   */
  class StreamWriter {
    const cipher: Cipher
    const key: FileKey
    const fate: nat -> Fate
    var dst: Bytes
    var writes: nat
    var seals: seq<Seal>
    var buf: Bytes
    var counter: nat
    var closed: bool
    var failed: bool
    ghost const framer: Framer
    ghost var run: Run

    ghost predicate Valid()
      reads this
    {
      && run.key == key && Chunked(run)
      && (forall seal {:trigger SlotOf(cipher, key, seal)} :: framer(seal) == FrameOf(SlotOf(cipher, key, seal).sealed))
      && seals == SealsOf(run)
      && dst <= Image(framer, key, seals)
      && (run.finished ==> closed)
      && (!failed && !run.finished ==> counter == |run.chunks| && buf == run.tail && dst == Image(framer, key, seals))
    }

    constructor (cipher: Cipher, key: FileKey, fate: nat -> Fate)
      requires |key.master| == KEY_SIZE && |key.fileId| == FILE_ID_SIZE
      ensures this.cipher == cipher && this.key == key && this.fate == fate
      ensures framer == FramerOf(cipher, key)
      ensures Valid() && run == Run(key, [], [], false) && !closed && !failed
      ensures writes == 1
    {
      this.cipher, this.key, this.fate := cipher, key, fate;
      dst, writes := Header(key.fileId), 1;
      seals, buf, counter, closed, failed := [], [], 0, false, false;
      framer, run := FramerOf(cipher, key), Run(key, [], [], false);
    }

    /** One write to the destination. */
    method Send(p: Bytes) returns (ok: bool)
      modifies this`dst, this`writes
      ensures writes == old(writes) + 1
      ensures ok == fate(old(writes)).Accept?
      ensures dst <= old(dst) + p
      ensures ok ==> dst == old(dst) + p
    {
      match fate(writes) {
        case Accept => dst, ok := dst + p, true;
        case Fail(n) => dst, ok := dst + p[..Min(n, |p|)], false;
      }
      writes := writes + 1;
    }

    /** Seals the buffer under the current counter and sends its frame; nothing is undone if that fails. */
    method FlushChunk(final: bool) returns (ok: bool)
      modifies this`dst, this`writes, this`seals, this`buf, this`counter
      ensures var seal := Seal(old(counter), final, old(buf));
        var frame := FrameOf(SlotOf(cipher, key, seal).sealed);
        && seals == old(seals) + [seal]
        && dst <= old(dst) + frame
        && (ok ==> dst == old(dst) + frame && buf == [] && counter == old(counter) + 1)
        && (!ok ==> buf == old(buf) && counter == old(counter))
      ensures (forall i :: fate(i).Accept?) ==> ok
    {
      var nonce := ChunkNonce(counter, final);
      var sealed := cipher(key, nonce, buf, Header(key.fileId));
      seals := seals + [Seal(counter, final, buf)];
      var size := ToBE(|sealed| % 0x1_0000_0000, 4);
      ok := Send(size);
      ConcatAssociative(old(dst), size, sealed);
      if !ok {
        return;
      }
      ok := Send(sealed);
      if ok {
        counter := counter + 1;
        buf := [];
      }
    }

    /** The body of the Write loop: takes the next bytes of p, and seals the buffer once it is full. */
    method Fill(q: Bytes) returns (ok: bool)
      requires Valid() && !failed && !closed
      requires |buf| + |q| <= CHUNK_SIZE
      modifies this
      ensures Valid() && !closed && !run.finished && failed == !ok
      ensures Plain(run) == old(Plain(run)) + q
      ensures (forall i :: fate(i).Accept?) ==> ok
    {
      PlainGrows(run, q);
      SealsGrow(run, run.tail + q);
      ImageGrows(framer, key, seals, Seal(counter, false, buf + q));
      buf := buf + q;
      ok := true;
      if |buf| == CHUNK_SIZE {
        run := run.(chunks := run.chunks + [buf], tail := []);
        ok := FlushChunk(false);
        failed := !ok;
      } else {
        run := run.(tail := buf);
      }
    }

    /** `took` counts the bytes of p that reached the buffer; the caller is told all or nothing. */
    method Write(p: Bytes) returns (n: nat, ok: bool, ghost took: nat)
      requires Valid()
      modifies this
      ensures Valid() && closed == old(closed) && run.finished == old(run.finished)
      ensures took <= |p| && Plain(run) == old(Plain(run)) + p[..took]
      ensures n == (if ok then |p| else 0) && (ok ==> took == |p|)
      ensures old(failed) || old(closed) ==>
        !ok && dst == old(dst) && seals == old(seals) && failed == old(failed) && run == old(run)
      ensures !old(failed) && !old(closed) ==> failed == !ok && ((forall i :: fate(i).Accept?) ==> ok)
    {
      n, ok, took := 0, false, 0;
      if failed || closed {
        assert Plain(run) + p[..0] == Plain(run);
        return;
      }
      var i := 0;
      while i < |p|
        invariant i <= |p|
        invariant Valid() && !failed && !closed && !run.finished
        invariant Plain(run) == old(Plain(run)) + p[..i]
      {
        var k := Min(|p| - i, CHUNK_SIZE - |buf|);
        TakeMore(old(Plain(run)), p, i, i + k);
        ok := Fill(p[i..i + k]);
        i := i + k;
        if !ok {
          return 0, false, i;
        }
      }
      return |p|, true, |p|;
    }

    method Close() returns (ok: bool)
      requires Valid()
      modifies this
      ensures Valid() && closed && failed == old(failed)
      ensures old(closed) ==> ok && dst == old(dst) && seals == old(seals) && run == old(run)
      ensures !old(closed) ==> run == old(run).(finished := !failed) && (failed ==> !ok)
      ensures !old(closed) && ok ==> dst == Image(framer, key, seals)
      ensures !old(closed) && !old(failed) && (forall i :: fate(i).Accept?) ==> ok
    {
      if closed {
        return true;
      }
      closed := true;
      if failed {
        return false;
      }
      ghost var before := seals;
      ok := FlushChunk(true);
      run := run.(finished := true);
      ImageGrows(framer, key, before, Seal(|run.chunks|, true, run.tail));
      assert seals == SealsOf(run);
    }
  }

  /** The header and the frame of every seal. */
  ghost function Image(framer: Framer, key: FileKey, seals: seq<Seal>): Bytes {
    Header(key.fileId) + Frames(framer, seals)
  }

  lemma ImageGrows(framer: Framer, key: FileKey, seals: seq<Seal>, seal: Seal)
    ensures Image(framer, key, seals + [seal]) == Image(framer, key, seals) + framer(seal)
  {
    FramesAppend(framer, seals, seal);
    ConcatAssociative(Header(key.fileId), Frames(framer, seals), framer(seal));
  }

  /** A growing tail is not sealed; a full chunk adds one seal. */
  lemma SealsGrow(run: Run, chunk: Bytes)
    requires !run.finished
    ensures SealsOf(run.(tail := chunk)) == SealsOf(run)
    ensures SealsOf(run.(chunks := run.chunks + [chunk], tail := [])) == SealsOf(run) + [Seal(|run.chunks|, false, chunk)]
  {
  }

  /** Adding to the tail adds to the plaintext, whether or not the tail then becomes a full chunk. */
  lemma PlainGrows(run: Run, q: Bytes)
    ensures Plain(run.(tail := run.tail + q)) == Plain(run) + q
    ensures Plain(run.(chunks := run.chunks + [run.tail + q], tail := [])) == Plain(run) + q
  {
    assert run.chunks[0..] == run.chunks;
    ConcatAssociative(Flatten(run.chunks), run.tail, q);
    var full := run.chunks + [run.tail + q];
    assert full[0..] == full;
    FlattenAppend(run.chunks, run.tail + q);
    assert Flatten(full) + [] == Flatten(full);
  }

  lemma TakeMore(a: Bytes, p: Bytes, i: nat, j: nat)
    requires i <= j <= |p|
    ensures a + p[..i] + p[i..j] == a + p[..j]
  {
  }

  // ------------------------------------------------------------------ reader

  lemma TakeFront(plain: Bytes, more: Bytes, k: nat)
    requires k <= |plain|
    ensures (plain + more)[..k] == plain[..k] && (plain + more)[k..] == plain[k..] + more
  {
  }

  lemma SliceOfSuffix(src: Bytes, pos: nat, i: nat, j: nat)
    requires i <= j && pos + j <= |src|
    ensures src[pos..][i..j] == src[pos + i..pos + j] && src[pos..][j..] == src[pos + j..]
  {
  }

  /** Reads `src`, a source that reports a failure instead of its end when `broken`. */
  class StreamReader {
    const table: Table
    const key: FileKey
    const src: Bytes
    const broken: bool
    var pos: nat
    var plain: Bytes
    var counter: nat
    var done: bool

    ghost const next: ChunkReader

    ghost predicate Valid()
      reads this
    {
      && pos <= |src|
      && (forall rest, c: nat {:trigger StreamFormat.NextChunk(table, key, rest, broken, c)} ::
            next(rest, c) == StreamFormat.NextChunk(table, key, rest, broken, c))
    }

    /** What reading on delivers before the first error, and that error. */
    ghost function Remaining(): (Bytes, Outcome)
      requires Valid()
      reads this
    {
      if done then
        (plain, if pos == |src| then EOF else Corrupt)
      else
        var (more, outcome) := Decode(next, src[pos..], counter);
        (plain + more, outcome)
    }

    constructor (table: Table, key: FileKey, src: Bytes, broken: bool)
      requires HEADER_SIZE <= |src|
      ensures this.table == table && this.key == key && this.src == src && this.broken == broken
      ensures next == Opener(table, key, broken)
      ensures Valid() && !done && plain == [] && pos == HEADER_SIZE && counter == 0
    {
      this.table, this.key, this.src, this.broken := table, key, src, broken;
      pos, plain, counter, done := HEADER_SIZE, [], 0, false;
      next := Opener(table, key, broken);
    }

    method ReadFull(n: nat) returns (data: Bytes, full: bool)
      requires Valid()
      modifies this`pos
      ensures Valid()
      ensures full == (old(pos) + n <= |src|)
      ensures full ==> pos == old(pos) + n && data == src[old(pos)..pos]
    {
      full := pos + n <= |src|;
      var end := if full then pos + n else |src|;
      data := src[pos..end];
      pos := end;
    }

    method NextChunk() returns (err: Option<Outcome>)
      requires Valid()
      modifies this
      ensures Valid()
      ensures match next(old(src[pos..]), old(counter))
        case Stop(error) => err == Some(error) && done == old(done) && plain == old(plain)
        case More(chunk, rest) =>
          err == None && plain == chunk && src[pos..] == rest && counter == old(counter) + 1 && done == old(done)
        case Last(chunk, rest) => err == None && plain == chunk && src[pos..] == rest && done
    {
      ghost var rest := src[pos..];
      assert next(rest, counter) == StreamFormat.NextChunk(table, key, rest, broken, counter);
      var frame, full := ReadFull(FRAME_SIZE);
      if !full {
        return Some(RanDry(broken));
      }
      SliceOfSuffix(src, old(pos), 0, FRAME_SIZE);
      var size := FromBE(frame);
      if size < TAG_SIZE || size > MAX_SEALED {
        return Some(Corrupt);
      }
      var sealed: Bytes;
      sealed, full := ReadFull(size);
      if !full {
        return Some(RanDry(broken));
      }
      SliceOfSuffix(src, old(pos), FRAME_SIZE, FRAME_SIZE + size);
      var slot := Slot(key, ChunkNonce(counter, false), sealed, Header(key.fileId));
      if slot !in table {
        slot := Slot(key, ChunkNonce(counter, true), sealed, Header(key.fileId));
        if slot !in table {
          return Some(Corrupt);
        }
        done := true;
      }
      counter := counter + 1;
      plain := table[slot];
      return None;
    }

    /** Every call hands over the next bytes of `Remaining`, or its error once no bytes are left. */
    method Read(n: nat) returns (data: Bytes, err: Option<Outcome>)
      requires Valid()
      modifies this
      ensures Valid()
      ensures err.None? ==>
        && |data| <= n && (n > 0 ==> |data| > 0)
        && |data| <= |old(Remaining()).0| && data == old(Remaining()).0[..|data|]
        && Remaining() == (old(Remaining()).0[|data|..], old(Remaining()).1)
      ensures err.Some? ==> data == [] && old(Remaining()) == ([], err.value)
    {
      while true
        invariant Valid() && Remaining() == old(Remaining())
        decreases |src| - pos, !done
      {
        if plain != [] {
          var k := Min(n, |plain|);
          ghost var more := if done then [] else Decode(next, src[pos..], counter).0;
          TakeFront(plain, more, k);
          assert Remaining().0 == plain + more;
          data, plain := plain[..k], plain[k..];
          assert Remaining().0 == plain + more;
          return data, None;
        }
        if done {
          if pos < |src| {
            pos := pos + 1;
            return [], Some(Corrupt);
          }
          return [], Some(EOF);
        }
        ghost var rest, c := src[pos..], counter;
        assert plain + Decode(next, rest, c).0 == Decode(next, rest, c).0;
        err := NextChunk();
        if err.Some? {
          return [], err;
        }
      }
    }
  }

  // ------------------------------------------------------------------ whole streams

  /**
   NewStreamWriter, one Write per part, Close: the seals are those of the parts' concatenation however
   it is split, and the destination then holds exactly its archive unless a write to it failed.
   */
  method WriteStream(cipher: Cipher, key: FileKey, fate: nat -> Fate, parts: seq<Bytes>)
    returns (dst: Bytes, seals: seq<Seal>, ok: bool, ghost run: Run)
    requires |key.fileId| == FILE_ID_SIZE
    ensures |key.master| != KEY_SIZE ==> !ok && dst == [] && seals == []
    ensures |key.master| == KEY_SIZE ==>
      && run.key == key && Chunked(run) && Plain(run) <= Flatten(parts)
      && seals == SealsOf(run) && dst <= Encode(cipher, run)
    ensures ok ==> Plain(run) == Flatten(parts) && run.finished && dst == Encode(cipher, run)
    ensures |key.master| == KEY_SIZE && (forall i :: fate(i).Accept?) ==> ok
  {
    dst, seals, ok := [], [], false;
    run := Run(key, [], [], false);
    if |key.master| != KEY_SIZE {
      return;
    }
    if fate(0).Fail? {
      var header := Header(key.fileId);
      dst := header[..Min(fate(0).n, |header|)];
      return;
    }
    var w := new StreamWriter(cipher, key, fate);
    ok := WriteParts(w, parts);
    var closed := w.Close();
    ok := ok && closed;
    dst, seals, run := w.dst, w.seals, w.run;
  }

  method WriteParts(w: StreamWriter, parts: seq<Bytes>) returns (ok: bool)
    requires w.Valid() && !w.closed && !w.failed && Plain(w.run) == []
    modifies w
    ensures w.Valid() && !w.closed && w.failed == !ok && Plain(w.run) <= Flatten(parts)
    ensures ok ==> Plain(w.run) == Flatten(parts)
    ensures (forall i :: w.fate(i).Accept?) ==> ok
  {
    ok := true;
    for i := 0 to |parts|
      invariant w.Valid() && !w.closed && !w.failed && ok
      invariant Plain(w.run) == Flatten(parts[..i])
    {
      FlattenTake(parts, i);
      FlattenPrefix(parts, i + 1);
      var n: nat;
      ghost var took: nat;
      n, ok, took := w.Write(parts[i]);
      if !ok {
        PrefixTake(Flatten(parts[..i]), parts[i], took, Flatten(parts));
        return;
      }
      assert parts[i][..took] == parts[i];
    }
    assert parts[..|parts|] == parts;
  }

  lemma PrefixTake(a: Bytes, p: Bytes, took: nat, all: Bytes)
    requires a + p <= all && took <= |p|
    ensures a + p[..took] <= all
  {
  }

  lemma FlattenTake(parts: seq<Bytes>, i: nat)
    requires i < |parts|
    ensures Flatten(parts[..i + 1]) == Flatten(parts[..i]) + parts[i]
  {
    assert parts[..i + 1] == parts[..i] + [parts[i]];
    FlattenAppend(parts[..i], parts[i]);
  }

  lemma {:induction false} FlattenPrefix(parts: seq<Bytes>, i: nat)
    requires i <= |parts|
    ensures Flatten(parts[..i]) <= Flatten(parts)
  {
    if i == 0 {
    } else {
      FlattenPrefix(parts[1..], i - 1);
      assert parts[..i][1..] == parts[1..][..i - 1];
    }
  }

  /**
   NewStreamReader, then one Read per buffer size, stopping at the first error.  Whatever the sizes,
   what is delivered is a prefix of `ReadStream`'s plaintext; with enough non-empty buffers it is all
   of it, followed by its error.
   */
  method ReadWith(table: Table, master: Bytes, src: Bytes, broken: bool, sizes: seq<nat>)
    returns (delivered: Bytes, err: Option<Outcome>)
    ensures delivered <= ReadStream(table, master, src, broken).0
    ensures err.Some? ==> (delivered, err.value) == ReadStream(table, master, src, broken)
    ensures (forall k :: 0 <= k < |sizes| ==> sizes[k] > 0) && |sizes| > |ReadStream(table, master, src, broken).0| ==> err.Some?
  {
    delivered := [];
    if |src| < HEADER_SIZE {
      return [], Some(RanDry(broken));
    } else if src[..4] != MAGIC {
      return [], Some(NotNKBK);
    } else if src[4] != STREAM_VERSION {
      return [], Some(UnsupportedVersion);
    } else if |master| != KEY_SIZE {
      return [], Some(BadKey);
    }
    var r := new StreamReader(table, FileKey(master, src[5..HEADER_SIZE]), src, broken);
    ghost var all := ReadStream(table, master, src, broken);
    assert [] + all.0 == all.0;
    delivered, err := ReadBuffers(r, sizes);
  }

  method ReadBuffers(r: StreamReader, sizes: seq<nat>) returns (delivered: Bytes, err: Option<Outcome>)
    requires r.Valid()
    modifies r
    ensures r.Valid() && delivered <= old(r.Remaining()).0
    ensures err.Some? ==> (delivered, err.value) == old(r.Remaining())
    ensures (forall k :: 0 <= k < |sizes| ==> sizes[k] > 0) && |sizes| > |old(r.Remaining()).0| ==> err.Some?
  {
    delivered, err := [], None;
    ghost var all := r.Remaining();
    for i := 0 to |sizes|
      invariant r.Valid() && err.None? && delivered <= all.0
      invariant r.Remaining() == (all.0[|delivered|..], all.1)
      invariant (forall k :: 0 <= k < |sizes| ==> sizes[k] > 0) ==> |delivered| >= i
    {
      var data: Bytes;
      ghost var before := r.Remaining();
      assert delivered + before.0 == all.0;
      data, err := r.Read(sizes[i]);
      if err.Some? {
        assert delivered + [] == delivered;
        return;
      }
      delivered := delivered + data;
    }
  }

  /** A call on a writer. */
  datatype Call = CallWrite(p: Bytes) | CallClose

  /** No nonce is used twice, and only the last seal may be final. */
  ghost predicate NoncesFresh(seals: seq<Seal>) {
    forall i, j :: 0 <= i < j < |seals| ==>
      !seals[i].final && ChunkNonce(seals[i].counter, seals[i].final) != ChunkNonce(seals[j].counter, seals[j].final)
  }

  lemma SealsAreFresh(run: Run)
    requires WellFormed(run)
    ensures NoncesFresh(SealsOf(run))
  {
    forall i, j | 0 <= i < j < Seals(run)
      ensures !SealAt(run, i).final &&
        ChunkNonce(SealAt(run, i).counter, SealAt(run, i).final) != ChunkNonce(SealAt(run, j).counter, SealAt(run, j).final)
    {
      NoncesUnique(run, i, j);
    }
  }

  /**
   Any sequence of calls on a writer, closing in between and writing on after failures included, over a destination
   that fails wherever it likes: no nonce is sealed twice, at most one seal is final, and the destination holds a
   prefix of the encoding of what was sealed.
   */
  method RunCalls(cipher: Cipher, key: FileKey, fate: nat -> Fate, calls: seq<Call>)
    returns (dst: Bytes, seals: seq<Seal>, ghost run: Run)
    requires |key.master| == KEY_SIZE && |key.fileId| == FILE_ID_SIZE
    ensures run.key == key && Chunked(run) && seals == SealsOf(run) && dst <= Encode(cipher, run)
    ensures |seals| + 1 < COUNTERS ==> NoncesFresh(seals)
  {
    var w := new StreamWriter(cipher, key, fate);
    for i := 0 to |calls|
      invariant w.Valid() && w.cipher == cipher && w.key == key && w.framer == FramerOf(cipher, key)
    {
      match calls[i] {
        case CallWrite(p) =>
          var n, ok;
          ghost var took;
          n, ok, took := w.Write(p);
        case CallClose =>
          var ok := w.Close();
      }
    }
    dst, seals, run := w.dst, w.seals, w.run;
    if |seals| + 1 < COUNTERS {
      SealsAreFresh(run);
    }
  }

  /** The run of a writer that closed, from its seals. */
  function RunOf(key: FileKey, seals: seq<Seal>): Run
    requires seals != []
  {
    var n := |seals| - 1;
    Run(key, seq(n, i requires 0 <= i < n => seals[i].chunk), seals[n].chunk, true)
  }

  lemma RunFromSeals(run: Run)
    requires run.finished
    ensures SealsOf(run) != [] && RunOf(run.key, SealsOf(run)) == run
  {
    var n := |SealsOf(run)| - 1;
    assert n == |run.chunks| && RunOf(run.key, SealsOf(run)).chunks == run.chunks;
  }

  /** Well-formed runs, each with a key of its own. */
  ghost predicate Apart(runs: seq<Run>) {
    && (forall run :: run in runs ==> WellFormed(run))
    && (forall i, j :: 0 <= i < j < |runs| ==> runs[i].key != runs[j].key)
  }

  lemma OneMoreApart(others: seq<Run>, run: Run)
    requires Apart(others) && WellFormed(run) && forall other :: other in others ==> other.key != run.key
    ensures Apart(others + [run]) && run in Runs(others + [run])
  {
    var world := others + [run];
    assert world[|others|] == run;
    forall i, j | 0 <= i < j < |world| ensures world[i].key != world[j].key {
      assert world[i] == others[i];
      if j < |others| {
        assert world[j] == others[j];
      }
    }
  }

  /** The writer's own archive reads back among any others with keys of their own. */
  lemma ReadsAmong(cipher: Cipher, others: seq<Run>, run: Run)
    requires WellFormed(run) && run.finished
    requires Apart(others) && forall other :: other in others ==> other.key != run.key
    ensures ReadStream(Ledger(cipher, others + [run]), run.key.master, Encode(cipher, run), false) == (Plain(run), EOF)
  {
    OneMoreApart(others, run);
    ReadsInWorld(cipher, others + [run], run);
  }

  lemma ReadsInWorld(cipher: Cipher, world: seq<Run>, run: Run)
    requires Apart(world) && run in Runs(world) && run.finished
    ensures ReadStream(Ledger(cipher, world), run.key.master, Encode(cipher, run), false) == (Plain(run), EOF)
  {
    LedgerIsIdeal(cipher, world);
    RoundTrip(cipher, Runs(world), Ledger(cipher, world), run, [], false);
    assert Encode(cipher, run) + [] == Encode(cipher, run);
  }

  /**
   End to end: a plaintext split into writes in any way, into a destination that fails at no write, beside any other
   archives under other keys, comes back through any sequence of buffers: what is delivered is a prefix of it, the
   first error is the end of all of it, and enough non-empty buffers get there.
   */
  method WriteThenRead(cipher: Cipher, key: FileKey, parts: seq<Bytes>, others: seq<Run>, sizes: seq<nat>)
    returns (delivered: Bytes, err: Option<Outcome>)
    requires |key.master| == KEY_SIZE && |key.fileId| == FILE_ID_SIZE && |Flatten(parts)| / 0x10_0000 + 1 < COUNTERS
    requires Apart(others) && forall other :: other in others ==> other.key != key
    ensures delivered <= Flatten(parts)
    ensures err.Some? ==> delivered == Flatten(parts) && err.value == EOF
    ensures (forall k :: 0 <= k < |sizes| ==> sizes[k] > 0) && |sizes| > |Flatten(parts)| ==> err.Some?
  {
    ghost var run;
    var dst, seals, ok;
    dst, seals, ok, run := WriteStream(cipher, key, (k: nat) => Accept, parts);
    ChunkCount(run);
    RunFromSeals(run);
    ReadsAmong(cipher, others, run);
    var table := Ledger(cipher, others + [RunOf(key, seals)]);
    delivered, err := ReadWith(table, key.master, dst, false, sizes);
  }
}
