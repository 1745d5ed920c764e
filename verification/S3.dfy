/** Multipart upload to an S3-compatible store, with a failure possible at every request. */
module S3 {
  import opened Bytes

  const PART_SIZE: nat := 0x400_0000
  const MULTIPART_THRESHOLD: int := 0x4000_0000

  datatype Part = Part(etag: nat, data: Bytes)

  /** A part as the client lists it; the entity tag is missing when the reply carried none. */
  datatype ListedPart = ListedPart(number: nat, etag: Option<nat>)

  datatype Request =
    | PutObject | Initiate | PutPart(number: nat, data: Bytes) | Complete(parts: seq<ListedPart>) | Abort

  /**
   What the client sees: nothing (a transport error or an error status), a reply it recognises as defective, a
   success status and headers whose body is cut short before it says anything, or a proper reply.
   */
  datatype Reply = NoReply | Defective | BodyLost | Proper

  /**
   How the source of an upload ends: after its last byte, with an error, or with the one error that is also how a
   buffer read in full reports that the source ended within it (`io.ErrUnexpectedEOF`), as a cut HTTP body does.
   */
  datatype Ending = Ended | Failed | ShortRead

  /** What happens to one request: whether the server acts on it, and the reply that arrives. */
  datatype Fate = Fate(acted: bool, reply: Reply)

  /** A proper reply is only sent after acting. */
  predicate Acts(fate: Fate) {
    fate.acted || fate.reply == Proper
  }

  function Assemble(stored: map<int, Part>, parts: seq<ListedPart>): Option<Bytes> {
    if parts == [] then Some([]) else
    var n := |parts| - 1;
    var init, last := Assemble(stored, parts[..n]), parts[n];
    if init.None? || last.number !in stored || last.etag != Some(stored[last.number].etag) then None
    else Some(init.value + stored[last.number].data)
  }

  /** One object key on the server: its content and the uploads in progress. */
  class Store {
    const fate: nat -> Fate
    var content: Option<Bytes>
    var uploads: map<int, map<int, Part>>
    var nextId: nat
    var log: seq<Request>
    ghost var history: seq<Option<Bytes>>

    ghost predicate Valid()
      reads this
    {
      forall id :: id in uploads ==> id < nextId
    }

    constructor (content: Option<Bytes>, fate: nat -> Fate)
      ensures Valid() && this.content == content && this.fate == fate && log == [] && history == []
    {
      this.content, this.fate := content, fate;
      uploads, nextId, log, history := map[], 0, [], [];
    }

    /** The content is recorded after every request. */
    method Finish(request: Request)
      modifies this`log, this`history
      ensures log == old(log) + [request] && history == old(history) + [content]
    {
      log := log + [request];
      history := history + [content];
    }

    /** A request whose body the server never gets whole, which is no body here, has no effect and no answer. */
    method DoPut(body: Option<Bytes>) returns (ok: bool)
      requires Valid()
      modifies this
      ensures Valid()
      ensures content == old(content) || (body.Some? && content == body)
      ensures ok <==> body.Some? && fate(|old(log)|).reply != NoReply
      ensures ok ==> content == body
      ensures log == old(log) + [PutObject] && history == old(history) + [content]
    {
      var f := fate(|log|);
      ok := body.Some? && f.reply != NoReply;
      if body.Some? && (f.acted || ok) {
        content := body;
      }
      Finish(PutObject);
    }

    method DoInitiate() returns (ok: bool, id: Option<nat>)
      requires Valid()
      modifies this
      ensures Valid() && content == old(content)
      ensures fate(|old(log)|).reply == Proper ==> ok && id.Some?
      ensures id.Some? ==> ok && id.value !in old(uploads) && uploads == old(uploads)[id.value := map[]]
      ensures log == old(log) + [Initiate] && history == old(history) + [content]
    {
      var f := fate(|log|);
      ok, id := f.reply != NoReply, None;
      if Acts(f) {
        uploads := uploads[nextId := map[]];
        if f.reply == Proper {
          id := Some(nextId);
        }
      }
      nextId := nextId + 1;
      Finish(Initiate);
    }

    method DoPutPart(id: nat, number: nat, data: Bytes) returns (ok: bool, etag: Option<nat>)
      requires Valid() && id in uploads
      modifies this
      ensures Valid() && content == old(content) && id in uploads
      ensures fate(|old(log)|).reply == Proper ==> ok && etag.Some?
      ensures etag.Some? ==> ok && uploads == old(uploads)[id := old(uploads)[id][number := Part(etag.value, data)]]
      ensures log == old(log) + [PutPart(number, data)] && history == old(history) + [content]
    {
      var f := fate(|log|);
      ok, etag := f.reply != NoReply, None;
      var tag, headers := |log|, f.reply == Proper || f.reply == BodyLost;
      if f.acted || headers {
        uploads := uploads[id := uploads[id][number := Part(tag, data)]];
        if headers {
          etag := Some(tag);
        }
      }
      Finish(PutPart(number, data));
    }

    /**
     Completing takes effect only if every listed part is stored under its listed tag.  A success status may come
     before the server is done; the body then ends in an error document when it fails, if that body arrives.
     */
    method DoComplete(id: nat, parts: seq<ListedPart>) returns (ok: bool, errorDocument: bool, ghost landed: bool)
      requires Valid() && id in uploads && parts != []
      modifies this
      ensures Valid()
      ensures content == if landed then Assemble(old(uploads)[id], parts) else old(content)
      ensures var f := fate(|old(log)|);
        && (landed <==> Acts(f) && Assemble(old(uploads)[id], parts).Some?)
        && (ok && !errorDocument <==> f.reply == BodyLost || (f.reply == Proper && landed))
      ensures log == old(log) + [Complete(parts)] && history == old(history) + [content]
    {
      var f := fate(|log|);
      var assembled := Assemble(uploads[id], parts);
      ok := f.reply != NoReply;
      errorDocument := f.reply == Defective || (f.reply == Proper && assembled.None?);
      landed := Acts(f) && assembled.Some?;
      if Acts(f) && assembled.Some? {
        content := assembled;
        uploads := uploads - {id};
      }
      Finish(Complete(parts));
    }

    method DoAbort(id: nat)
      requires Valid()
      modifies this
      ensures Valid() && content == old(content)
      ensures log == old(log) + [Abort] && history == old(history) + [content]
    {
      if Acts(fate(|log|)) {
        uploads := uploads - {id};
      }
      Finish(Abort);
    }
  }

  // ------------------------------------------------------------------ the parts of an archive

  function Chop(data: Bytes): seq<Bytes>
    decreases |data|
  {
    if data == [] then []
    else if |data| <= PART_SIZE then [data]
    else [data[..PART_SIZE]] + Chop(data[PART_SIZE..])
  }

  /** What a complete upload sends: at least one part, possibly empty. */
  function Parts(data: Bytes): seq<Bytes> {
    if data == [] then [[]] else Chop(data)
  }

  /** The data fills its parts, so that the end of the source is only seen by reading on. */
  predicate FillsParts(data: Bytes) {
    data == [] || |Chop(data)[|Chop(data)| - 1]| == PART_SIZE
  }

  /** What an upload from a source with this ending sends: a short read where nothing is left makes one more, empty part. */
  function PartsOf(data: Bytes, ending: Ending): seq<Bytes> {
    if ending.ShortRead? && FillsParts(data) then Chop(data) + [[]] else Parts(data)
  }

  /** The parts are the data in order, non-empty when it is, and all but the last are full. */
  lemma {:induction false} ChopIsPartition(data: Bytes)
    ensures Flatten(Chop(data)) == data
    ensures forall i :: 0 <= i < |Chop(data)| ==> 0 < |Chop(data)[i]| <= PART_SIZE
    ensures forall i :: 0 <= i < |Chop(data)| - 1 ==> |Chop(data)[i]| == PART_SIZE
    decreases |data|
  {
    if |data| > PART_SIZE {
      ChopIsPartition(data[PART_SIZE..]);
      assert Chop(data)[1..] == Chop(data[PART_SIZE..]);
    } else if data != [] {
      assert [data][1..] == [];
      assert data + [] == data;
    }
  }

  lemma PartsArePartition(data: Bytes, ending: Ending)
    ensures var parts := PartsOf(data, ending);
      && |parts| >= 1 && Flatten(parts) == data
      && (forall i :: 0 <= i < |parts| - 1 ==> |parts[i]| == PART_SIZE)
      && |parts[|parts| - 1]| <= PART_SIZE
  {
    if ending.ShortRead? && FillsParts(data) {
      ExtraPart(data);
    } else {
      PlainParts(data);
    }
  }

  lemma PlainParts(data: Bytes)
    ensures |Parts(data)| >= 1 && Flatten(Parts(data)) == data
    ensures forall i :: 0 <= i < |Parts(data)| - 1 ==> |Parts(data)[i]| == PART_SIZE
    ensures |Parts(data)[|Parts(data)| - 1]| <= PART_SIZE
  {
    ChopIsPartition(data);
    if data == [] {
      var one: seq<Bytes> := [[]];
      assert one[1..] == [] && Flatten(one) == one[0] + Flatten(one[1..]);
    }
  }

  lemma ExtraPart(data: Bytes)
    requires FillsParts(data)
    ensures Flatten(Chop(data) + [[]]) == data
    ensures forall i :: 0 <= i < |Chop(data)| ==> |(Chop(data) + [[]])[i]| == PART_SIZE
  {
    ChopIsPartition(data);
    FlattenAppend(Chop(data), []);
    assert Flatten(Chop(data)) + [] == data;
  }

  /** Chopping a prefix of full parts and a rest that is no longer than one part. */
  lemma {:induction false} ChopStep(full: seq<Bytes>, rest: Bytes)
    requires forall i :: 0 <= i < |full| ==> |full[i]| == PART_SIZE
    ensures Chop(Flatten(full) + rest) == full + Chop(rest)
    decreases |full|
  {
    if full == [] {
      assert Flatten(full) + rest == rest;
    } else {
      var data := Flatten(full) + rest;
      ChopStep(full[1..], rest);
      ConcatAssociative(full[0], Flatten(full[1..]), rest);
      assert data[..PART_SIZE] == full[0] && data[PART_SIZE..] == Flatten(full[1..]) + rest;
      if |data| == PART_SIZE {
        assert data[PART_SIZE..] == [];
        assert data == full[0] && full[1..] == [] && full == [full[0]];
      } else {
        assert full == [full[0]] + full[1..];
      }
    }
  }

  // ------------------------------------------------------------------ the client

  ghost function PartRequests(sent: seq<Bytes>): (requests: seq<Request>)
    ensures |requests| == |sent|
    ensures forall i :: 0 <= i < |sent| ==> requests[i] == PutPart(i + 1, sent[i])
  {
    seq(|sent|, i requires 0 <= i < |sent| => PutPart(i + 1, sent[i]))
  }

  /** The server holds what the client has listed with a tag. */
  ghost predicate Stored(upload: map<int, Part>, parts: seq<ListedPart>, sent: seq<Bytes>) {
    && |parts| == |sent|
    && forall i :: 0 <= i < |sent| ==>
         parts[i].number == i + 1 &&
         (parts[i].etag.Some? ==> i + 1 in upload && upload[i + 1] == Part(parts[i].etag.value, sent[i]))
  }

  /** Every part was listed with the tag of a reply. */
  predicate AllTagged(parts: seq<ListedPart>) {
    forall i :: 0 <= i < |parts| ==> parts[i].etag.Some?
  }

  lemma {:induction false} AssembleStored(upload: map<int, Part>, parts: seq<ListedPart>, sent: seq<Bytes>)
    requires Stored(upload, parts, sent)
    ensures Assemble(upload, parts).Some? ==> Assemble(upload, parts) == Some(Flatten(sent))
    ensures Assemble(upload, parts).Some? <==> AllTagged(parts)
  {
    if parts == [] {
    } else {
      var n := |parts| - 1;
      AssembleStored(upload, parts[..n], sent[..n]);
      FlattenAppend(sent[..n], sent[n]);
      assert sent[..n] + [sent[n]] == sent;
    }
  }

  /** The object content after each request since `before` was `content`. */
  ghost predicate Quiet(before: seq<Option<Bytes>>, history: seq<Option<Bytes>>, content: Option<Bytes>) {
    before <= history && forall i :: |before| <= i < |history| ==> history[i] == content
  }

  lemma QuietMore(before: seq<Option<Bytes>>, history: seq<Option<Bytes>>, content: Option<Bytes>)
    requires Quiet(before, history, content)
    ensures Quiet(before, history + [content], content)
  {
  }

  /** Sending one more part: the attempts stay a prefix of the parts of `data`. */
  lemma {:induction false} NextPart(sent: seq<Bytes>, data: Bytes, pos: nat, n: nat)
    requires forall i :: 0 <= i < |sent| ==> |sent[i]| == PART_SIZE
    requires pos <= |data| && Flatten(sent) == data[..pos]
    requires n == Min(PART_SIZE, |data| - pos) && n > 0
    ensures sent + [data[pos..pos + n]] <= Parts(data)
    ensures Flatten(sent + [data[pos..pos + n]]) == data[..pos + n]
    ensures pos + n == |data| ==> sent + [data[pos..pos + n]] == Parts(data)
  {
    var rest := data[pos..];
    ChopStep(sent, rest);
    assert Flatten(sent) + rest == data;
    assert Chop(rest)[0] == data[pos..pos + n];
    FlattenAppend(sent, data[pos..pos + n]);
    assert data[..pos + n] == data[..pos] + data[pos..pos + n];
    assert sent + [Chop(rest)[0]] <= sent + Chop(rest);
  }

  /** The part after which the loop ends: less than a full buffer, and possibly nothing after a short read. */
  lemma LastPart(sent: seq<Bytes>, data: Bytes, pos: nat, ending: Ending)
    requires forall i :: 0 <= i < |sent| ==> |sent[i]| == PART_SIZE
    requires pos <= |data| && Flatten(sent) == data[..pos] && |data| - pos < PART_SIZE
    requires pos == |data| ==> ending.ShortRead?
    ensures sent + [data[pos..]] == PartsOf(data, ending)
    ensures Flatten(sent + [data[pos..]]) == data
  {
    var rest := data[pos..];
    assert Flatten(sent) + rest == data;
    ChopStep(sent, rest);
    FlattenAppend(sent, rest);
  }

  /** A full part never goes beyond the parts to send. */
  lemma FullPart(sent: seq<Bytes>, data: Bytes, pos: nat, ending: Ending)
    requires forall i :: 0 <= i < |sent| ==> |sent[i]| == PART_SIZE
    requires pos + PART_SIZE <= |data| && Flatten(sent) == data[..pos]
    ensures sent + [data[pos..pos + PART_SIZE]] <= PartsOf(data, ending)
    ensures Flatten(sent + [data[pos..pos + PART_SIZE]]) == data[..pos + PART_SIZE]
    ensures pos + PART_SIZE == |data| ==> sent + [data[pos..pos + PART_SIZE]] == Parts(data)
  {
    NextPart(sent, data, pos, PART_SIZE);
  }

  /** One part of the loop: a reply without an entity tag fails the upload. */
  method SendPart(store: Store, id: nat, parts: seq<ListedPart>, chunk: Bytes, ghost sent: seq<Bytes>)
    returns (parts': seq<ListedPart>, ok: bool)
    requires store.Valid() && id in store.uploads && Stored(store.uploads[id], parts, sent)
    modifies store
    ensures store.Valid() && store.content == old(store.content) && id in store.uploads
    ensures store.log == old(store.log) + [PutPart(|sent| + 1, chunk)]
    ensures store.history == old(store.history) + [store.content]
    ensures ok ==> Stored(store.uploads[id], parts', sent + [chunk])
    ensures ok ==> exists etag :: parts' == parts + [ListedPart(|sent| + 1, Some(etag))]
    ensures store.fate(|old(store.log)|).reply == Proper ==> ok
  {
    var number := |parts| + 1;
    var replied, etag := store.DoPutPart(id, number, chunk);
    ok := replied && etag.Some?;
    parts' := parts + [ListedPart(number, etag)];
  }

  lemma PartRequestsAppend(sent: seq<Bytes>, chunk: Bytes)
    ensures PartRequests(sent + [chunk]) == PartRequests(sent) + [PutPart(|sent| + 1, chunk)]
  {
  }

  /** Every request before the n-th is acted on and properly answered. */
  ghost predicate ProperUntil(fate: nat -> Fate, n: nat) {
    forall i: nat :: i < n ==> fate(i).reply == Proper
  }

  /** How far the loop got: `pos` bytes in full parts, or everything. */
  ghost predicate Progress(sent: seq<Bytes>, data: Bytes, ending: Ending, pos: nat, last: bool) {
    && pos <= |data| && Flatten(sent) == data[..pos] && sent <= PartsOf(data, ending)
    && (!last ==> forall i :: 0 <= i < |sent| ==> |sent[i]| == PART_SIZE)
    && (!last && pos == |data| && sent != [] ==> sent == Parts(data))
    && (last ==> pos == |data| && sent == PartsOf(data, ending))
  }

  /** The `n` bytes at `pos` as the next part. */
  lemma Progresses(sent: seq<Bytes>, data: Bytes, ending: Ending, pos: nat, n: nat)
    requires Progress(sent, data, ending, pos, false) && n == Min(PART_SIZE, |data| - pos)
    requires n == 0 ==> ending.ShortRead?
    ensures Progress(sent + [data[pos..pos + n]], data, ending, pos + n, n < PART_SIZE)
  {
    if n == PART_SIZE {
      FullPart(sent, data, pos, ending);
    } else {
      assert data[pos..pos + n] == data[pos..] && data[..pos + n] == data;
      LastPart(sent, data, pos, ending);
    }
  }

  /** The parts of `data` attempted so far, and their requests. */
  ghost predicate Attempted(log: seq<Request>, base: seq<Request>, sent: seq<Bytes>) {
    log == base + PartRequests(sent)
  }

  /** The loop body for the `n` bytes at `pos`. */
  method SendNext(store: Store, id: nat, parts: seq<ListedPart>, data: Bytes, pos: nat, n: nat,
                  ghost sent: seq<Bytes>, ghost base: seq<Request>)
    returns (parts': seq<ListedPart>, ok: bool)
    requires store.Valid() && id in store.uploads && Stored(store.uploads[id], parts, sent) && AllTagged(parts)
    requires Attempted(store.log, base, sent) && pos + n <= |data|
    modifies store
    ensures store.Valid() && store.content == old(store.content) && id in store.uploads
    ensures store.history == old(store.history) + [store.content]
    ensures Attempted(store.log, base, sent + [data[pos..pos + n]])
    ensures ok ==> Stored(store.uploads[id], parts', sent + [data[pos..pos + n]]) && AllTagged(parts')
    ensures store.fate(|base| + |sent|).reply == Proper ==> ok
  {
    ghost var chunk := data[pos..pos + n];
    PartRequestsAppend(sent, chunk);
    parts', ok := SendPart(store, id, parts, data[pos..pos + n], sent);
    assert base + PartRequests(sent) + [PutPart(|sent| + 1, chunk)] == base + PartRequests(sent + [chunk]);
  }

  /** The part loop; `sent` are the parts attempted, in order. */
  method PartLoop(store: Store, id: nat, data: Bytes, ending: Ending)
    returns (parts: seq<ListedPart>, ok: bool, ghost sent: seq<Bytes>)
    requires store.Valid() && id in store.uploads && store.uploads[id] == map[]
    modifies store
    ensures store.Valid() && store.content == old(store.content) && id in store.uploads
    ensures Quiet(old(store.history), store.history, store.content)
    ensures Attempted(store.log, old(store.log), sent) && sent <= PartsOf(data, ending)
    ensures ok ==> !ending.Failed? && Stored(store.uploads[id], parts, sent) && AllTagged(parts)
    ensures ok ==> sent == PartsOf(data, ending) || (sent == [] && data == [] && ending.Ended?)
    ensures ProperUntil(store.fate, |old(store.log)| + |PartsOf(data, ending)|) && !ending.Failed? ==> ok
  {
    var pos: nat, last := 0, false;
    parts, ok, sent := [], false, [];
    while !last
      invariant store.Valid() && store.content == old(store.content)
      invariant Quiet(old(store.history), store.history, store.content)
      invariant id in store.uploads && Stored(store.uploads[id], parts, sent) && AllTagged(parts)
      invariant Attempted(store.log, old(store.log), sent)
      invariant Progress(sent, data, ending, pos, last) && (last ==> !ending.Failed?)
      decreases !last, |data| - pos
    {
      var n := Min(PART_SIZE, |data| - pos);
      if n < PART_SIZE && ending.Failed? {
        return;
      }
      if n == 0 && ending.Ended? {
        break;
      }
      Progresses(sent, data, ending, pos, n);
      QuietMore(old(store.history), store.history, store.content);
      parts, ok := SendNext(store, id, parts, data, pos, n, sent, old(store.log));
      sent := sent + [data[pos..pos + n]];
      if !ok {
        return;
      }
      pos := pos + n;
      last := n < PART_SIZE;
      ok := false;
    }
    ok := true;
  }

  /** A part whose tag the upload looks at: every one but the empty part of an empty source. */
  predicate Tagged(data: Bytes, ending: Ending) {
    data != [] || !ending.Ended?
  }

  /** The part loop, and the one empty part of an empty input, whose entity tag is not looked at. */
  method SendParts(store: Store, id: nat, data: Bytes, ending: Ending)
    returns (parts: seq<ListedPart>, ok: bool, ghost sent: seq<Bytes>)
    requires store.Valid() && id in store.uploads && store.uploads[id] == map[]
    modifies store
    ensures store.Valid() && store.content == old(store.content)
    ensures Quiet(old(store.history), store.history, store.content)
    ensures store.log == old(store.log) + PartRequests(sent) && sent <= PartsOf(data, ending)
    ensures ok ==>
      !ending.Failed? && sent == PartsOf(data, ending) && id in store.uploads && Stored(store.uploads[id], parts, sent)
    ensures ok && Tagged(data, ending) ==> AllTagged(parts)
    ensures ProperUntil(store.fate, |old(store.log)| + |PartsOf(data, ending)|) && !ending.Failed? ==> ok && AllTagged(parts)
  {
    parts, ok, sent := PartLoop(store, id, data, ending);
    if ok && parts == [] {
      var etag;
      ok, etag := store.DoPutPart(id, 1, []);
      PartRequestsAppend([], []);
      sent := [[]];
      parts := [ListedPart(1, etag)];
    }
  }

  /** The object content after each request since `before` was the old one or `whole`. */
  ghost predicate OldOrWhole(before: seq<Option<Bytes>>, history: seq<Option<Bytes>>, content: Option<Bytes>, whole: Bytes) {
    before <= history && forall i :: |before| <= i < |history| ==> history[i] == content || history[i] == Some(whole)
  }

  lemma OldOrWholeThen(before: seq<Option<Bytes>>, middle: seq<Option<Bytes>>, after: seq<Option<Bytes>>,
                       content: Option<Bytes>, whole: Bytes)
    requires OldOrWhole(before, middle, content, whole) && OldOrWhole(middle, after, content, whole)
    ensures OldOrWhole(before, after, content, whole)
  {
  }

  lemma OldOrWholeOnce(before: seq<Option<Bytes>>, now: Option<Bytes>, content: Option<Bytes>, whole: Bytes)
    requires now == content || now == Some(whole)
    ensures OldOrWhole(before, before + [now], content, whole)
  {
  }

  lemma QuietIsOld(before: seq<Option<Bytes>>, history: seq<Option<Bytes>>, content: Option<Bytes>, whole: Bytes)
    requires Quiet(before, history, content)
    ensures OldOrWhole(before, history, content, whole)
  {
  }

  /** The requests one multipart upload makes: parts in order, a completion only after all of them, one abort on failure. */
  ghost function Conversation(sent: seq<Bytes>, completion: Option<seq<ListedPart>>, initiated: bool, ok: bool): seq<Request> {
    [Initiate] + PartRequests(sent)
    + (if completion.Some? then [Complete(completion.value)] else [])
    + (if initiated && !ok then [Abort] else [])
  }

  /** The log of an upload, from the logs of its stages. */
  lemma Conversed(before: seq<Request>, sent: seq<Bytes>, completion: Option<seq<ListedPart>>, initiated: bool, ok: bool,
                  log: seq<Request>)
    requires log == before + [Initiate] + PartRequests(sent)
      + (if completion.Some? then [Complete(completion.value)] else []) + if initiated && !ok then [Abort] else []
    ensures log == before + Conversation(sent, completion, initiated, ok)
  {
  }

  /** The request with which an upload of `data` that starts at request `first` is completed. */
  function CompletionAt(first: nat, data: Bytes, ending: Ending): nat {
    first + 1 + |PartsOf(data, ending)|
  }

  /**
   putMultipart.  Whatever fails, the object is at every moment its old content or the whole archive.  The parts
   attempted are numbered from 1 and are a prefix of the archive's parts, all of them when a completion is sent;
   once the upload was initiated every failure sends exactly one abort, and success sends none.  Success is
   reported exactly when the completion was sent and its reply was proper, or its body was lost; the object is
   then the whole archive exactly when the server carried the completion out.
   */
  method PutMultipart(store: Store, data: Bytes, ending: Ending)
    returns (ok: bool, ghost sent: seq<Bytes>, ghost completion: Option<seq<ListedPart>>, ghost initiated: bool)
    requires store.Valid()
    modifies store
    ensures store.Valid()
    ensures OldOrWhole(old(store.history), store.history, old(store.content), data)
    ensures Uploads(store.fate, CompletionAt(|old(store.log)|, data, ending), data, ending, ok, sent, completion,
                    old(store.content), store.content)
    ensures store.log == old(store.log) + Conversation(sent, completion, initiated, ok)
    ensures !initiated ==> sent == [] && completion.None?
  {
    ok, sent, completion, initiated := false, [], None, false;
    ghost var log0 := store.log;
    ghost var history, content := store.history, store.content;
    var replied, id := store.DoInitiate();
    ghost var middle := store.history;
    OldOrWholeOnce(history, content, content, data);
    if replied && id.Some? {
      initiated := true;
      ok, sent, completion := SendOrAbort(store, id.value, data, ending);
      OldOrWholeThen(history, middle, store.history, content, data);
    }
    Conversed(log0, sent, completion, initiated, ok, store.log);
  }

  /** The upload once it is initiated; its deferred abort runs on every error. */
  method SendOrAbort(store: Store, id: nat, data: Bytes, ending: Ending)
    returns (ok: bool, ghost sent: seq<Bytes>, ghost completion: Option<seq<ListedPart>>)
    requires store.Valid() && id in store.uploads && store.uploads[id] == map[]
    modifies store
    ensures store.Valid()
    ensures OldOrWhole(old(store.history), store.history, old(store.content), data)
    ensures Uploads(store.fate, |old(store.log)| + |PartsOf(data, ending)|, data, ending, ok, sent, completion,
                    old(store.content), store.content)
    ensures store.log == old(store.log) + PartRequests(sent)
      + (if completion.Some? then [Complete(completion.value)] else []) + if !ok then [Abort] else []
  {
    ghost var history, content := store.history, store.content;
    ok, sent, completion := SendAndComplete(store, id, data, ending);
    if !ok {
      ghost var middle := store.history;
      store.DoAbort(id);
      OldOrWholeOnce(middle, store.content, content, data);
      OldOrWholeThen(history, middle, store.history, content, data);
    }
  }

  /**
   What an upload comes to whose completion would be request `at`: a completion is sent only after all parts, never
   for a failed source, and always when the requests before it are properly answered and the source did not fail.
   */
  ghost predicate Uploads(fate: nat -> Fate, at: nat, data: Bytes, ending: Ending, ok: bool, sent: seq<Bytes>,
                          completion: Option<seq<ListedPart>>, before: Option<Bytes>, after: Option<Bytes>) {
    && sent <= PartsOf(data, ending)
    && (if completion.None? then !ok && after == before
        else sent == PartsOf(data, ending) && Completed(fate(at), completion.value, ok, before, after, data)
             && (Tagged(data, ending) ==> AllTagged(completion.value)))
    && (ending.Failed? ==> completion.None?)
    && (ProperUntil(fate, at) && !ending.Failed? ==> completion.Some? && AllTagged(completion.value))
  }

  /** How a completion ends: what the client reports, and what has become of the object. */
  ghost predicate Completed(f: Fate, parts: seq<ListedPart>, ok: bool, before: Option<Bytes>, after: Option<Bytes>, data: Bytes) {
    && after == (if Acts(f) && AllTagged(parts) then Some(data) else before)
    && (ok <==> f.reply == BodyLost || (f.reply == Proper && AllTagged(parts)))
  }

  /** A reported success, for some list of parts. */
  ghost predicate CompletedSome(f: Fate, before: Option<Bytes>, after: Option<Bytes>, data: Bytes, ending: Ending) {
    exists parts :: Completed(f, parts, true, before, after, data) && (Tagged(data, ending) ==> AllTagged(parts))
  }

  /**
   A reported success means the whole archive, whatever the object was before, exactly when the reply to the
   completion arrived whole, or the server had carried it out although the reply's body was lost.
   */
  lemma SuccessMeansWhole(f: Fate, parts: seq<ListedPart>, before: Option<Bytes>, after: Option<Bytes>, data: Bytes)
    requires Completed(f, parts, true, before, after, data) && before != Some(data)
    ensures after == Some(data) <==> f.reply == Proper || (f.acted && AllTagged(parts))
  {
  }

  /** The body between initiation and the deferred abort. */
  method SendAndComplete(store: Store, id: nat, data: Bytes, ending: Ending)
    returns (ok: bool, ghost sent: seq<Bytes>, ghost completion: Option<seq<ListedPart>>)
    requires store.Valid() && id in store.uploads && store.uploads[id] == map[]
    modifies store
    ensures store.Valid()
    ensures OldOrWhole(old(store.history), store.history, old(store.content), data)
    ensures Uploads(store.fate, |old(store.log)| + |PartsOf(data, ending)|, data, ending, ok, sent, completion,
                    old(store.content), store.content)
    ensures store.log == old(store.log) + PartRequests(sent) + if completion.Some? then [Complete(completion.value)] else []
  {
    completion := None;
    var parts;
    ghost var history, content := store.history, store.content;
    parts, ok, sent := SendParts(store, id, data, ending);
    ghost var middle := store.history;
    QuietIsOld(history, middle, content, data);
    if ok {
      completion := Some(parts);
      ok := CompleteUpload(store, id, parts, data, ending);
      OldOrWholeOnce(middle, store.content, content, data);
      OldOrWholeThen(history, middle, store.history, content, data);
    }
  }

  /** The completion: the error of reading its reply is not looked at, only an error document in what was read. */
  method CompleteUpload(store: Store, id: nat, parts: seq<ListedPart>, ghost data: Bytes, ghost ending: Ending)
    returns (ok: bool)
    requires store.Valid() && id in store.uploads && Stored(store.uploads[id], parts, PartsOf(data, ending))
    modifies store
    ensures store.Valid()
    ensures Completed(store.fate(|old(store.log)|), parts, ok, old(store.content), store.content, data)
    ensures store.log == old(store.log) + [Complete(parts)] && store.history == old(store.history) + [store.content]
  {
    PartsArePartition(data, ending);
    AssembleStored(store.uploads[id], parts, PartsOf(data, ending));
    var answered, errorDocument;
    ghost var landed;
    answered, errorDocument, landed := store.DoComplete(id, parts);
    ok := answered && !errorDocument;
  }

  /**
   What one request of declared size delivers.  The client sends that many bytes and then looks for the end of the
   source; whether it sees an excess or an error there before the server's reply is left open.  A size of
   zero declares nothing, and a source that is too short delivers nothing whole.
   */
  function Delivered(data: Bytes, ending: Ending, size: nat): Option<Bytes> {
    if size == 0 then if ending.Ended? then Some(data) else None
    else if size <= |data| then Some(data[..size])
    else None
  }

  predicate InOneRequest(size: int) {
    0 <= size <= MULTIPART_THRESHOLD
  }

  /** What an upload can leave under the key: the data, or its first `size` bytes when that is what was declared. */
  function Target(data: Bytes, size: int): Bytes {
    if InOneRequest(size) && 0 < size <= |data| then data[..size] else data
  }

  /** Put: small objects of known size go in one request, everything else in parts. */
  method Put(store: Store, data: Bytes, ending: Ending, size: int) returns (ok: bool)
    requires store.Valid()
    modifies store
    ensures store.Valid() && OldOrWhole(old(store.history), store.history, old(store.content), Target(data, size))
    ensures Target(data, size) == data <==> !InOneRequest(size) || size == 0 || size >= |data|
    ensures InOneRequest(size) ==>
      (ok <==> Delivered(data, ending, size).Some? && store.fate(|old(store.log)|).reply != NoReply)
    ensures InOneRequest(size) && ok ==> store.content == Some(Target(data, size))
    ensures !InOneRequest(size) && ok ==>
      && !ending.Failed?
      && CompletedSome(store.fate(CompletionAt(|old(store.log)|, data, ending)),
                       old(store.content), store.content, data, ending)
  {
    if InOneRequest(size) {
      ok := store.DoPut(Delivered(data, ending, size));
    } else {
      ghost var sent, completion, initiated;
      ok, sent, completion, initiated := PutMultipart(store, data, ending);
    }
  }

  /** One upload against a fresh store: what a reader of the key may ever see, and the requests made. */
  method UploadArchive(before: Option<Bytes>, fate: nat -> Fate, data: Bytes, ending: Ending)
    returns (ok: bool, after: Option<Bytes>, log: seq<Request>,
             ghost sent: seq<Bytes>, ghost completion: Option<seq<ListedPart>>, ghost initiated: bool,
             ghost history: seq<Option<Bytes>>)
    ensures OldOrWhole([], history, before, data)
    ensures Uploads(fate, CompletionAt(0, data, ending), data, ending, ok, sent, completion, before, after)
    ensures log == Conversation(sent, completion, initiated, ok)
    ensures after == before || after == Some(data)
    ensures ok ==> sent == PartsOf(data, ending) && !ending.Failed?
  {
    var store := new Store(before, fate);
    ok, sent, completion, initiated := PutMultipart(store, data, ending);
    after, log, history := store.content, store.log, store.history;
  }

  /** The reply to the completion loses its body and the server never completes: success, and the old content. */
  method LostCompletionReportsSuccess(before: Option<Bytes>, data: Bytes) returns (ok: bool, after: Option<Bytes>)
    ensures ok && after == before
  {
    var last := CompletionAt(0, data, Ended);
    var fate := (i: nat) => if i == last then Fate(false, BodyLost) else Fate(true, Proper);
    var log;
    ghost var sent, completion, initiated, history;
    ok, after, log, sent, completion, initiated, history := UploadArchive(before, fate, data, Ended);
  }

  /** A source cut short at any byte, with every request properly answered: success, and an object cut off there. */
  method ShortReadReportsSuccess(before: Option<Bytes>, whole: Bytes, n: nat) returns (ok: bool, after: Option<Bytes>)
    requires n < |whole|
    ensures ok && after == Some(whole[..n])
  {
    var log;
    ghost var sent, completion, initiated, history;
    ok, after, log, sent, completion, initiated, history :=
      UploadArchive(before, (i: nat) => Fate(true, Proper), whole[..n], ShortRead);
  }

  /**
   A declared size below the length of the source, in one request that the server answers: an object cut off at that
   size, and success unless the client notices the excess of the source first.
   */
  method ShortSizeCutsObject(before: Option<Bytes>, data: Bytes, size: nat) returns (ok: bool, after: Option<Bytes>)
    requires 0 < size < |data| && InOneRequest(size)
    ensures ok && after == Some(data[..size])
  {
    var store := new Store(before, (i: nat) => Fate(true, Proper));
    ok := Put(store, data, Ended, size);
    after := store.content;
  }
}
