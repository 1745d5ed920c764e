/**
 Numeric identity restoration: archived accounts are first parked on temporary ids, then given their
 archived ids, so that accounts whose ids were permuted by a reinstallation cannot block each other.
 */
module Identity {
  import opened Bytes

  const FIRST_PARKING := 60000
  const LAST_PARKING := 50000

  /** Account name to numeric id: /etc/group or /etc/passwd. */
  type Ids = map<string, int>

  /** An archived account; `gid` is the archived primary group of a user and 0 for a group. */
  datatype Entry = Entry(name: string, id: int, gid: int)

  ghost predicate Injective(ids: Ids) {
    forall a, b :: a in ids && b in ids && ids[a] == ids[b] ==> a == b
  }

  predicate Taken(ids: Ids, id: int) {
    exists name :: name in ids && ids[name] == id
  }

  predicate TakenByOther(ids: Ids, id: int, name: string) {
    exists other :: other in ids && other != name && ids[other] == id
  }

  // ------------------------------------------------------------------ the archived accounts

  /** The entries that restoring does not skip; `floor` is 1 for groups and 0 for users. */
  predicate Restored(entry: Entry, floor: int) {
    entry.name != "" && entry.id >= floor
  }

  ghost predicate Archived(entries: seq<Entry>, name: string) {
    exists i :: 0 <= i < |entries| && entries[i].name == name
  }

  function Targets(entries: seq<Entry>, floor: int): set<int> {
    set i | 0 <= i < |entries| && entries[i].id >= floor :: entries[i].id
  }

  ghost predicate DistinctNames(entries: seq<Entry>) {
    forall i, j :: 0 <= i < j < |entries| ==> entries[i].name != entries[j].name
  }

  ghost predicate DistinctTargets(entries: seq<Entry>, floor: int) {
    forall i, j :: 0 <= i < j < |entries| && Restored(entries[i], floor) && Restored(entries[j], floor) ==>
      entries[i].id != entries[j].id
  }

  /** No account outside the archive holds an archived id. */
  ghost predicate NoForeignHolder(ids: Ids, entries: seq<Entry>, floor: int) {
    forall name, i :: name in ids && !Archived(entries, name) && 0 <= i < |entries| && Restored(entries[i], floor) ==>
      ids[name] != entries[i].id
  }

  ghost predicate ForeignUntouched(before: Ids, after: Ids, entries: seq<Entry>) {
    forall name :: !Archived(entries, name) ==>
      (name in before <==> name in after) && (name in before ==> before[name] == after[name])
  }

  /** Every archived account is at its archived id. */
  ghost predicate Exact(ids: Ids, entries: seq<Entry>, floor: int, n: nat)
    requires n <= |entries|
  {
    forall i :: 0 <= i < n && Restored(entries[i], floor) ==> entries[i].name in ids && ids[entries[i].name] == entries[i].id
  }

  // ------------------------------------------------------------------ counting parking ids

  predicate Moves(ids: Ids, entry: Entry) {
    entry.name in ids && ids[entry.name] != entry.id
  }

  /** How many of the first n archived accounts have to be parked. */
  function Movers(ids: Ids, entries: seq<Entry>, n: nat): nat
    requires n <= |entries|
  {
    if n == 0 then 0 else Movers(ids, entries, n - 1) + if Moves(ids, entries[n - 1]) then 1 else 0
  }

  lemma {:induction false} MoversMonotone(ids: Ids, entries: seq<Entry>, m: nat, n: nat)
    requires m <= n <= |entries|
    ensures Movers(ids, entries, m) <= Movers(ids, entries, n)
  {
    if m == n {
    } else {
      MoversMonotone(ids, entries, m, n - 1);
    }
  }

  function Range(lo: int, hi: int): (ids: set<int>)
    ensures forall k :: k in ids <==> lo <= k <= hi
    ensures |ids| == if lo <= hi then hi - lo + 1 else 0
    decreases hi - lo + 1
  {
    if lo > hi then {} else Range(lo, hi - 1) + {hi}
  }

  /** The parking ids that are archived targets or already held. */
  function Blocked(ids: Ids, reserved: set<int>): set<int> {
    set k | LAST_PARKING <= k <= FIRST_PARKING && (k in reserved || k in ids.Values)
  }

  ghost predicate EnoughParking(ids: Ids, entries: seq<Entry>, floor: int) {
    Movers(ids, entries, |entries|) + |Blocked(ids, Targets(entries, floor))| <= FIRST_PARKING - LAST_PARKING + 1
  }

  /** Parking ids are exhausted only after every one was handed out or blocked from the start. */
  lemma Exhausted(handed: set<int>, blocked: set<int>)
    requires forall k :: LAST_PARKING <= k <= FIRST_PARKING ==> k in handed || k in blocked
    ensures FIRST_PARKING - LAST_PARKING + 1 <= |handed| + |blocked|
  {
    var range := Range(LAST_PARKING, FIRST_PARKING);
    SubsetSize(range, handed + blocked);
    assert |handed + blocked| == |handed| + |blocked| - |handed * blocked|;
  }

  lemma SubsetSize(a: set<int>, b: set<int>)
    requires a <= b
    ensures |a| <= |b|
  {
    assert b == a + (b - a);
  }

  // ------------------------------------------------------------------ the system

  /** One account database and its commands; `fate` says which commands fail for reasons of their own. */
  class Accounts {
    const fate: nat -> bool
    var ids: Ids
    var calls: nat
    ghost var history: seq<Ids>

    constructor (ids: Ids, fate: nat -> bool)
      ensures this.ids == ids && this.fate == fate && calls == 0 && history == [ids]
    {
      this.ids, this.fate, calls, history := ids, fate, 0, [ids];
    }

    /** groupmod --gid, usermod --uid: refuses an unknown name or an id held by another account. */
    method Modify(name: string, id: int) returns (ok: bool)
      modifies this
      ensures calls == old(calls) + 1
      ensures ok == (fate(old(calls)) && name in old(ids) && !TakenByOther(old(ids), id, name))
      ensures ids == if ok then old(ids)[name := id] else old(ids)
      ensures history == if ok then old(history) + [ids] else old(history)
    {
      ok := fate(calls) && name in ids && !TakenByOther(ids, id, name);
      calls := calls + 1;
      if ok {
        ids := ids[name := id];
        history := history + [ids];
      }
    }

    /** groupadd, useradd: refuses a known name or an id held by another account. */
    method Add(name: string, id: int) returns (ok: bool)
      modifies this
      ensures calls == old(calls) + 1
      ensures ok == (fate(old(calls)) && name !in old(ids) && !Taken(old(ids), id))
      ensures ids == if ok then old(ids)[name := id] else old(ids)
      ensures history == if ok then old(history) + [ids] else old(history)
    {
      ok := fate(calls) && name !in ids && !Taken(ids, id);
      calls := calls + 1;
      if ok {
        ids := ids[name := id];
        history := history + [ids];
      }
    }

    /** usermod --gid: does not touch numeric ids. */
    method SetPrimaryGroup() returns (ok: bool)
      modifies this`calls
      ensures ok == fate(old(calls))
    {
      ok := fate(calls);
      calls := calls + 1;
    }
  }

  /** What every state of a run keeps, whatever fails. */
  ghost predicate Sane(history: seq<Ids>, before: Ids, entries: seq<Entry>) {
    forall k :: 0 <= k < |history| ==> Injective(history[k]) && ForeignUntouched(before, history[k], entries)
  }

  /** Every table since `earlier` is sane. */
  ghost predicate SaneSince(earlier: seq<Ids>, history: seq<Ids>, before: Ids, entries: seq<Entry>) {
    earlier <= history && Sane(history[|earlier|..], before, entries)
  }

  lemma SaneSinceNow(history: seq<Ids>, before: Ids, entries: seq<Entry>)
    ensures SaneSince(history, history, before, entries)
  {
  }

  lemma SaneSinceStep(earlier: seq<Ids>, history: seq<Ids>, ids: Ids, history': seq<Ids>, before: Ids, entries: seq<Entry>)
    requires SaneSince(earlier, history, before, entries)
    requires history' == history || history' == history + [ids]
    requires Injective(ids) && ForeignUntouched(before, ids, entries)
    ensures SaneSince(earlier, history', before, entries)
  {
    if history' == history + [ids] {
      assert history'[|earlier|..] == history[|earlier|..] + [ids];
    }
  }

  // ------------------------------------------------------------------ parking

  /** The highest parking id up to `next` that is neither reserved nor held; the cursor moves below it. */
  method NextRestoreParkingId(next: int, reserved: set<int>, ids: Ids) returns (id: Option<int>, next': int)
    requires next <= FIRST_PARKING
    ensures id.Some? ==>
      && LAST_PARKING <= id.value <= next && next' == id.value - 1
      && id.value !in reserved && !Taken(ids, id.value)
    ensures id.None? ==> next' < LAST_PARKING && next' <= next
    ensures forall k :: LAST_PARKING <= k <= next && next' < k && id != Some(k) ==> k in reserved || Taken(ids, k)
  {
    next' := next;
    while next' >= LAST_PARKING
      invariant next' <= next
      invariant forall k :: LAST_PARKING <= k <= next && next' < k ==> k in reserved || Taken(ids, k)
      decreases next'
    {
      var candidate := next';
      next' := next' - 1;
      if candidate in reserved {
        continue;
      }
      if !Taken(ids, candidate) {
        return Some(candidate), next';
      }
    }
    id := None;
  }

  /** A parking id: above the cursor and no archived target. */
  predicate ParkedAt(id: int, next: int, reserved: set<int>) {
    next < id <= FIRST_PARKING && id >= LAST_PARKING && id !in reserved
  }

  /** Each of the first n archived accounts that exist stayed if it was at its archived id, and is parked if not. */
  ghost predicate Cleared(before: Ids, ids: Ids, entries: seq<Entry>, n: nat, next: int, reserved: set<int>)
    requires n <= |entries| && ids.Keys == before.Keys
  {
    forall j :: 0 <= j < n && entries[j].name in ids ==>
      var id := ids[entries[j].name];
      if Moves(before, entries[j]) then ParkedAt(id, next, reserved) else id == entries[j].id
  }

  /** The same accounts, none sharing an id and none outside the archive changed. */
  ghost predicate Intact(before: Ids, ids: Ids, entries: seq<Entry>) {
    Injective(ids) && ids.Keys == before.Keys && ForeignUntouched(before, ids, entries)
  }

  /** The ids `handed` out lie above the cursor, where every other parking id was blocked from the start. */
  ghost predicate Cursor(before: Ids, ids: Ids, next: int, reserved: set<int>, handed: set<int>)
    requires ids.Keys == before.Keys
  {
    && next <= FIRST_PARKING
    && (forall k :: k in handed ==> ParkedAt(k, next, reserved))
    && (forall name :: name in ids ==> ids[name] in handed || ids[name] == before[name])
    && (forall k :: LAST_PARKING <= k <= FIRST_PARKING && next < k ==> k in handed || k in Blocked(before, reserved))
  }

  /** The first n accounts are cleared, one id handed out for each that had to move, and the others are as before. */
  ghost predicate Advanced(before: Ids, ids: Ids, entries: seq<Entry>, n: nat, next: int, reserved: set<int>, handed: set<int>)
    requires n <= |entries| && ids.Keys == before.Keys
  {
    && Cleared(before, ids, entries, n, next, reserved)
    && |handed| == Movers(before, entries, n)
    && forall j :: n <= j < |entries| && entries[j].name in ids ==> ids[entries[j].name] == before[entries[j].name]
  }

  /** What parking keeps true after n entries; `handed` are the ids it gave out. */
  ghost predicate Parking(before: Ids, ids: Ids, entries: seq<Entry>, n: nat, next: int, reserved: set<int>, handed: set<int>)
    requires n <= |entries|
  {
    && Intact(before, ids, entries) && Cursor(before, ids, next, reserved, handed)
    && (DistinctNames(entries) ==> Advanced(before, ids, entries, n, next, reserved, handed))
  }

  /** An id held now was held from the start or was handed out. */
  lemma TakenWasBlocked(before: Ids, ids: Ids, handed: set<int>, reserved: set<int>, k: int)
    requires ids.Keys == before.Keys && LAST_PARKING <= k <= FIRST_PARKING
    requires forall name :: name in ids ==> ids[name] in handed || ids[name] == before[name]
    requires k in reserved || Taken(ids, k)
    ensures k in handed || k in Blocked(before, reserved)
  {
  }

  lemma InjectiveUpdate(ids: Ids, name: string, id: int)
    requires Injective(ids) && !TakenByOther(ids, id, name)
    ensures Injective(ids[name := id])
  {
  }

  lemma MoveIntact(before: Ids, ids: Ids, entries: seq<Entry>, n: nat, id: int)
    requires n < |entries| && Intact(before, ids, entries) && entries[n].name in ids && !Taken(ids, id)
    ensures Intact(before, ids[entries[n].name := id], entries)
  {
    assert Archived(entries, entries[n].name);
    InjectiveUpdate(ids, entries[n].name, id);
  }

  lemma MoveCursor(before: Ids, ids: Ids, name: string, next: int, reserved: set<int>, handed: set<int>, id: int)
    requires ids.Keys == before.Keys && Cursor(before, ids, next, reserved, handed) && name in ids
    requires LAST_PARKING <= id <= next && id !in reserved
    requires forall k :: LAST_PARKING <= k <= next && id <= k && k != id ==> k in reserved || Taken(ids, k)
    ensures Cursor(before, ids[name := id], id - 1, reserved, handed + {id})
  {
    forall k | LAST_PARKING <= k <= FIRST_PARKING && id - 1 < k ensures k in handed + {id} || k in Blocked(before, reserved) {
      if k != id && k <= next {
        TakenWasBlocked(before, ids, handed, reserved, k);
      }
    }
  }

  lemma MoveAdvanced(before: Ids, ids: Ids, entries: seq<Entry>, n: nat, next: int, reserved: set<int>, handed: set<int>,
                     id: int)
    requires n < |entries| && ids.Keys == before.Keys && DistinctNames(entries) && Moves(ids, entries[n])
    requires Advanced(before, ids, entries, n, next, reserved, handed)
    requires LAST_PARKING <= id <= next <= FIRST_PARKING && id !in reserved && id !in handed
    ensures Advanced(before, ids[entries[n].name := id], entries, n + 1, id - 1, reserved, handed + {id})
  {
  }

  /** Moving the n-th account to the id just handed out. */
  lemma ParkOne(before: Ids, ids: Ids, entries: seq<Entry>, n: nat, next: int, reserved: set<int>, handed: set<int>,
                id: int)
    requires n < |entries| && Parking(before, ids, entries, n, next, reserved, handed)
    requires Moves(ids, entries[n])
    requires LAST_PARKING <= id <= next && id !in reserved && !Taken(ids, id)
    requires forall k :: LAST_PARKING <= k <= next && id <= k && k != id ==> k in reserved || Taken(ids, k)
    ensures Parking(before, ids[entries[n].name := id], entries, n + 1, id - 1, reserved, handed + {id})
  {
    MoveIntact(before, ids, entries, n, id);
    MoveCursor(before, ids, entries[n].name, next, reserved, handed, id);
    assert id !in handed;
    if DistinctNames(entries) {
      MoveAdvanced(before, ids, entries, n, next, reserved, handed, id);
    }
  }

  lemma ParkNone(before: Ids, ids: Ids, entries: seq<Entry>, n: nat, next: int, reserved: set<int>, handed: set<int>)
    requires n < |entries| && Parking(before, ids, entries, n, next, reserved, handed)
    requires !Moves(ids, entries[n])
    ensures Parking(before, ids, entries, n + 1, next, reserved, handed)
  {
  }

  /** The allocator ran dry, so more accounts had to move than there were parking ids for. */
  lemma ParkingFull(before: Ids, ids: Ids, entries: seq<Entry>, n: nat, next: int, reserved: set<int>, handed: set<int>)
    requires n < |entries| && Parking(before, ids, entries, n, next, reserved, handed)
    requires Moves(ids, entries[n]) && DistinctNames(entries)
    requires forall k :: LAST_PARKING <= k <= next ==> k in reserved || Taken(ids, k)
    ensures Movers(before, entries, |entries|) + |Blocked(before, reserved)| > FIRST_PARKING - LAST_PARKING + 1
  {
    var blocked := Blocked(before, reserved);
    forall k | LAST_PARKING <= k <= FIRST_PARKING ensures k in handed || k in blocked {
      if k <= next {
        TakenWasBlocked(before, ids, handed, reserved, k);
      }
    }
    Exhausted(handed, blocked);
    MoversMonotone(before, entries, n + 1, |entries|);
  }

  /** One account of the loop: it stays where it is, or is moved to the next free parking id. */
  method ParkEntry(accounts: Accounts, entries: seq<Entry>, i: nat, next: int, reserved: set<int>,
                   ghost before: Ids, ghost given: set<int>)
    returns (ok: bool, id: Option<int>, next': int)
    requires i < |entries| && Parking(before, accounts.ids, entries, i, next, reserved, given)
    modifies accounts
    ensures Injective(accounts.ids) && ForeignUntouched(before, accounts.ids, entries) && accounts.ids.Keys == before.Keys
    ensures accounts.history == old(accounts.history) || accounts.history == old(accounts.history) + [accounts.ids]
    ensures ok ==> Parking(before, accounts.ids, entries, i + 1, next', reserved, if id.Some? then given + {id.value} else given)
    ensures id.Some? ==> LAST_PARKING <= id.value <= next && next' < id.value && id.value !in reserved
    ensures id.None? ==> next' <= next
    ensures (forall k :: accounts.fate(k)) && DistinctNames(entries) && !ok ==>
      Movers(before, entries, |entries|) + |Blocked(before, reserved)| > FIRST_PARKING - LAST_PARKING + 1
  {
    var entry := entries[i];
    if entry.name !in accounts.ids || accounts.ids[entry.name] == entry.id {
      ParkNone(before, accounts.ids, entries, i, next, reserved, given);
      return true, None, next;
    }
    id, next' := NextRestoreParkingId(next, reserved, accounts.ids);
    if id.None? {
      if DistinctNames(entries) {
        ParkingFull(before, accounts.ids, entries, i, next, reserved, given);
      }
      return false, id, next';
    }
    ParkOne(before, accounts.ids, entries, i, next, reserved, given, id.value);
    ok := accounts.Modify(entry.name, id.value);
  }

  /** Parking ids above the cursor, strictly decreasing, and no archived target among them. */
  ghost predicate HandedOut(handed: seq<int>, next: int, reserved: set<int>) {
    && (forall i :: 0 <= i < |handed| ==> ParkedAt(handed[i], next, reserved))
    && (forall i, j :: 0 <= i < j < |handed| ==> handed[j] < handed[i])
  }

  /**
   parkExistingIdentity for one table.  Whatever happens, no state shares an id or touches an account
   outside the archive; without external failures and with enough parking ids it succeeds, and then
   every archived account that exists is at its target or off every target.
   */
  method Park(accounts: Accounts, entries: seq<Entry>, floor: int) returns (ok: bool, handed: seq<int>)
    requires Injective(accounts.ids)
    modifies accounts
    ensures Injective(accounts.ids) && ForeignUntouched(old(accounts.ids), accounts.ids, entries)
    ensures accounts.ids.Keys == old(accounts.ids).Keys
    ensures SaneSince(old(accounts.history), accounts.history, old(accounts.ids), entries)
    ensures HandedOut(handed, LAST_PARKING - 1, Targets(entries, floor))
    ensures ok && DistinctNames(entries) ==>
      Cleared(old(accounts.ids), accounts.ids, entries, |entries|, LAST_PARKING - 1, Targets(entries, floor))
    ensures (forall k :: accounts.fate(k)) && DistinctNames(entries) && EnoughParking(old(accounts.ids), entries, floor) ==> ok
  {
    var reserved := Targets(entries, floor);
    var next := FIRST_PARKING;
    ghost var before := accounts.ids;
    ghost var given: set<int> := {};
    handed := [];
    SaneSinceNow(accounts.history, before, entries);
    for i := 0 to |entries|
      invariant Parking(before, accounts.ids, entries, i, next, reserved, given)
      invariant SaneSince(old(accounts.history), accounts.history, before, entries)
      invariant HandedOut(handed, next, reserved)
    {
      ghost var history := accounts.history;
      var id;
      ok, id, next := ParkEntry(accounts, entries, i, next, reserved, before, given);
      SaneSinceStep(old(accounts.history), history, accounts.ids, accounts.history, before, entries);
      if !ok {
        return;
      }
      if id.Some? {
        handed := handed + [id.value];
        given := given + {id.value};
      }
    }
    ok := true;
  }

  // ------------------------------------------------------------------ restoring

  /** After parking, the i-th archived id is held by nobody else. */
  lemma TargetFree(before: Ids, ids: Ids, entries: seq<Entry>, floor: int, i: nat)
    requires i < |entries| && Restored(entries[i], floor) && "" !in ids
    requires DistinctNames(entries) && DistinctTargets(entries, floor)
    requires NoForeignHolder(before, entries, floor) && ForeignUntouched(before, ids, entries)
    requires Settled(ids, entries, floor)
    ensures !TakenByOther(ids, entries[i].id, entries[i].name)
  {
  }

  /** Every archived account that exists is at its archived id or off every archived id. */
  ghost predicate Settled(ids: Ids, entries: seq<Entry>, floor: int) {
    forall j :: 0 <= j < |entries| && entries[j].name in ids ==>
      ids[entries[j].name] == entries[j].id || ids[entries[j].name] !in Targets(entries, floor)
  }

  /** What restoring keeps true after n entries; `parked` is the table it started from. */
  ghost predicate Restoring(parked: Ids, ids: Ids, entries: seq<Entry>, floor: int, n: nat)
    requires n <= |entries|
  {
    && Injective(ids) && ForeignUntouched(parked, ids, entries)
    && ("" in ids ==> "" in parked)
    && (DistinctNames(entries) ==>
          && Exact(ids, entries, floor, n)
          && (Settled(parked, entries, floor) ==> Settled(ids, entries, floor))
          && SkippedKept(parked, ids, entries, floor))
  }

  /** The archived accounts that restoring skips are as they were. */
  ghost predicate SkippedKept(parked: Ids, ids: Ids, entries: seq<Entry>, floor: int) {
    forall j :: 0 <= j < |entries| && !Restored(entries[j], floor) && entries[j].name in parked ==>
      entries[j].name in ids && ids[entries[j].name] == parked[entries[j].name]
  }

  lemma SettledUpdate(ids: Ids, entries: seq<Entry>, floor: int, n: nat)
    requires n < |entries| && DistinctNames(entries) && Settled(ids, entries, floor)
    ensures Settled(ids[entries[n].name := entries[n].id], entries, floor)
  {
  }

  lemma SkippedUpdate(parked: Ids, ids: Ids, entries: seq<Entry>, floor: int, n: nat)
    requires n < |entries| && DistinctNames(entries) && SkippedKept(parked, ids, entries, floor) && Restored(entries[n], floor)
    ensures SkippedKept(parked, ids[entries[n].name := entries[n].id], entries, floor)
  {
  }

  lemma RestoreOne(parked: Ids, ids: Ids, entries: seq<Entry>, floor: int, n: nat)
    requires n < |entries| && Restoring(parked, ids, entries, floor, n)
    requires Restored(entries[n], floor) && !TakenByOther(ids, entries[n].id, entries[n].name)
    ensures Restoring(parked, ids[entries[n].name := entries[n].id], entries, floor, n + 1)
  {
    var ids' := ids[entries[n].name := entries[n].id];
    assert Archived(entries, entries[n].name);
    InjectiveUpdate(ids, entries[n].name, entries[n].id);
    assert ForeignUntouched(parked, ids', entries);
    if DistinctNames(entries) {
      SkippedUpdate(parked, ids, entries, floor, n);
      if Settled(ids, entries, floor) {
        SettledUpdate(ids, entries, floor, n);
      }
    }
  }

  lemma RestoreNone(parked: Ids, ids: Ids, entries: seq<Entry>, floor: int, n: nat)
    requires n < |entries| && Restoring(parked, ids, entries, floor, n)
    requires Restored(entries[n], floor) ==> entries[n].name in ids && ids[entries[n].name] == entries[n].id
    ensures Restoring(parked, ids, entries, floor, n + 1)
  {
  }

  /** The conditions under which no target is contested. */
  ghost predicate Uncontested(ids: Ids, entries: seq<Entry>, floor: int) {
    DistinctNames(entries) && DistinctTargets(entries, floor) && NoForeignHolder(ids, entries, floor) && "" !in ids
  }

  /** The body of the restoring loop for one account. */
  method RestoreEntry(accounts: Accounts, entries: seq<Entry>, floor: int, i: nat, ghost parked: Ids)
    returns (created: bool, ok: bool)
    requires i < |entries| && Restoring(parked, accounts.ids, entries, floor, i)
    modifies accounts
    ensures Restoring(parked, accounts.ids, entries, floor, if ok then i + 1 else i)
    ensures accounts.history == old(accounts.history) || accounts.history == old(accounts.history) + [accounts.ids]
    ensures created ==> entries[i].name !in old(accounts.ids)
    ensures old(accounts.ids).Keys <= accounts.ids.Keys
    ensures (forall k :: accounts.fate(k)) && Uncontested(parked, entries, floor) && Settled(parked, entries, floor) ==> ok
  {
    created, ok := false, true;
    var entry := entries[i];
    if entry.name == "" || entry.id < floor {
      RestoreNone(parked, accounts.ids, entries, floor, i);
      return;
    }
    if Uncontested(parked, entries, floor) && Settled(parked, entries, floor) {
      TargetFree(parked, accounts.ids, entries, floor, i);
    }
    ghost var before := accounts.ids;
    if entry.name in accounts.ids {
      if accounts.ids[entry.name] == entry.id {
        RestoreNone(parked, before, entries, floor, i);
      } else {
        ok := accounts.Modify(entry.name, entry.id);
        if !ok {
          return;
        }
        RestoreOne(parked, before, entries, floor, i);
      }
      if entry.gid > 0 {
        ok := accounts.SetPrimaryGroup();
        RestoringWeakens(parked, accounts.ids, entries, floor, i);
      }
    } else {
      ok := accounts.Add(entry.name, entry.id);
      if ok {
        RestoreOne(parked, before, entries, floor, i);
        created := true;
      }
    }
  }

  lemma RestoringWeakens(parked: Ids, ids: Ids, entries: seq<Entry>, floor: int, n: nat)
    requires n < |entries| && Restoring(parked, ids, entries, floor, n + 1)
    ensures Restoring(parked, ids, entries, floor, n)
  {
  }

  /** The restoring half of applySystemIdentity for one table; `created` are the accounts that were missing. */
  method Restore(accounts: Accounts, entries: seq<Entry>, floor: int) returns (created: seq<string>, ok: bool)
    requires Injective(accounts.ids)
    modifies accounts
    ensures SaneSince(old(accounts.history), accounts.history, old(accounts.ids), entries)
    ensures Injective(accounts.ids) && ForeignUntouched(old(accounts.ids), accounts.ids, entries)
    ensures ok ==> Restoring(old(accounts.ids), accounts.ids, entries, floor, |entries|)
    ensures forall name :: name in created ==> name !in old(accounts.ids)
    ensures (forall k :: accounts.fate(k)) && Uncontested(old(accounts.ids), entries, floor) ==>
      Settled(old(accounts.ids), entries, floor) ==> ok
  {
    ghost var parked := accounts.ids;
    created, ok := [], true;
    SaneSinceNow(accounts.history, parked, entries);
    for i := 0 to |entries|
      invariant Restoring(parked, accounts.ids, entries, floor, i) && ok
      invariant parked.Keys <= accounts.ids.Keys
      invariant SaneSince(old(accounts.history), accounts.history, parked, entries)
      invariant forall name :: name in created ==> name !in parked
    {
      ghost var history := accounts.history;
      var isNew: bool;
      isNew, ok := RestoreEntry(accounts, entries, floor, i, parked);
      SaneSinceStep(old(accounts.history), history, accounts.ids, accounts.history, parked, entries);
      if !ok {
        return;
      }
      if isNew {
        created := created + [entries[i].name];
      }
    }
  }

  // ------------------------------------------------------------------ both tables

  /**
   Where restoring leaves the archived accounts: at the archived id, except that an account whose
   archived id is below the floor is skipped by restoring, and so stays parked if it was parked.
   */
  ghost predicate Placed(before: Ids, after: Ids, entries: seq<Entry>, floor: int) {
    forall i :: 0 <= i < |entries| ==>
      var Entry(name, id, _) := entries[i];
      if Restored(entries[i], floor) then name in after && after[name] == id
      else name in before ==>
        name in after &&
        if before[name] == id then after[name] == id
        else ParkedAt(after[name], LAST_PARKING - 1, Targets(entries, floor))
  }

  lemma Combine(before: Ids, parked: Ids, after: Ids, entries: seq<Entry>, floor: int)
    requires DistinctNames(entries) && parked.Keys == before.Keys
    requires Cleared(before, parked, entries, |entries|, LAST_PARKING - 1, Targets(entries, floor))
    requires Restoring(parked, after, entries, floor, |entries|)
    ensures Placed(before, after, entries, floor)
  {
  }

  lemma ParkedIsSettled(before: Ids, parked: Ids, entries: seq<Entry>, floor: int)
    requires parked.Keys == before.Keys && ForeignUntouched(before, parked, entries)
    requires DistinctNames(entries) ==>
      Cleared(before, parked, entries, |entries|, LAST_PARKING - 1, Targets(entries, floor))
    ensures Uncontested(before, entries, floor) ==> Uncontested(parked, entries, floor) && Settled(parked, entries, floor)
  {
  }

  /** Success is only possible when no target was contested. */
  lemma SuccessNeedsUncontested(before: Ids, after: Ids, entries: seq<Entry>, floor: int)
    requires Injective(after) && ForeignUntouched(before, after, entries)
    requires DistinctNames(entries) && Placed(before, after, entries, floor)
    ensures DistinctTargets(entries, floor) && NoForeignHolder(before, entries, floor)
  {
  }

  lemma SaneAppend(history: seq<Ids>, more: seq<Ids>, before: Ids, middle: Ids, entries: seq<Entry>)
    requires Sane(history, before, entries) && ForeignUntouched(before, middle, entries)
    requires SaneSince(history, more, middle, entries)
    ensures Sane(more, before, entries)
  {
  }

  /** What a table that was parked and then restored has come to. */
  lemma Concluded(before: Ids, parked: Ids, after: Ids, entries: seq<Entry>, floor: int)
    requires parked.Keys == before.Keys && Injective(after) && ForeignUntouched(before, after, entries)
    requires DistinctNames(entries) ==>
      Cleared(before, parked, entries, |entries|, LAST_PARKING - 1, Targets(entries, floor))
    requires Restoring(parked, after, entries, floor, |entries|)
    ensures DistinctNames(entries) ==>
      Placed(before, after, entries, floor) && DistinctTargets(entries, floor) && NoForeignHolder(before, entries, floor)
  {
    if DistinctNames(entries) {
      Combine(before, parked, after, entries, floor);
      SuccessNeedsUncontested(before, after, entries, floor);
    }
  }

  /** A table of which no state shared an id or touched an account outside the archive. */
  ghost predicate Kept(before: Ids, accounts: Accounts, entries: seq<Entry>)
    reads accounts
  {
    Sane(accounts.history, before, entries) && Injective(accounts.ids) && ForeignUntouched(before, accounts.ids, entries)
  }

  ghost predicate TableParked(before: Ids, ids: Ids, entries: seq<Entry>, floor: int) {
    && ids.Keys == before.Keys
    && (DistinctNames(entries) ==> Cleared(before, ids, entries, |entries|, LAST_PARKING - 1, Targets(entries, floor)))
  }

  /** Where success leaves a table, and what it shows about the archive. */
  ghost predicate TableRestored(before: Ids, ids: Ids, entries: seq<Entry>, floor: int) {
    DistinctNames(entries) ==>
      Placed(before, ids, entries, floor) && DistinctTargets(entries, floor) && NoForeignHolder(before, entries, floor)
  }

  method ParkTable(accounts: Accounts, entries: seq<Entry>, floor: int) returns (ok: bool)
    requires Injective(accounts.ids) && accounts.history == [accounts.ids]
    modifies accounts
    ensures Kept(old(accounts.ids), accounts, entries)
    ensures ok ==> TableParked(old(accounts.ids), accounts.ids, entries, floor)
    ensures (forall k :: accounts.fate(k)) && DistinctNames(entries) && EnoughParking(old(accounts.ids), entries, floor) ==> ok
  {
    ghost var before, history := accounts.ids, accounts.history;
    var handed;
    ok, handed := Park(accounts, entries, floor);
    SaneAppend(history, accounts.history, before, before, entries);
  }

  method RestoreTable(accounts: Accounts, entries: seq<Entry>, floor: int, ghost before: Ids)
    returns (created: seq<string>, ok: bool)
    requires Kept(before, accounts, entries) && TableParked(before, accounts.ids, entries, floor)
    modifies accounts
    ensures Kept(before, accounts, entries)
    ensures ok ==> TableRestored(before, accounts.ids, entries, floor)
    ensures forall name :: name in created ==> name !in before
    ensures (forall k :: accounts.fate(k)) && Uncontested(before, entries, floor) ==> ok
  {
    ghost var parked, history := accounts.ids, accounts.history;
    ParkedIsSettled(before, parked, entries, floor);
    created, ok := Restore(accounts, entries, floor);
    SaneAppend(history, accounts.history, before, parked, entries);
    if ok {
      Concluded(before, parked, accounts.ids, entries, floor);
    }
  }

  /**
   applySystemIdentity: park groups, park users, restore groups, restore users.  In every run, failed
   or not, no two accounts ever share an id and no account outside the archive changes.  A run that
   succeeds leaves every archived account at its archived id, whatever permutation it started from.
   Without external failures it succeeds when no target is contested and there are enough parking ids,
   and it cannot succeed when a target is contested.
   */
  method ApplySystemIdentity(groups0: Ids, users0: Ids, groups: seq<Entry>, users: seq<Entry>,
                             groupFate: nat -> bool, userFate: nat -> bool)
    returns (groups': Ids, users': Ids, created: seq<string>, ok: bool,
             ghost groupHistory: seq<Ids>, ghost userHistory: seq<Ids>)
    requires Injective(groups0) && Injective(users0)
    ensures Sane(groupHistory, groups0, groups) && Sane(userHistory, users0, users)
    ensures Injective(groups') && ForeignUntouched(groups0, groups', groups)
    ensures Injective(users') && ForeignUntouched(users0, users', users)
    ensures ok ==> TableRestored(groups0, groups', groups, 1) && TableRestored(users0, users', users, 0)
    ensures (forall k :: groupFate(k) && userFate(k)) ==>
      Uncontested(groups0, groups, 1) && EnoughParking(groups0, groups, 1) ==>
      Uncontested(users0, users, 0) && EnoughParking(users0, users, 0) ==> ok
    ensures forall name :: name in created ==> name !in users0
  {
    var g := new Accounts(groups0, groupFate);
    var u := new Accounts(users0, userFate);
    created := [];
    ok := ParkTable(g, groups, 1);
    if ok {
      ok := ParkTable(u, users, 0);
    }
    if ok {
      var _, restored := RestoreTable(g, groups, 1, groups0);
      ok := restored;
    }
    if ok {
      created, ok := RestoreTable(u, users, 0, users0);
    }
    groups', users', groupHistory, userHistory := g.ids, u.ids, g.history, u.history;
  }

  /** An archived account that existed ends at its archived id exactly when it is one to restore or was there already. */
  lemma PlacedExactly(before: Ids, after: Ids, entries: seq<Entry>, floor: int, i: nat)
    requires Placed(before, after, entries, floor) && floor <= LAST_PARKING
    requires i < |entries| && entries[i].name in before
    ensures entries[i].name in after
    ensures after[entries[i].name] == entries[i].id <==>
      Restored(entries[i], floor) || before[entries[i].name] == entries[i].id
    ensures after[entries[i].name] != entries[i].id ==> LAST_PARKING <= after[entries[i].name] <= FIRST_PARKING
  {
    if entries[i].id >= floor {
      assert entries[i].id in Targets(entries, floor);
    }
  }

  /** An archived group with id 0 that the host has under another id is parked and stays parked. */
  method GroupZeroStaysParked() returns (groups': Ids, ok: bool)
    ensures ok && "g" in groups' && LAST_PARKING <= groups'["g"] <= FIRST_PARKING
  {
    var before: Ids, groups := map["g" := 5], [Entry("g", 0, 0)];
    assert Targets(groups, 1) == {} && Targets([], 0) == {};
    assert Blocked(before, {}) == {} && Blocked(map[], {}) == {};
    var users', created;
    ghost var groupHistory, userHistory;
    groups', users', created, ok, groupHistory, userHistory :=
      ApplySystemIdentity(before, map[], groups, [], (k: nat) => true, (k: nat) => true);
    PlacedExactly(before, groups', groups, 1, 0);
  }
}
