/**
 * The webmail qualification that sends one message: a receipt is replaced on disk before and after the send, so that
 * whatever interrupts the program, the receipt tells whether the message may have been sent.
 */
module SendReceipt {
  import opened Bytes

  datatype Status = CREATED | AUTHENTICATED | SUBMITTING | SEND_UNCERTAIN | SENT | DELIVERED | PASS | FAIL

  datatype Message = Message(uid: nat, messageId: string, selfRecipient: bool)

  datatype State = State(
    status: Status, success: bool, sendAttempts: nat,
    httpSendCompleted: bool, selfRecipientVerified: bool, imapArrivalVerified: bool, imapMessageIdVerified: bool,
    roundcubeBodyVerified: bool, uid: Option<nat>, messageId: Option<string>, error: bool)

  const INITIAL: State := State(CREATED, false, 0, false, false, false, false, false, None, None, false)

  /** The receipt file: not there, created but not yet written out, or holding a whole record. */
  datatype Receipt = Missing | Partial | Record(state: State)

  /** What has really happened: send requests issued, and what the program has observed of them. */
  datatype Facts = Facts(posts: nat, confirmed: bool, arrived: bool, read: bool)

  /** Everything at one instant; a crash leaves the receipt of some instant behind. */
  datatype Instant = Instant(memory: State, receipt: Receipt, facts: Facts)

  // ----- What a receipt promises -----

  predicate Uncertain(status: Status) {
    status == SUBMITTING || status == SEND_UNCERTAIN
  }

  /** The claims a reader of the receipt relies on. */
  predicate Claims(i: Instant) {
    && i.facts.posts <= 1
    && (i.facts.posts == 1 ==> i.receipt.Record? && i.receipt.state.sendAttempts == 1)
    && (i.facts.posts == 1 && !i.facts.confirmed ==> Uncertain(i.receipt.state.status))
    && (i.receipt.Record? && i.receipt.state.status == FAIL ==>
        if i.receipt.state.sendAttempts == 0 then i.facts.posts == 0 else i.facts.confirmed)
    && (i.receipt.Record? && i.receipt.state.sendAttempts == 0 ==> i.facts.posts == 0)
    && (i.receipt.Record? && i.receipt.state.httpSendCompleted ==> i.facts.posts == 1 && i.facts.confirmed)
    && (i.receipt.Record? && i.receipt.state.imapArrivalVerified ==> i.facts.arrived)
    && (i.receipt.Record? && (i.receipt.state.status == PASS || i.receipt.state.success) ==>
        i.facts == Facts(1, true, true, true))
  }

  /** A record says no more than what has happened. */
  predicate Truthful(s: State, facts: Facts) {
    && s.sendAttempts <= 1
    && (s.sendAttempts == 0 ==> facts.posts == 0)
    && (s.httpSendCompleted ==> s.sendAttempts == 1 && facts.confirmed)
    && (s.status == CREATED || s.status == AUTHENTICATED ==> s.sendAttempts == 0)
    && (Uncertain(s.status) ==> s.sendAttempts == 1 && !s.httpSendCompleted)
    && (s.status == SENT || s.status == DELIVERED || s.status == PASS ==> s.httpSendCompleted)
    && (s.status == FAIL ==> s.sendAttempts == 0 || s.httpSendCompleted)
    && (s.imapArrivalVerified || s.selfRecipientVerified || s.imapMessageIdVerified ==> facts.arrived)
    && (s.roundcubeBodyVerified ==> facts.read)
    && (s.status == PASS ==> s.success)
    && (s.success ==> s.httpSendCompleted && s.imapArrivalVerified && s.roundcubeBodyVerified)
  }

  /** The invariant of every step. */
  predicate Safe(i: Instant) {
    && Truthful(i.memory, i.facts)
    && (i.receipt.Record? ==> Truthful(i.receipt.state, i.facts))
    && i.facts.posts <= 1
    && (i.facts.posts == 1 ==> i.receipt.Record?)
    && (i.facts.confirmed ==> i.facts.posts == 1)
  }

  /** Between two instants one thing changes, what has happened stays so, and a record is replaced whole by the state. */
  predicate Step(a: Instant, b: Instant) {
    && (b == a.(memory := b.memory) || b == a.(receipt := b.receipt) || b == a.(facts := b.facts))
    && a.facts.posts <= b.facts.posts <= a.facts.posts + 1
    && (a.facts.confirmed ==> b.facts.confirmed) && (a.facts.arrived ==> b.facts.arrived) && (a.facts.read ==> b.facts.read)
    && (b.receipt == a.receipt || b.receipt == Record(a.memory) || (a.receipt.Missing? && b.receipt.Partial?))
  }

  /** A history of single steps through safe instants. */
  ghost predicate Run(history: seq<Instant>) {
    && (forall i :: 0 <= i < |history| ==> Safe(history[i]))
    && forall i :: 0 < i < |history| ==> Step(history[i - 1], history[i])
  }

  lemma SafeClaims(i: Instant)
    requires Safe(i)
    ensures Claims(i)
  {
  }

  /** The step that issues the send leaves the receipt alone, which counts it on both sides. */
  lemma SendStep(a: Instant, b: Instant)
    requires Step(a, b) && Safe(b) && a.facts.posts == 0 && b.facts.posts == 1
    ensures Counts(a) && Counts(b)
  {
  }

  /** In a history of single steps the receipt counts the send at an instant `j` before it is issued, and keeps counting it. */
  lemma {:induction false} WriteAhead(history: seq<Instant>, n: nat) returns (j: nat)
    requires Run(history) && n < |history| && history[0].facts.posts == 0 && history[n].facts.posts == 1
    ensures j < n && history[j].facts.posts == 0 && Counts(history[j]) && IssuedFrom(history, j, n)
  {
    assert Step(history[n - 1], history[n]) && Safe(history[n]);
    if history[n - 1].facts.posts == 0 {
      j := n - 1;
      SendStep(history[n - 1], history[n]);
    } else {
      j := WriteAhead(history, n - 1);
      assert Counts(history[n]);
    }
  }

  predicate Counts(i: Instant) {
    i.receipt.Record? && i.receipt.state.sendAttempts == 1
  }

  /** After instant `j` the one send has been issued and the receipt counts it. */
  ghost predicate IssuedFrom(history: seq<Instant>, j: nat, n: nat)
    requires n < |history|
  {
    forall i :: j < i <= n ==> history[i].facts.posts == 1 && Counts(history[i])
  }

  // ----- The outside world -----

  /** How an outside call ends; `Dies` is whatever the exception handler does not see. */
  datatype End = Returns | Raises | RaisesOSError | Dies

  /** The end of one call, the time it took, whether a failed call still had its effect, and what it answered. */
  datatype Fate = Fate(end: End, elapsed: nat, acted: bool, confirms: bool, message: Option<Message>, found: nat, bodyMatches: bool)

  datatype Signal = Go | Raise | Die

  function SignalOf(end: End): Signal {
    match end
    case Returns => Go
    case Raises => Raise
    case RaisesOSError => Raise
    case Dies => Die
  }

  /** No call fails or takes time, and the mailbox, the server and the page answer as hoped, at the first poll. */
  ghost predicate Smooth(fate: nat -> Fate) {
    && (forall k :: fate(k).end.Returns? && fate(k).elapsed == 0)
    && fate(4).message.None? && fate(6).confirms
    && fate(8).message.Some? && fate(8).message.value.selfRecipient
    && fate(10).found == 1 && fate(10).bodyMatches
    && fate(11).message == fate(8).message
  }

  class Qualifier {
    const fate: nat -> Fate
    const deadline: int
    const pollInterval: nat
    var calls: nat
    var now: int
    var state: State
    var receipt: Receipt
    ghost var facts: Facts
    ghost var history: seq<Instant>

    ghost function Here(): Instant
      reads this
    {
      Instant(state, receipt, facts)
    }

    ghost predicate Valid()
      reads this
    {
      pollInterval > 0 && Run(history) && |history| > 0 && history[|history| - 1] == Here()
    }

    constructor (fate: nat -> Fate, now: int, timeout: nat, pollInterval: nat)
      requires pollInterval > 0
      ensures Valid() && state == INITIAL && receipt == Missing && facts == Facts(0, false, false, false) && history == [Here()]
      ensures this.fate == fate && this.now == now && this.calls == 0 && this.deadline == now + timeout
    {
      this.fate, this.deadline, this.pollInterval := fate, now + timeout, pollInterval;
      this.now, calls := now, 0;
      state, receipt, facts := INITIAL, Missing, Facts(0, false, false, false);
      history := [Instant(INITIAL, Missing, Facts(0, false, false, false))];
    }

    /** A smooth run in time, about to make its n-th call. */
    ghost predicate OnTrack(n: nat)
      reads this
    {
      Smooth(fate) && calls == n && now < deadline
    }

    ghost predicate Extends(earlier: seq<Instant>)
      reads this
    {
      |earlier| <= |history| && forall i :: 0 <= i < |earlier| ==> history[i] == earlier[i]
    }

    /** One outside call; time passes. */
    method Call() returns (f: Fate)
      requires Valid()
      modifies this`calls, this`now
      ensures Valid() && now == old(now) + f.elapsed
      ensures f == fate(old(calls)) && calls == old(calls) + 1
    {
      f := fate(calls);
      calls, now := calls + 1, now + f.elapsed;
    }

    /** Assigns the in-memory state. */
    method Become(next: State)
      requires Valid() && Truthful(next, facts)
      modifies this`state, this`history
      ensures Valid() && state == next && Extends(old(history))
    {
      state := next;
      history := history + [Here()];
    }

    /** Something happens in the world. */
    ghost method Happens(next: Facts)
      requires Valid() && Safe(Here().(facts := next)) && Step(Here(), Here().(facts := next))
      modifies this`facts, this`history
      ensures Valid() && facts == next && Extends(old(history))
    {
      facts := next;
      history := history + [Here()];
    }

    /** The receipt file changes. */
    method Put(next: Receipt)
      requires Valid() && (next == Record(state) || (receipt.Missing? && next.Partial?))
      modifies this`receipt, this`history
      ensures Valid() && receipt == next && Extends(old(history))
    {
      receipt := next;
      history := history + [Here()];
    }

    /** Writes the state to a new file and renames it over the receipt. */
    method Save() returns (signal: Signal)
      requires Valid()
      modifies this`calls, this`now, this`receipt, this`history
      ensures Valid() && now >= old(now) && Extends(old(history))
      ensures signal.Go? ==> receipt == Record(state)
      ensures receipt == old(receipt) || receipt == Record(state)
      ensures old(OnTrack(calls)) ==> signal.Go? && OnTrack(old(calls) + 1)
    {
      var f := Call();
      signal := SignalOf(f.end);
      if signal.Go? || f.acted {
        Put(Record(state));
      }
    }

    /** Creates the receipt; the first write is not atomic. */
    method Open() returns (signal: Signal)
      requires Valid() && state == INITIAL && receipt == Missing && facts == Facts(0, false, false, false)
      modifies this`calls, this`now, this`receipt, this`history
      ensures Valid() && Extends(old(history))
      ensures old(OnTrack(0)) ==> signal.Go? && OnTrack(2)
    {
      var f := Call();
      signal := SignalOf(f.end);
      if signal.Go? || f.acted {
        Put(Partial);
      }
      if signal.Go? {
        f := Call();
        signal := SignalOf(f.end);
        if signal.Go? || f.acted {
          Put(Record(state));
        }
      }
    }

    /** Issues the send request, at most once, and only on a receipt that already counts it. */
    method Post() returns (f: Fate)
      requires Valid() && facts.posts == 0 && !facts.confirmed
      requires state.sendAttempts == 1 && receipt == Record(state)
      modifies this`calls, this`now, this`facts, this`history
      ensures Valid() && Extends(old(history))
      ensures f.end.Returns? && f.confirms ==> facts == old(facts).(posts := 1, confirmed := true)
      ensures old(OnTrack(6)) ==> f.end.Returns? && f.confirms && OnTrack(7)
    {
      if now >= deadline {
        return fate(calls).(end := Raises);
      }
      f := Call();
      if f.end.Returns? || f.acted {
        Happens(facts.(posts := 1));
      }
      if f.end.Returns? && f.confirms {
        Happens(facts.(confirmed := true));
      }
    }

    /** Login, and the receipt that says so. */
    method Authenticate() returns (signal: Signal)
      requires Valid() && state == INITIAL && facts.posts == 0
      modifies this`calls, this`now, this`state, this`receipt, this`history
      ensures Valid() && Extends(old(history))
      ensures signal.Go? ==> state.status == AUTHENTICATED && state.sendAttempts == 0
      ensures state.sendAttempts == 0
      ensures old(OnTrack(2)) ==> signal.Go? && OnTrack(4)
    {
      var f := Call();
      signal := SignalOf(f.end);
      if signal.Go? {
        Become(state.(status := AUTHENTICATED));
        signal := Save();
      }
    }

    /** The compose form, the inbox, and the receipt written ahead of the send. */
    method Prepare() returns (signal: Signal)
      requires Valid() && state.status == AUTHENTICATED && !state.success && !state.httpSendCompleted && facts.posts == 0
      modifies this`calls, this`now, this`state, this`receipt, this`history
      ensures Valid() && Extends(old(history))
      ensures signal.Go? ==> state.status == SUBMITTING && state.sendAttempts == 1 && receipt == Record(state)
      ensures old(OnTrack(4)) ==> signal.Go? && OnTrack(6)
    {
      var f := Call();
      signal := SignalOf(f.end);
      if signal.Go? && f.message.Some? {
        signal := Raise;
      }
      if signal.Go? {
        Become(state.(status := SUBMITTING, sendAttempts := 1));
        signal := Save();
      }
    }

    /** The send itself. */
    method Send() returns (signal: Signal)
      requires Valid() && facts.posts == 0 && !facts.confirmed
      requires state.status == SUBMITTING && receipt == Record(state)
      modifies this`calls, this`now, this`state, this`receipt, this`facts, this`history
      ensures Valid() && Extends(old(history))
      ensures signal.Go? ==> state.status == SENT && facts.confirmed
      ensures old(OnTrack(6)) ==> signal.Go? && OnTrack(8)
    {
      var f := Post();
      if f.end.RaisesOSError? {
        Become(state.(status := SEND_UNCERTAIN));
      }
      signal := SignalOf(f.end);
      if signal.Go? && !f.confirms {
        signal := Raise;
      }
      if signal.Go? {
        Become(state.(status := SENT, httpSendCompleted := true));
        signal := Save();
      }
    }

    /** Sleeps for the poll interval or until the deadline, whichever comes first. */
    method Sleep() returns (signal: Signal)
      requires Valid()
      modifies this`calls, this`now
      ensures Valid() && now >= old(now)
      ensures signal.Go? ==> now > old(now)
    {
      var left := deadline - now;
      if left <= 0 {
        return Raise;
      }
      var f := Call();
      signal := SignalOf(f.end);
      now := now + if left < pollInterval then left else pollInterval;
    }

    /** Polls the inbox until the message is there or the time is up. */
    method AwaitDelivery() returns (signal: Signal, message: Option<Message>)
      requires Valid() && facts.confirmed && state.status == SENT
      modifies this`calls, this`now, this`state, this`receipt, this`facts, this`history
      ensures Valid() && Extends(old(history))
      ensures signal.Go? ==> message.Some? && message.value.selfRecipient && state.status == DELIVERED && facts.confirmed
      ensures signal.Go? ==> state.imapArrivalVerified && state.uid == Some(message.value.uid)
      ensures old(OnTrack(8)) ==> signal.Go? && OnTrack(10) && message == fate(8).message
    {
      signal, message := PollInbox();
      if !signal.Go? {
        return;
      }
      if !message.value.selfRecipient {
        return Raise, message;
      }
      Happens(facts.(arrived := true));
      Become(state.(status := DELIVERED, uid := Some(message.value.uid), messageId := Some(message.value.messageId),
                    selfRecipientVerified := true, imapArrivalVerified := true, imapMessageIdVerified := true));
      signal := Save();
    }

    method PollInbox() returns (signal: Signal, message: Option<Message>)
      requires Valid()
      modifies this`calls, this`now
      ensures Valid() && (signal.Go? ==> message.Some?)
      ensures old(OnTrack(8)) ==> signal.Go? && OnTrack(9) && message == fate(8).message
    {
      message := None;
      while message.None?
        invariant Valid()
        invariant old(OnTrack(8)) ==> if message.None? then OnTrack(8) else OnTrack(9) && message == fate(8).message
        decreases message.None?, deadline - now
      {
        if now >= deadline {
          return Raise, message;
        }
        var f := Call();
        if !f.end.Returns? {
          return SignalOf(f.end), message;
        }
        message := f.message;
        if message.None? {
          signal := Sleep();
          if !signal.Go? {
            return;
          }
        }
      }
      signal := Go;
    }

    /** Polls the message page until its body is there or the time is up. */
    method AwaitBody() returns (signal: Signal)
      requires Valid()
      modifies this`calls, this`now, this`facts, this`history
      ensures Valid() && Extends(old(history))
      ensures facts == old(facts).(read := facts.read)
      ensures signal.Go? ==> facts.read
      ensures old(OnTrack(10)) ==> signal.Go? && OnTrack(11)
    {
      var found := false;
      while !found
        invariant Valid() && history == old(history) && facts == old(facts)
        invariant old(OnTrack(10)) ==> if found then OnTrack(11) else OnTrack(10)
        decreases !found, deadline - now
      {
        if now >= deadline {
          return Raise;
        }
        var f := Call();
        if !f.end.Returns? {
          return SignalOf(f.end);
        }
        if f.found > 0 {
          if f.found != 1 || !f.bodyMatches {
            return Raise;
          }
          found := true;
        } else {
          signal := Sleep();
          if !signal.Go? {
            return;
          }
        }
      }
      Happens(facts.(read := true));
      signal := Go;
    }

    /** The message is still the same, the deadline has not passed, and its timer is cancelled. */
    method Finish(message: Message) returns (signal: Signal)
      requires Valid() && facts.read && state.status == DELIVERED && state.imapArrivalVerified
      modifies this`calls, this`now, this`state, this`receipt, this`history
      ensures Valid() && Extends(old(history))
      ensures signal.Go? ==> state.status == PASS && receipt == Record(state)
      ensures old(OnTrack(11)) && Some(message) == fate(11).message ==> signal.Go?
    {
      var f := Call();
      if f.end.Returns? && (f.message != Some(message) || now >= deadline) {
        return Raise;
      }
      signal := SignalOf(f.end);
      if signal.Go? {
        f := Call();
        signal := SignalOf(f.end);
      }
      if signal.Go? {
        Become(state.(status := PASS, success := true, roundcubeBodyVerified := true));
        signal := Save();
      }
    }

    /** The statements under the exception handler. */
    method Attempt() returns (signal: Signal)
      requires Valid() && state == INITIAL && facts == Facts(0, false, false, false)
      modifies this`calls, this`now, this`state, this`receipt, this`facts, this`history
      ensures Valid() && Extends(old(history))
      ensures signal.Go? ==> state.status == PASS && receipt == Record(state)
      ensures old(OnTrack(2)) ==> signal.Go?
    {
      signal := Submit();
      if signal.Go? {
        signal := Confirm();
      }
    }

    /** Up to the acknowledged send. */
    method Submit() returns (signal: Signal)
      requires Valid() && state == INITIAL && facts == Facts(0, false, false, false)
      modifies this`calls, this`now, this`state, this`receipt, this`facts, this`history
      ensures Valid() && Extends(old(history))
      ensures signal.Go? ==> state.status == SENT && facts.confirmed
      ensures old(OnTrack(2)) ==> signal.Go? && OnTrack(8)
    {
      signal := Authenticate();
      if signal.Go? {
        signal := Prepare();
      }
      if signal.Go? {
        signal := Send();
      }
    }

    /** From the acknowledged send to the verified message. */
    method Confirm() returns (signal: Signal)
      requires Valid() && facts.confirmed && state.status == SENT
      modifies this`calls, this`now, this`state, this`receipt, this`facts, this`history
      ensures Valid() && Extends(old(history))
      ensures signal.Go? ==> state.status == PASS && receipt == Record(state)
      ensures old(OnTrack(8)) ==> signal.Go?
    {
      var message;
      signal, message := AwaitDelivery();
      if signal.Go? {
        signal := AwaitBody();
      }
      if signal.Go? {
        signal := Finish(message.value);
      }
    }

    /** The exception handler: an unacknowledged send stays uncertain, anything else has failed. */
    method Handle()
      requires Valid()
      modifies this`calls, this`now, this`state, this`receipt, this`history
      ensures Valid() && Extends(old(history))
    {
      var f := Call();
      if f.end.Returns? {
        var status := if Uncertain(state.status) then SEND_UNCERTAIN else FAIL;
        Become(state.(status := status, error := true));
        var _ := Save();
      }
    }

    /**
     * Every instant of every run, and so every point at which it can be interrupted, meets the claims; a run that
     * returns leaves a receipt that says the whole exchange took place.
     */
    method Qualify() returns (passed: bool)
      requires Valid() && state == INITIAL && receipt == Missing && facts == Facts(0, false, false, false)
      requires history == [Here()]
      modifies this
      ensures |history| > 0 && history[0] == old(Here()) && history[|history| - 1] == Here()
      ensures Run(history)
      ensures forall i :: 0 <= i < |history| ==> Claims(history[i])
      ensures passed ==> receipt.Record? && receipt.state.status == PASS && facts == Facts(1, true, true, true)
      ensures old(OnTrack(0)) ==> passed
    {
      var signal := Open();
      if !signal.Go? {
        passed := false;
      } else {
        signal := Attempt();
        if signal.Raise? {
          Handle();
        }
        passed := signal.Go?;
      }
      forall i | 0 <= i < |history| ensures Claims(history[i]) {
        SafeClaims(history[i]);
      }
    }
  }

  /** One qualification against any outside world, with everything it passed through. */
  method RunQualification(fate: nat -> Fate, now: int, timeout: nat, pollInterval: nat)
    returns (passed: bool, receipt: Receipt, ghost history: seq<Instant>)
    requires timeout > 0 && pollInterval > 0
    ensures Run(history) && history != [] && history[0] == Instant(INITIAL, Missing, Facts(0, false, false, false))
    ensures forall i :: 0 <= i < |history| ==> Claims(history[i])
    ensures history[|history| - 1].receipt == receipt
    ensures passed ==> receipt.Record? && receipt.state.status == PASS
    ensures Smooth(fate) ==> passed
  {
    var q := new Qualifier(fate, now, timeout, pollInterval);
    passed := q.Qualify();
    receipt, history := q.receipt, q.history;
  }
}
