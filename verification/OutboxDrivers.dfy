// The command log as the browser runs it: the stored list is rewritten by each call, and the
// drivers read the list, mark attempts, send and mark outcomes.
module OutboxDrivers {
  import opened OperationalOutbox
  import opened Options
  import OutboxLaziness
  import opened OutboxReconcile
  import opened OutboxRuns
  import opened OutboxVerdicts

  class Outbox {
    const settings: Settings
    var entries: seq<Entry>
    ghost var log: seq<Event>

    ghost predicate Valid()
      reads this
    {
      UniqueKeys(entries)
    }

    ghost function Now(): State
      reads this
    {
      State(entries, log)
    }

    constructor (settings: Settings, stored: seq<Entry>)
      ensures this.settings == settings && Now() == State(stored, [])
    {
      this.settings, entries, log := settings, stored, [];
    }

    method List(now: int) returns (view: seq<Entry>)
      ensures view == Prune(entries, now)
    {
      view := Prune(entries, now);
    }

    method Enqueue(input: Input, now: int) returns (r: Result<Entry>)
      modifies this
      ensures r == EnqueueStep(settings, old(entries), input, now).result
      ensures Now() == Store(settings, old(Now()), input, now)
    {
      var refusal := settings.refusal(input.key, input.command);
      if refusal.Some? { return Err(refusal.value); }
      var kept := Prune(entries, now);
      var i := IndexOf(kept, input.key);
      if i < |kept| {
        if kept[i].command.payload != input.command.payload || kept[i].command.path != input.command.path {
          return Err(KeyReused);
        }
        return Ok(kept[i]);
      }
      if ActiveCount(kept) >= settings.capacity { return Err(OutboxFull); }
      entries := kept + [NewEntry(input, now)];
      log := log + [Stored(input.key, input.command)];
      r := Ok(NewEntry(input, now));
    }

    method Update(key: string, change: Change, now: int) returns (r: Result<Entry>)
      modifies `entries
      ensures Step(r, entries) == UpdateStep(old(entries), key, change, now)
    {
      var kept := Prune(entries, now);
      var i := IndexOf(kept, key);
      if i == |kept| { return Err(NotFound); }
      entries := kept[i := Changed(kept[i], change)];
      r := Ok(entries[i]);
    }

    method ResolveManually(key: string, now: int) returns (r: Result<Entry>)
      modifies this
      ensures r == UpdateStep(old(entries), key, Resolve(now), now).result
      ensures Now() == Perform(settings, old(Now()), CallResolve(key, now))
      ensures r.Ok? ==> r.value.status.Confirmed? && r.value in entries
    {
      ghost var i := IndexOf(Prune(entries, now), key);
      r := Update(key, Resolve(now), now);
      assert r.Ok? ==> entries[i] == r.value;
    }

    method Discard(key: string, now: int) returns (r: Result<()>)
      modifies this
      ensures r == DiscardStep(old(entries), key, now).result
      ensures Now() == Perform(settings, old(Now()), CallDiscard(key, now))
      ensures r.Ok? ==> forall e :: e in entries ==> e.key != key
    {
      var kept := Prune(entries, now);
      var next := Without(kept, key);
      WithoutElements(kept, key);
      if |next| == |kept| { return Err(NotFound); }
      entries := next;
      r := Ok(());
    }

    method PruneConfirmed(now: int) returns (removed: int)
      modifies this
      ensures Now() == Perform(settings, old(Now()), CallPrune(now))
      ensures removed == |old(entries)| - |entries| == OutboxLaziness.RemovedCount(old(entries), now)
    {
      var next := Prune(entries, now);
      removed := |entries| - |next|;
      entries := next;
    }

    /** Mark the attempt, send, mark the outcome. */
    method Deliver(e: Entry, reply: Reply) returns (r: Result<Entry>)
      requires Valid() && e in entries && !e.status.Confirmed?
      modifies this
      ensures Now() == OperationalOutbox.Deliver(old(Now()), e, reply) && Valid()
      ensures Delivered(e, reply) in entries && LeftBy(e, reply, Delivered(e, reply))
      ensures match reply.answer
              case Accepted(_, _) => r == Ok(Delivered(e, reply)) && r.value.status.Confirmed?
              case Rejected(_, message) => r == Err(SendFailed(message)) && !Delivered(e, reply).status.Confirmed?
    {
      DeliverReplaces(Now(), e, reply);
      DeliveredIsLeft(e, reply);
      ghost var tried := Changed(e, Attempt(reply.attemptAt));
      UpdateReplaces(entries, e, Attempt(reply.attemptAt), reply.attemptAt);
      var attempt := Update(e.key, Attempt(reply.attemptAt), reply.attemptAt);
      log := log + [Sent(e.key, e.command, reply.answer.Accepted?)];
      UpdateReplaces(entries, tried, Settlement(e, reply), reply.settledAt);
      match reply.answer {
        case Accepted(_, _) =>
          r := Update(e.key, Confirm(ReceiptFrom(e, reply.answer, reply.receiptAt)), reply.settledAt);
        case Rejected(status, message) =>
          var marked := Update(e.key, Fail(message, !IsDeterministic(status), reply.settledAt), reply.settledAt);
          r := Err(SendFailed(message));
      }
    }
  }

  /** A scope and a capacity are checked first; the default capacity is a hundred. */
  method CreateOperationalOutbox(tenantId: string, branchId: string, maxActiveEntries: Option<int>, stored: seq<Entry>)
    returns (outbox: Outbox?)
    ensures outbox == null <==>
            tenantId == "" || branchId == "" || (maxActiveEntries.Some? && maxActiveEntries.value < 1)
    ensures outbox != null ==>
              && fresh(outbox) && outbox.Now() == State(stored, [])
              && outbox.settings ==
                 Standard(if maxActiveEntries.Some? then maxActiveEntries.value else 100)
  {
    if tenantId == "" || branchId == "" { return null; }
    var capacity := if maxActiveEntries.Some? then maxActiveEntries.value else DEFAULT_CAPACITY;
    if capacity < 1 { return null; }
    outbox := new Outbox(Standard(capacity), stored);
  }

  datatype Executed = Executed(entry: Entry, replayed: bool)

  /** Execute: a command already confirmed is answered from the store and not sent. */
  method ExecuteOperationalCommand(outbox: Outbox, input: Input, now: int, reply: Reply) returns (r: Result<Executed>)
    requires outbox.Valid()
    modifies outbox
    ensures outbox.Now() == Execute(outbox.settings, old(outbox.Now()), input, now, reply) && outbox.Valid()
    ensures r.Ok? && r.value.replayed ==>
            outbox.Now() == old(outbox.Now()) && r.value.entry in Prune(outbox.entries, now)
    ensures r.Ok? ==>
            r.value.entry.status.Confirmed? && r.value.entry.key == input.key && r.value.entry in outbox.entries
    ensures r.Ok? && !r.value.replayed ==> reply.answer.Accepted? && |outbox.log| > |old(outbox.log)|
    ensures r.Err? ==>
            || (outbox.Now() == old(outbox.Now())
                && EnqueueStep(outbox.settings, old(outbox.entries), input, now).result == Err(r.failure))
            || (|outbox.log| > |old(outbox.log)| && reply.answer.Rejected?
                && r.failure == SendFailed(reply.answer.message))
  {
    if EnqueueStep(outbox.settings, outbox.entries, input, now).result.Ok? {
      EnqueuedIsStored(outbox.settings, outbox.Now(), input, now);
    }
    StoreKeepsKeysUnique(outbox.settings, outbox.Now(), input, now);
    PruneElements(outbox.entries, now);
    var stored := outbox.Enqueue(input, now);
    if stored.Err? { return Err(stored.failure); }
    if stored.value.status.Confirmed? { return Ok(Executed(stored.value, true)); }
    var sent := outbox.Deliver(stored.value, reply);
    if sent.Err? { return Err(sent.failure); }
    r := Ok(Executed(sent.value, false));
  }

  lemma StoreKeepsKeysUnique(settings: Settings, s: State, input: Input, now: int)
    requires UniqueKeys(s.entries)
    ensures UniqueKeys(Store(settings, s, input, now).entries)
  {
    PruneKeepsKeysUnique(s.entries, now);
    PruneElements(s.entries, now);
  }

  /** Retry by hand: only an entry marked replayable, and not one already confirmed. */
  method RetryOperationalOutboxEntry(outbox: Outbox, key: string, now: int, reply: Reply) returns (r: Result<Entry>)
    requires outbox.Valid()
    modifies outbox
    ensures outbox.Now() == Retry(old(outbox.Now()), key, now, reply) && outbox.Valid()
    ensures r.Ok? ==>
            r.value.status.Confirmed? && r.value.key == key && r.value.replayable == Some(true)
              && r.value in outbox.entries
    ensures r == Err(NotFound) <==> forall e :: e in Prune(old(outbox.entries), now) ==> e.key != key
    ensures r == Err(NotReplayable) <==>
            exists e :: e in Prune(old(outbox.entries), now) && e.key == key && e.replayable != Some(true)
    ensures r == Err(NotFound) || r == Err(NotReplayable) ==> outbox.Now() == old(outbox.Now())
    ensures r.Err? && r.failure != NotFound && r.failure != NotReplayable ==>
            reply.answer.Rejected? && r.failure == SendFailed(reply.answer.message)
  {
    PruneElements(outbox.entries, now);
    var view := outbox.List(now);
    var i := IndexOf(view, key);
    if i == |view| { return Err(NotFound); }
    assert view[i] in view;
    if view[i].replayable != Some(true) { return Err(NotReplayable); }
    if view[i].status.Confirmed? { return Ok(view[i]); }
    r := outbox.Deliver(view[i], reply);
  }

  /** One pass over the entries that wait, may be replayed and have attempts left. */
  method ReconcileOperationalOutbox(outbox: Outbox, now: int, maxAttempts: int, replies: nat -> Reply)
    returns (summary: Summary)
    requires outbox.Valid()
    modifies outbox
    ensures outbox.Now() == Reconcile(old(outbox.Now()), now, maxAttempts, replies) && outbox.Valid()
    ensures var n := |Todo(old(outbox.Now()), now, maxAttempts)|;
            summary == Summary(
              |Among(HasAccepted, n, replies)|, |Among(IsRefusal, n, replies)|, |Among(IsUnclear, n, replies)|)
    ensures summary.confirmed + summary.failed + summary.requiresAttention ==
            |Todo(old(outbox.Now()), now, maxAttempts)|
    ensures |outbox.log| == |old(outbox.log)| + |Todo(old(outbox.Now()), now, maxAttempts)|
  {
    ghost var s := outbox.Now();
    var view := outbox.List(now);
    var todo := Eligible(view, maxAttempts);
    TodoIsDeliverable(s, now, maxAttempts);
    summary := Summary(0, 0, 0);
    var i := 0;
    while i < |todo|
      invariant i <= |todo| && outbox.Valid()
      invariant outbox.Now() == DeliverAll(s, todo[..i], replies)
      invariant summary == SummaryOf(i, replies)
      invariant |outbox.log| == |s.log| + i
    {
      NextDelivery(s, todo, i, replies);
      var sent := outbox.Deliver(todo[i], replies(i));
      summary := Counted(summary, replies(i).answer);
      i := i + 1;
    }
    assert todo[..i] == todo;
    CountersAddUp(i, replies);
    CountersAre(i, replies);
  }

  lemma {:induction false} NextDelivery(s: State, todo: seq<Entry>, i: nat, replies: nat -> Reply)
    requires UniqueKeys(s.entries) && Deliverable(s, todo) && i < |todo|
    ensures var mid := DeliverAll(s, todo[..i], replies);
            && UniqueKeys(mid.entries) && todo[i] in mid.entries && !todo[i].status.Confirmed?
            && DeliverAll(s, todo[..i + 1], replies) == Deliver(mid, todo[i], replies(i))
            && |Deliver(mid, todo[i], replies(i)).log| == |mid.log| + 1
  {
    var some := todo[..i + 1];
    assert Deliverable(s, some);
    assert some[..i] == todo[..i];
    LastIsThere(s, some, replies);
    DeliverReplaces(DeliverAll(s, todo[..i], replies), todo[i], replies(i));
  }
}
