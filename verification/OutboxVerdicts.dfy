// What the command log decides, written out: which answers are final, what an answer leaves and what
// the next pass makes of it, what a pass reports, what is kept, what is refused.
module OutboxVerdicts {
  import opened OperationalOutbox
  import opened Options
  import opened OutboxReconcile
  import opened OutboxRuns
  import opened SafePayload

  // ---- one answer ---------------------------------------------------------------------

  /** The server has refused the command itself: asking again cannot help. */
  ghost predicate IsFinal(status: Option<int>) {
    status.Some? && status.value / 100 == 4 && status.value !in {408, 409, 425, 429}
  }

  /** The identifier of a receipt: the first one given that is a nonempty text, else the key. */
  ghost predicate NamesReceipt(id: string, ids: seq<Option<string>>, key: string) {
    || (id == key && forall i :: 0 <= i < |ids| ==> ids[i] == None || ids[i] == Some(""))
    || exists i :: 0 <= i < |ids| && ids[i] == Some(id) && id != "" &&
         forall j :: 0 <= j < i ==> ids[j] == None || ids[j] == Some("")
  }

  lemma {:induction false} FirstIdNames(ids: seq<Option<string>>, key: string)
    ensures NamesReceipt(if FirstId(ids).Some? then FirstId(ids).value else key, ids, key)
  {
    if ids != [] && !(ids[0].Some? && ids[0].value != "") {
      FirstIdNames(ids[1..], key);
      var id := if FirstId(ids).Some? then FirstId(ids).value else key;
      if exists i :: 0 <= i < |ids[1..]| && ids[1..][i] == Some(id) && id != "" &&
          forall j :: 0 <= j < i ==> ids[1..][j] == None || ids[1..][j] == Some("")
      {
        var i :| 0 <= i < |ids[1..]| && ids[1..][i] == Some(id) && id != "" &&
          forall j :: 0 <= j < i ==> ids[1..][j] == None || ids[1..][j] == Some("");
        assert ids[i + 1] == Some(id);
        forall j | 0 <= j < i + 1 ensures ids[j] == None || ids[j] == Some("") {
          if j > 0 { assert ids[1..][j - 1] == ids[j]; }
        }
      } else {
        forall j | 0 <= j < |ids| ensures ids[j] == None || ids[j] == Some("") {
          if j > 0 { assert ids[1..][j - 1] == ids[j]; }
        }
      }
    }
  }

  /** The entry `x` that an answer leaves of `e`: one more attempt; confirmed with a receipt, failed for
      good after a final refusal, and otherwise waiting for attention. */
  ghost predicate LeftBy(e: Entry, reply: Reply, x: Entry) {
    && x.key == e.key && x.command == e.command && x.replayable == e.replayable && x.createdAt == e.createdAt
    && x.attempts == e.attempts + 1
    && match reply.answer
       case Accepted(ids, version) =>
         && x.status == Confirmed && x.error == None && x.updatedAt == At(reply.receiptAt)
         && x.receipt.Some? && x.receipt.value.version == version
         && x.receipt.value.confirmedAt == At(reply.receiptAt)
         && NamesReceipt(x.receipt.value.operationId, ids, e.key)
       case Rejected(status, message) =>
         && x.status == (if IsFinal(status) then Failed else RequiresAttention)
         && x.error == Some(message) && x.receipt == e.receipt && x.updatedAt == At(reply.settledAt)
  }

  lemma DeliveredIsLeft(e: Entry, reply: Reply)
    ensures LeftBy(e, reply, Delivered(e, reply))
  {
    if reply.answer.Accepted? {
      FirstIdNames(reply.answer.ids, e.key);
    }
  }

  /** What each marker writes over an entry, and what it leaves: an attempt counts and clears the error, a
      confirmation and a resolution by hand clear it and leave a receipt, a failure keeps the receipt. */
  ghost predicate WrittenOver(e: Entry, change: Change, x: Entry) {
    && x.key == e.key && x.command == e.command && x.replayable == e.replayable && x.createdAt == e.createdAt
    && match change
       case Attempt(at) =>
         && x.status == Pending && x.attempts == e.attempts + 1 && x.updatedAt == At(at)
         && x.error == None && x.receipt == e.receipt
       case Confirm(receipt) =>
         && x.status == Confirmed && x.attempts == e.attempts && x.updatedAt == receipt.confirmedAt
         && x.error == None && x.receipt == Some(receipt)
       case Fail(message, attention, at) =>
         && x.status == (if attention then RequiresAttention else Failed) && x.attempts == e.attempts
         && x.updatedAt == At(at) && x.error == Some(message) && x.receipt == e.receipt
       case Resolve(at) =>
         && x.status == Confirmed && x.attempts == e.attempts && x.updatedAt == At(at) && x.error == None
         && x.receipt == Some(Receipt("manual:" + e.key, None, At(at)))
  }

  /** A marker finds the entry of its key unless it has expired, writes over it and over no other. */
  lemma MarkersWrite(entries: seq<Entry>, e: Entry, change: Change, now: int)
    requires UniqueKeys(entries) && e in entries
    ensures var step := UpdateStep(entries, e.key, change, now);
            if e in Prune(entries, now) then
              && step.result.Ok? && WrittenOver(e, change, step.result.value)
              && Replaced(Prune(entries, now), step.entries, e, step.result.value)
            else step == Step(Err(NotFound), entries)
  {
    var kept := Prune(entries, now);
    PruneElements(entries, now);
    PruneKeepsKeysUnique(entries, now);
    if e in kept {
      FoundByKey(kept, e);
      ReplacedAt(kept, IndexOf(kept, e.key), Changed(e, change));
    } else {
      ExpiredIsNotFound(entries, e, now);
    }
  }

  // ---- the next pass ------------------------------------------------------------------

  ghost predicate SentSince(before: seq<Event>, after: seq<Event>, key: string) {
    exists i :: |before| <= i < |after| && after[i].Sent? && after[i].key == key
  }

  lemma {:induction false} SendsOfAt(todo: seq<Entry>, replies: nat -> Reply)
    ensures |SendsOf(todo, replies)| == |todo|
    ensures forall i :: 0 <= i < |todo| ==>
              SendsOf(todo, replies)[i] == Sent(todo[i].key, todo[i].command, replies(i).answer.Accepted?)
  {
    if todo != [] {
      SendsOfAt(todo[..|todo| - 1], replies);
    }
  }

  lemma {:induction false} SentForIff(log: seq<Event>, todo: seq<Entry>, replies: nat -> Reply, e: Entry)
    requires e in todo || forall x :: x in todo ==> x.key != e.key
    ensures SentSince(log, log + SendsOf(todo, replies), e.key) <==> e in todo
  {
    SendsOfAt(todo, replies);
    var sends := SendsOf(todo, replies);
    if e in todo {
      var i :| 0 <= i < |todo| && todo[i] == e;
      assert (log + sends)[|log| + i] == sends[i];
    } else {
      forall i | |log| <= i < |log + sends| ensures (log + sends)[i].key != e.key {
        assert (log + sends)[i] == sends[i - |log|] && todo[i - |log|] in todo;
      }
    }
  }

  /** A pass sends for an entry exactly if it waits or needs attention, may be replayed and has attempts
      left. */
  lemma PassSendsIff(s: State, e: Entry, now: int, maxAttempts: int, replies: nat -> Reply)
    requires UniqueKeys(s.entries) && e in s.entries
    ensures SentSince(s.log, Reconcile(s, now, maxAttempts, replies).log, e.key) <==>
            (e.status == Pending || e.status == RequiresAttention) && e.replayable == Some(true) &&
            e.attempts < maxAttempts
  {
    TodoIsDeliverable(s, now, maxAttempts);
    PassReplaces(s, now, maxAttempts, replies);
    ByKeyIn(s.entries, Todo(s, now, maxAttempts), e);
    SentForIff(s.log, Todo(s, now, maxAttempts), replies, e);
  }

  lemma ByKeyIn(entries: seq<Entry>, todo: seq<Entry>, e: Entry)
    requires UniqueKeys(entries) && e in entries && forall x :: x in todo ==> x in entries
    ensures e in todo || forall x :: x in todo ==> x.key != e.key
  {
    forall x | x in todo && x.key == e.key ensures x == e {
      UniqueByKey(entries, e, x);
    }
  }

  /** After a refusal the next pass sends the command again exactly if the refusal was not final, the
      entry may be replayed and it has attempts left. */
  lemma RefusedIsSentAgainIff(
    s: State, e: Entry, reply: Reply, now: int, maxAttempts: int, replies: nat -> Reply, status: Option<int>)
    requires UniqueKeys(s.entries) && e in s.entries && !e.status.Confirmed?
    requires reply.answer.Rejected? && reply.answer.status == status
    ensures var t := Deliver(s, e, reply);
            SentSince(t.log, Reconcile(t, now, maxAttempts, replies).log, e.key) <==>
            !(status.Some? && 400 <= status.value <= 499 && status.value !in {408, 409, 425, 429}) &&
            e.replayable == Some(true) && e.attempts + 1 < maxAttempts
  {
    var t := Deliver(s, e, reply);
    DeliverReplaces(s, e, reply);
    DeliveredIsLeft(e, reply);
    PassSendsIff(t, Delivered(e, reply), now, maxAttempts, replies);
  }

  // ---- what a pass reports ------------------------------------------------------------

  predicate HasAccepted(answer: Answer) {
    answer.Accepted?
  }

  ghost predicate IsRefusal(answer: Answer) {
    answer.Rejected? && IsFinal(answer.status)
  }

  ghost predicate IsUnclear(answer: Answer) {
    answer.Rejected? && !IsFinal(answer.status)
  }

  /** Which of the first `n` answers are of a kind. */
  ghost function Among(kind: Answer -> bool, n: nat, replies: nat -> Reply): set<nat> {
    set i: nat | i < n && kind(replies(i).answer)
  }

  lemma OneMoreAmong(kind: Answer -> bool, n: nat, replies: nat -> Reply)
    ensures |Among(kind, n + 1, replies)| ==
            |Among(kind, n, replies)| + if kind(replies(n).answer) then 1 else 0
  {
    assert Among(kind, n + 1, replies) == Among(kind, n, replies) + if kind(replies(n).answer) then {n} else {};
  }

  lemma CountedAs(summary: Summary, answer: Answer)
    ensures Counted(summary, answer) ==
            Summary(summary.confirmed + if HasAccepted(answer) then 1 else 0,
                    summary.failed + if IsRefusal(answer) then 1 else 0,
                    summary.requiresAttention + if IsUnclear(answer) then 1 else 0)
  {
  }

  /** The three counters of a pass are the numbers of acceptances, of final refusals and of all other
      answers. */
  lemma {:induction false} CountersAre(n: nat, replies: nat -> Reply)
    ensures SummaryOf(n, replies) ==
            Summary(|Among(HasAccepted, n, replies)|, |Among(IsRefusal, n, replies)|, |Among(IsUnclear, n, replies)|)
  {
    if n > 0 {
      CountersAre(n - 1, replies);
      CountedAs(SummaryOf(n - 1, replies), replies(n - 1).answer);
      OneMoreAmong(HasAccepted, n - 1, replies);
      OneMoreAmong(IsRefusal, n - 1, replies);
      OneMoreAmong(IsUnclear, n - 1, replies);
    }
  }

  // ---- what is kept, and what is refused ----------------------------------------------

  /** Pruning takes exactly the confirmed entries more than 86,400,000 milliseconds past their receipt, or
      past their last change if they have none; an unreadable date keeps an entry. */
  lemma PrunedIff(entries: seq<Entry>, e: Entry, now: int)
    requires e in entries
    ensures e !in Prune(entries, now) <==>
            && e.status == Confirmed
            && match e.receipt
               case Some(receipt) => receipt.confirmedAt.At? && receipt.confirmedAt.ms < now - 86_400_000
               case None => e.updatedAt.At? && e.updatedAt.ms < now - 86_400_000
  {
    PruneElements(entries, now);
  }

  /** A command may be stored exactly if it has a key and an operation, its path begins with a slash but
      not as the authentication routes do, and no name in its payload, at any depth, is sensitive. */
  lemma AllowedIff(capacity: nat, key: string, command: Command)
    ensures Standard(capacity).refusal(key, command).None? <==>
            && key != "" && command.operation != ""
            && |command.path| > 0 && command.path[0] == '/' && !("/api/v1/auth" <= command.path)
            && forall name :: Occurs(name, Record(command.payload)) ==> !LooksSensitive(name)
  {
    RefusedIff(Record(command.payload));
  }

  /** Why a command is refused: the tests come in this order, and an unsafe name is one of the payload's. */
  lemma RefusedFor(capacity: nat, key: string, command: Command)
    ensures var refusal := Standard(capacity).refusal(key, command);
            var invalid := key == "" || command.operation == "" || command.path == "" || command.path[0] != '/';
            && (refusal == Some(InvalidEntry) <==> invalid)
            && (refusal == Some(AuthenticationPath) <==> !invalid && "/api/v1/auth" <= command.path)
            && (refusal.Some? && refusal != Some(InvalidEntry) && refusal != Some(AuthenticationPath) ==>
                && refusal.value.UnsafeField?
                && LooksSensitive(refusal.value.name) && Occurs(refusal.value.name, Record(command.payload)))
  {
    var unsafe := FirstUnsafe(IsSensitiveName, Record(command.payload));
    TheWalkIsComplete(IsSensitiveName, Record(command.payload));
    if unsafe.Some? {
      SensitiveIff(unsafe.value);
    }
  }

  /** What enqueueing decides, for what it keeps of the list. */
  ghost predicate EnqueuedAs(kept: seq<Entry>, settings: Settings, input: Input, now: int, step: Step<Entry>) {
    match step.result
    case Ok(x) =>
      && settings.refusal(input.key, input.command).None?
      && ((x in kept && x.key == input.key
           && x.command.payload == input.command.payload && x.command.path == input.command.path)
          || (&& (forall e :: e in kept ==> e.key != input.key)
              && ActiveCount(kept) < settings.capacity
              && x == Entry(input.key, input.command, input.replayable, Pending, 0, At(now), At(now),
                            input.receipt, input.error)
              && step.entries == kept + [x]))
    case Err(KeyReused) =>
      exists e :: e in kept && e.key == input.key &&
        (e.command.payload != input.command.payload || e.command.path != input.command.path)
    case Err(OutboxFull) =>
      (forall e :: e in kept ==> e.key != input.key) && ActiveCount(kept) >= settings.capacity
    case Err(failure) => settings.refusal(input.key, input.command) == Some(failure)
  }

  lemma EnqueueDecides(capacity: nat, entries: seq<Entry>, input: Input, now: int)
    ensures var step := EnqueueStep(Standard(capacity), entries, input, now);
            && EnqueuedAs(Prune(entries, now), Standard(capacity), input, now, step)
            && (step.result.Err? || step.result.value in Prune(entries, now) ==> step.entries == entries)
  {
    RefusedFor(capacity, input.key, input.command);
    EnqueueAsWith(Standard(capacity), entries, input, now);
  }

  lemma {:induction false} EnqueueAsWith(settings: Settings, entries: seq<Entry>, input: Input, now: int)
    requires settings.refusal(input.key, input.command) !in {Some(KeyReused), Some(OutboxFull)}
    ensures var step := EnqueueStep(settings, entries, input, now);
            && EnqueuedAs(Prune(entries, now), settings, input, now, step)
            && (step.result.Err? || step.result.value in Prune(entries, now) ==> step.entries == entries)
  {
  }

  /** The waiting entries are counted by position: all that are not confirmed. */
  lemma {:induction false} ActiveAre(entries: seq<Entry>)
    ensures ActiveCount(entries) == |set i: nat | i < |entries| && entries[i].status != Confirmed|
    decreases |entries|
  {
    if entries != [] {
      var n := |entries| - 1;
      var init := entries[..n];
      ActiveAre(init);
      var before := set i: nat | i < |init| && init[i].status != Confirmed;
      assert (set i: nat | i < |entries| && entries[i].status != Confirmed) ==
             before + if entries[n].status != Confirmed then {n} else {};
    }
  }
}
