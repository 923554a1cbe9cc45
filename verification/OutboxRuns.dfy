// Whole runs of the command log: calls made one at a time, with any answers from the server and
// any clock readings.
module OutboxRuns {
  import opened OperationalOutbox
  import opened Options
  import opened SafePayload

  // ---- what pruning and replacing do to the list --------------------------------------

  lemma {:induction false} PruneElements(entries: seq<Entry>, now: int)
    ensures forall x :: x in Prune(entries, now) <==> x in entries && Kept(x, now)
    ensures forall x :: x in entries && !x.status.Confirmed? ==> x in Prune(entries, now)
    decreases |entries|
  {
    if entries != [] {
      var init, last := entries[..|entries| - 1], entries[|entries| - 1];
      PruneElements(init, now);
      assert entries == init + [last];
    }
  }

  lemma {:induction false} PruneKeepsKeysUnique(entries: seq<Entry>, now: int)
    requires UniqueKeys(entries)
    ensures UniqueKeys(Prune(entries, now))
    decreases |entries|
  {
    if entries != [] {
      var init, last := entries[..|entries| - 1], entries[|entries| - 1];
      PruneKeepsKeysUnique(init, now);
      PruneElements(init, now);
      assert forall x :: x in Prune(init, now) ==> x in init && x.key != last.key;
    }
  }

  lemma {:induction false} PruneSum(entries: seq<Entry>, now: int, weight: Entry -> nat)
    requires forall e: Entry :: e.status.Confirmed? ==> weight(e) == 0
    ensures Sum(Prune(entries, now), weight) == Sum(entries, weight)
    decreases |entries|
  {
    if entries != [] {
      var init, last := entries[..|entries| - 1], entries[|entries| - 1];
      PruneSum(init, now, weight);
      assert Prune(init, now) + [] == Prune(init, now);
    }
  }

  lemma {:induction false} ReplaceSum(entries: seq<Entry>, i: nat, x: Entry, weight: Entry -> nat)
    requires i < |entries|
    ensures Sum(entries[i := x], weight) + weight(entries[i]) == Sum(entries, weight) + weight(x)
    decreases |entries|
  {
    var n := |entries| - 1;
    if i < n {
      ReplaceSum(entries[..n], i, x, weight);
      assert entries[i := x][..n] == entries[..n][i := x];
    } else {
      assert entries[i := x][..n] == entries[..n];
    }
  }

  /** `after` is `before` with `e` replaced by `x`, but for confirmed entries that may be gone. */
  ghost predicate Replaced(before: seq<Entry>, after: seq<Entry>, e: Entry, x: Entry) {
    && UniqueKeys(after) && x in after
    && (forall y :: y in after ==> y == x || (y in before && y.key != e.key))
    && (forall y :: y in before && y.key != e.key && !y.status.Confirmed? ==> y in after)
  }

  lemma FoundByKey(entries: seq<Entry>, e: Entry)
    requires UniqueKeys(entries) && e in entries
    ensures IndexOf(entries, e.key) < |entries| && entries[IndexOf(entries, e.key)] == e
  {
  }

  lemma ReplacedAt(entries: seq<Entry>, i: nat, x: Entry)
    requires UniqueKeys(entries) && i < |entries| && x.key == entries[i].key
    ensures Replaced(entries, entries[i := x], entries[i], x)
  {
    var after := entries[i := x];
    assert after[i] == x;
    forall y | y in after ensures y == x || (y in entries && y.key != entries[i].key) {
      var j :| 0 <= j < |after| && after[j] == y;
    }
    forall y | y in entries && y.key != entries[i].key ensures y in after {
      var j :| 0 <= j < |entries| && entries[j] == y;
      assert after[j] == y;
    }
  }

  /** An update of an entry that is not confirmed replaces it, whatever the clock says. */
  lemma UpdateReplaces(entries: seq<Entry>, e: Entry, change: Change, now: int)
    requires UniqueKeys(entries) && e in entries && !e.status.Confirmed?
    ensures var step := UpdateStep(entries, e.key, change, now);
            step.result == Ok(Changed(e, change)) && Replaced(entries, step.entries, e, Changed(e, change))
  {
    var kept := Prune(entries, now);
    PruneElements(entries, now);
    PruneKeepsKeysUnique(entries, now);
    FoundByKey(kept, e);
    ReplacedAt(kept, IndexOf(kept, e.key), Changed(e, change));
  }

  lemma {:induction false} UpdateSum(entries: seq<Entry>, e: Entry, change: Change, now: int, weight: Entry -> nat)
    requires UniqueKeys(entries) && e in entries && !e.status.Confirmed?
    requires forall e: Entry :: e.status.Confirmed? ==> weight(e) == 0
    ensures Sum(UpdateStep(entries, e.key, change, now).entries, weight) + weight(e)
         == Sum(entries, weight) + weight(Changed(e, change))
  {
    var kept := Prune(entries, now);
    PruneElements(entries, now);
    PruneKeepsKeysUnique(entries, now);
    FoundByKey(kept, e);
    PruneSum(entries, now, weight);
    ReplaceSum(kept, IndexOf(kept, e.key), Changed(e, change), weight);
  }

  // ---- one delivery -------------------------------------------------------------------

  /** The entry a delivery leaves: one more attempt, and the outcome. */
  function Delivered(e: Entry, reply: Reply): Entry {
    Changed(Changed(e, Attempt(reply.attemptAt)), Settlement(e, reply))
  }

  /** A delivery of a stored entry that is not confirmed sends its command once and replaces it. */
  lemma DeliverReplaces(s: State, e: Entry, reply: Reply)
    requires UniqueKeys(s.entries) && e in s.entries && !e.status.Confirmed?
    ensures var after := Deliver(s, e, reply);
            && Replaced(s.entries, after.entries, e, Delivered(e, reply))
            && after.log == s.log + [Sent(e.key, e.command, reply.answer.Accepted?)]
  {
    var tried := Changed(e, Attempt(reply.attemptAt));
    UpdateReplaces(s.entries, e, Attempt(reply.attemptAt), reply.attemptAt);
    var mid := UpdateStep(s.entries, e.key, Attempt(reply.attemptAt), reply.attemptAt).entries;
    UpdateReplaces(mid, tried, Settlement(e, reply), reply.settledAt);
  }

  lemma DeliverSum(s: State, e: Entry, reply: Reply, weight: Entry -> nat)
    requires UniqueKeys(s.entries) && e in s.entries && !e.status.Confirmed?
    requires forall e: Entry :: e.status.Confirmed? ==> weight(e) == 0
    ensures Sum(Deliver(s, e, reply).entries, weight) + weight(e) ==
            Sum(s.entries, weight) + weight(Delivered(e, reply))
  {
    var tried := Changed(e, Attempt(reply.attemptAt));
    UpdateReplaces(s.entries, e, Attempt(reply.attemptAt), reply.attemptAt);
    UpdateSum(s.entries, e, Attempt(reply.attemptAt), reply.attemptAt, weight);
    var mid := UpdateStep(s.entries, e.key, Attempt(reply.attemptAt), reply.attemptAt).entries;
    UpdateSum(mid, tried, Settlement(e, reply), reply.settledAt, weight);
  }

  // ---- the event log ------------------------------------------------------------------

  /** Commands sent under `key` since it was last stored. */
  function SendsSince(log: seq<Event>, key: string): nat {
    if log == [] then 0
    else
      var last := log[|log| - 1];
      if last.key != key then SendsSince(log[..|log| - 1], key)
      else if last.Stored? then 0
      else 1 + SendsSince(log[..|log| - 1], key)
  }

  /** The ones among them for which the answer that it was accepted came back. */
  function AnsweredSince(log: seq<Event>, key: string): nat {
    if log == [] then 0
    else
      var last := log[|log| - 1];
      if last.key != key then AnsweredSince(log[..|log| - 1], key)
      else if last.Stored? then 0
      else (if last.answered then 1 else 0) + AnsweredSince(log[..|log| - 1], key)
  }

  /** The command last stored under `key`. */
  function StoredCommand(log: seq<Event>, key: string): Option<Command> {
    if log == [] then None
    else if log[|log| - 1].Stored? && log[|log| - 1].key == key then Some(log[|log| - 1].command)
    else StoredCommand(log[..|log| - 1], key)
  }

  /** Every command sent is the one stored under its key. */
  ghost predicate SendsWhatWasStored(log: seq<Event>) {
    forall i :: 0 <= i < |log| && log[i].Sent? ==> StoredCommand(log[..i], log[i].key) == Some(log[i].command)
  }

  lemma {:induction false} OneMoreSend(log: seq<Event>, event: Event)
    requires SendsWhatWasStored(log)
    requires event.Sent? ==> StoredCommand(log, event.key) == Some(event.command)
    ensures SendsWhatWasStored(log + [event])
  {
    var after := log + [event];
    forall i | 0 <= i < |after| && after[i].Sent?
      ensures StoredCommand(after[..i], after[i].key) == Some(after[i].command)
    {
      if i < |log| {
        assert after[..i] == log[..i];
      } else {
        assert after[..i] == log;
      }
    }
  }

  // ---- the invariant ------------------------------------------------------------------

  ghost predicate EntryInv(settings: Settings, e: Entry, log: seq<Event>) {
    && e.attempts == SendsSince(log, e.key)
    && (!e.status.Confirmed? ==> AnsweredSince(log, e.key) == 0)
    && StoredCommand(log, e.key) == Some(e.command)
    && settings.refusal(e.key, e.command).None?
  }

  ghost predicate AnsweredOnce(log: seq<Event>) {
    forall key :: AnsweredSince(log, key) <= 1
  }

  ghost predicate Inv(settings: Settings, s: State) {
    && UniqueKeys(s.entries)
    && ActiveCount(s.entries) <= settings.capacity
    && (forall e :: e in s.entries ==> EntryInv(settings, e, s.log))
    && AnsweredOnce(s.log) && AnswersApart(s.log)
    && SendsWhatWasStored(s.log)
  }

  ghost predicate IsAnswer(event: Event, key: string) {
    event.Sent? && event.answered && event.key == key
  }

  ghost predicate StoredBetween(log: seq<Event>, i: int, j: int, key: string) {
    exists k :: 0 <= k < |log| && i < k < j && log[k].Stored? && log[k].key == key
  }

  /** Between two answers that a key's command was accepted the key was stored anew. */
  ghost predicate AnswersApart(log: seq<Event>) {
    forall i, j, key :: 0 <= i < j < |log| && IsAnswer(log[i], key) && IsAnswer(log[j], key) ==>
      StoredBetween(log, i, j, key)
  }

  lemma {:induction false} StoredSince(log: seq<Event>, key: string, i: nat)
    requires i < |log| && IsAnswer(log[i], key) && AnsweredSince(log, key) == 0
    ensures StoredBetween(log, i, |log|, key)
  {
    var n := |log| - 1;
    if log[n].key == key && log[n].Stored? {
      assert i < n;
    } else {
      StoredSince(log[..n], key, i);
      var k :| 0 <= k < n && i < k < n && log[..n][k].Stored? && log[..n][k].key == key;
      assert log[k].Stored? && log[k].key == key;
    }
  }

  lemma {:induction false} OneMoreApart(log: seq<Event>, event: Event)
    requires AnswersApart(log) && (event.Sent? && event.answered ==> AnsweredSince(log, event.key) == 0)
    ensures AnswersApart(log + [event])
  {
    var after := log + [event];
    forall i, j, key | 0 <= i < j < |after| && IsAnswer(after[i], key) && IsAnswer(after[j], key)
      ensures StoredBetween(after, i, j, key)
    {
      if j == |log| {
        StoredSince(log, key, i);
      }
      var k :| 0 <= k < |log| && i < k < j && log[k].Stored? && log[k].key == key;
      assert after[k] == log[k];
    }
  }

  lemma DeliverKeepsInv(settings: Settings, s: State, e: Entry, reply: Reply)
    requires Inv(settings, s) && e in s.entries && !e.status.Confirmed?
    ensures Inv(settings, Deliver(s, e, reply))
  {
    var event := Sent(e.key, e.command, reply.answer.Accepted?);
    var after := Deliver(s, e, reply);
    DeliverReplaces(s, e, reply);
    DeliverSum(s, e, reply, ActiveWeight);
    assert EntryInv(settings, e, s.log);
    forall x | x in after.entries ensures EntryInv(settings, x, after.log) {
      if x == Delivered(e, reply) {
      } else {
      }
    }
    OneMoreSend(s.log, event);
    OneMoreApart(s.log, event);
  }

  // ---- the other calls ----------------------------------------------------------------

  lemma {:induction false} PruneKeepsInv(settings: Settings, s: State, now: int)
    requires Inv(settings, s)
    ensures Inv(settings, State(Prune(s.entries, now), s.log))
  {
    PruneElements(s.entries, now);
    PruneKeepsKeysUnique(s.entries, now);
    PruneSum(s.entries, now, ActiveWeight);
  }

  lemma AddKeepsInv(settings: Settings, s: State, input: Input, now: int)
    requires Inv(settings, s) && settings.refusal(input.key, input.command).None?
    requires ActiveCount(s.entries) < settings.capacity && IndexOf(s.entries, input.key) == |s.entries|
    ensures Inv(settings, State(s.entries + [NewEntry(input, now)], s.log + [Stored(input.key, input.command)]))
  {
    var event := Stored(input.key, input.command);
    var after := s.entries + [NewEntry(input, now)];
    forall x | x in after ensures EntryInv(settings, x, s.log + [event]) {
      if x == NewEntry(input, now) {
      } else {
      }
    }
    OneMoreSend(s.log, event);
    OneMoreApart(s.log, event);
  }

  lemma StoreKeepsInv(settings: Settings, s: State, input: Input, now: int)
    requires Inv(settings, s)
    ensures Inv(settings, Store(settings, s, input, now))
  {
    var kept := Prune(s.entries, now);
    if EnqueueStep(settings, s.entries, input, now).result.Ok? && IndexOf(kept, input.key) == |kept| {
      PruneKeepsInv(settings, s, now);
      AddKeepsInv(settings, State(kept, s.log), input, now);
    }
  }

  /** What enqueue hands to the driver is in the store afterwards. */
  lemma EnqueuedIsStored(settings: Settings, s: State, input: Input, now: int)
    requires UniqueKeys(s.entries) && EnqueueStep(settings, s.entries, input, now).result.Ok?
    ensures EnqueueStep(settings, s.entries, input, now).result.value in Store(settings, s, input, now).entries
  {
    PruneElements(s.entries, now);
    var kept := Prune(s.entries, now);
    var i := IndexOf(kept, input.key);
    if i < |kept| {
      assert kept[i] in kept;
    }
  }

  lemma ResolveKeepsInv(settings: Settings, s: State, key: string, now: int)
    requires Inv(settings, s)
    ensures Inv(settings, State(UpdateStep(s.entries, key, Resolve(now), now).entries, s.log))
  {
    var kept := Prune(s.entries, now);
    var i := IndexOf(kept, key);
    if i < |kept| {
      PruneKeepsInv(settings, s, now);
      var x := Changed(kept[i], Resolve(now));
      ReplacedAt(kept, i, x);
      ReplaceSum(kept, i, x, ActiveWeight);
      assert EntryInv(settings, kept[i], s.log);
    }
  }

  lemma AppendUnique(entries: seq<Entry>, x: Entry)
    requires UniqueKeys(entries) && forall y :: y in entries ==> y.key != x.key
    ensures UniqueKeys(entries + [x])
  {
  }

  lemma {:induction false} WithoutElements(entries: seq<Entry>, key: string)
    ensures forall x :: x in Without(entries, key) <==> x in entries && x.key != key
    decreases |entries|
  {
    if entries != [] {
      var init, last := entries[..|entries| - 1], entries[|entries| - 1];
      WithoutElements(init, key);
      assert entries == init + [last];
    }
  }

  lemma {:induction false} WithoutKeepsKeysUnique(entries: seq<Entry>, key: string)
    requires UniqueKeys(entries)
    ensures UniqueKeys(Without(entries, key))
    decreases |entries|
  {
    if entries != [] {
      var init, last := entries[..|entries| - 1], entries[|entries| - 1];
      WithoutKeepsKeysUnique(init, key);
      WithoutElements(init, key);
      AppendUnique(Without(init, key), last);
    }
  }

  lemma {:induction false} WithoutSum(entries: seq<Entry>, key: string, weight: Entry -> nat)
    ensures Sum(Without(entries, key), weight) <= Sum(entries, weight)
    decreases |entries|
  {
    if entries != [] {
      var init, last := entries[..|entries| - 1], entries[|entries| - 1];
      WithoutSum(init, key, weight);
      assert Without(init, key) + [] == Without(init, key);
    }
  }

  lemma DiscardKeepsInv(settings: Settings, s: State, key: string, now: int)
    requires Inv(settings, s)
    ensures Inv(settings, State(DiscardStep(s.entries, key, now).entries, s.log))
  {
    PruneKeepsInv(settings, s, now);
    var kept := Prune(s.entries, now);
    WithoutElements(kept, key);
    WithoutKeepsKeysUnique(kept, key);
    WithoutSum(kept, key, ActiveWeight);
  }

  // ---- reconciliation, entry by entry -------------------------------------------------

  lemma {:induction false} EligibleElements(entries: seq<Entry>, maxAttempts: int)
    ensures forall x :: x in Eligible(entries, maxAttempts) <==> x in entries && IsEligible(x, maxAttempts)
    decreases |entries|
  {
    if entries != [] {
      var init, last := entries[..|entries| - 1], entries[|entries| - 1];
      EligibleElements(init, maxAttempts);
      assert entries == init + [last];
    }
  }

  lemma {:induction false} EligibleKeysAreUnique(entries: seq<Entry>, maxAttempts: int)
    requires UniqueKeys(entries)
    ensures UniqueKeys(Eligible(entries, maxAttempts))
    decreases |entries|
  {
    if entries != [] {
      var init, last := entries[..|entries| - 1], entries[|entries| - 1];
      EligibleKeysAreUnique(init, maxAttempts);
      EligibleElements(init, maxAttempts);
      AppendUnique(Eligible(init, maxAttempts), last);
    }
  }

  /** Entries that can be delivered one after the other. */
  ghost predicate Deliverable(s: State, todo: seq<Entry>) {
    UniqueKeys(todo) && forall x :: x in todo ==> x in s.entries && !x.status.Confirmed?
  }

  lemma TodoIsDeliverable(s: State, now: int, maxAttempts: int)
    requires UniqueKeys(s.entries)
    ensures Deliverable(s, Todo(s, now, maxAttempts))
    ensures forall x :: x in Todo(s, now, maxAttempts) <==> x in s.entries && IsEligible(x, maxAttempts)
  {
    PruneElements(s.entries, now);
    PruneKeepsKeysUnique(s.entries, now);
    EligibleElements(Prune(s.entries, now), maxAttempts);
    EligibleKeysAreUnique(Prune(s.entries, now), maxAttempts);
  }

  lemma DeliverableInit(s: State, todo: seq<Entry>)
    requires todo != [] && Deliverable(s, todo)
    ensures Deliverable(s, todo[..|todo| - 1])
    ensures forall x :: x in todo[..|todo| - 1] ==> x.key != todo[|todo| - 1].key
  {
  }

  /** What is not delivered stays: the next entry to deliver is still there, unchanged. */
  lemma {:induction false} StillThere(s: State, todo: seq<Entry>, replies: nat -> Reply, e: Entry)
    requires UniqueKeys(s.entries) && Deliverable(s, todo)
    requires e in s.entries && !e.status.Confirmed? && forall x :: x in todo ==> x.key != e.key
    ensures UniqueKeys(DeliverAll(s, todo, replies).entries) && e in DeliverAll(s, todo, replies).entries
    decreases |todo|
  {
    if todo != [] {
      var n := |todo| - 1;
      DeliverableInit(s, todo);
      StillThere(s, todo[..n], replies, e);
      StillThere(s, todo[..n], replies, todo[n]);
      DeliverReplaces(DeliverAll(s, todo[..n], replies), todo[n], replies(n));
    }
  }

  lemma LastIsThere(s: State, todo: seq<Entry>, replies: nat -> Reply)
    requires UniqueKeys(s.entries) && todo != [] && Deliverable(s, todo)
    ensures var s1, e := DeliverAll(s, todo[..|todo| - 1], replies), todo[|todo| - 1];
            UniqueKeys(s1.entries) && e in s1.entries && !e.status.Confirmed?
  {
    DeliverableInit(s, todo);
    StillThere(s, todo[..|todo| - 1], replies, todo[|todo| - 1]);
  }

  lemma {:induction false} DeliverAllKeepsInv(settings: Settings, s: State, todo: seq<Entry>, replies: nat -> Reply)
    requires Inv(settings, s) && Deliverable(s, todo)
    ensures Inv(settings, DeliverAll(s, todo, replies))
    decreases |todo|
  {
    if todo != [] {
      var n := |todo| - 1;
      DeliverableInit(s, todo);
      DeliverAllKeepsInv(settings, s, todo[..n], replies);
      LastIsThere(s, todo, replies);
      DeliverKeepsInv(settings, DeliverAll(s, todo[..n], replies), todo[n], replies(n));
    }
  }

  // ---- runs ---------------------------------------------------------------------------

  datatype Call =
    | CallEnqueue(input: Input, at: int)
    | CallResolve(key: string, at: int)
    | CallDiscard(key: string, at: int)
    | CallPrune(at: int)
    | CallExecute(input: Input, at: int, reply: Reply)
    | CallRetry(key: string, at: int, reply: Reply)
    | CallReconcile(at: int, maxAttempts: int, replies: nat -> Reply)

  function Perform(settings: Settings, s: State, call: Call): State {
    match call
    case CallEnqueue(input, at) => Store(settings, s, input, at)
    case CallResolve(key, at) => State(UpdateStep(s.entries, key, Resolve(at), at).entries, s.log)
    case CallDiscard(key, at) => State(DiscardStep(s.entries, key, at).entries, s.log)
    case CallPrune(at) => State(Prune(s.entries, at), s.log)
    case CallExecute(input, at, reply) => Execute(settings, s, input, at, reply)
    case CallRetry(key, at, reply) => Retry(s, key, at, reply)
    case CallReconcile(at, maxAttempts, replies) => Reconcile(s, at, maxAttempts, replies)
  }

  function Run(settings: Settings, s: State, calls: seq<Call>): State {
    if calls == [] then s else Perform(settings, Run(settings, s, calls[..|calls| - 1]), calls[|calls| - 1])
  }

  lemma ExecuteKeepsInv(settings: Settings, s: State, input: Input, now: int, reply: Reply)
    requires Inv(settings, s)
    ensures Inv(settings, Execute(settings, s, input, now, reply))
  {
    StoreKeepsInv(settings, s, input, now);
    var stored := EnqueueStep(settings, s.entries, input, now).result;
    if stored.Ok? && !stored.value.status.Confirmed? {
      EnqueuedIsStored(settings, s, input, now);
      DeliverKeepsInv(settings, Store(settings, s, input, now), stored.value, reply);
    }
  }

  lemma RetryKeepsInv(settings: Settings, s: State, key: string, now: int, reply: Reply)
    requires Inv(settings, s)
    ensures Inv(settings, Retry(s, key, now, reply))
  {
    var view := Prune(s.entries, now);
    var i := IndexOf(view, key);
    PruneElements(s.entries, now);
    if i < |view| && !view[i].status.Confirmed? {
      assert view[i] in view;
      DeliverKeepsInv(settings, s, view[i], reply);
    }
  }

  lemma PerformKeepsInv(settings: Settings, s: State, call: Call)
    requires Inv(settings, s)
    ensures Inv(settings, Perform(settings, s, call))
  {
    match call
    case CallEnqueue(input, at) => StoreKeepsInv(settings, s, input, at);
    case CallResolve(key, at) => ResolveKeepsInv(settings, s, key, at);
    case CallDiscard(key, at) => DiscardKeepsInv(settings, s, key, at);
    case CallPrune(at) => PruneKeepsInv(settings, s, at);
    case CallExecute(input, at, reply) => ExecuteKeepsInv(settings, s, input, at, reply);
    case CallRetry(key, at, reply) => RetryKeepsInv(settings, s, key, at, reply);
    case CallReconcile(at, maxAttempts, replies) =>
      TodoIsDeliverable(s, at, maxAttempts);
      DeliverAllKeepsInv(settings, s, Todo(s, at, maxAttempts), replies);
  }

  /** Every call keeps the invariant, so every run does: keys are unique, the active entries fit, an
      entry's attempts are the sends made for it, and no key gets two answers that it was accepted. */
  lemma {:induction false} RunKeepsInv(settings: Settings, s: State, calls: seq<Call>)
    requires Inv(settings, s)
    ensures Inv(settings, Run(settings, s, calls))
    decreases |calls|
  {
    if calls != [] {
      RunKeepsInv(settings, s, calls[..|calls| - 1]);
      PerformKeepsInv(settings, Run(settings, s, calls[..|calls| - 1]), calls[|calls| - 1]);
    }
  }

  lemma OneMoreCall(settings: Settings, s: State, calls: seq<Call>, call: Call)
    ensures Run(settings, s, calls + [call]) == Perform(settings, Run(settings, s, calls), call)
  {
  }

  const EMPTY := State([], [])

  /** From an empty store: what every run guarantees, spelled out. */
  lemma SafeRuns(settings: Settings, calls: seq<Call>, key: string)
    ensures var s := Run(settings, EMPTY, calls);
            && (forall i, j :: 0 <= i < j < |s.entries| ==> s.entries[i].key != s.entries[j].key)
            && ActiveCount(s.entries) <= settings.capacity
            && (forall e :: e in s.entries ==>
                e.attempts == SendsSince(s.log, e.key) && StoredCommand(s.log, e.key) == Some(e.command))
            && AnsweredSince(s.log, key) <= 1
            && (forall i, j :: 0 <= i < j < |s.log| && IsAnswer(s.log[i], key) && IsAnswer(s.log[j], key) ==>
                StoredBetween(s.log, i, j, key))
            && (forall i :: 0 <= i < |s.log| && s.log[i].Sent? ==>
                StoredCommand(s.log[..i], s.log[i].key) == Some(s.log[i].command))
  {
    RunKeepsInv(settings, EMPTY, calls);
  }

  /** No name in a stored payload, at any depth, is sensitive, and no authentication request is stored. */
  lemma {:induction false} StoredCommandsAreSafe(capacity: nat, calls: seq<Call>, e: Entry, name: string)
    requires e in Run(Standard(capacity), EMPTY, calls).entries
    ensures Occurs(name, Record(e.command.payload)) ==> !IsSensitiveName(name)
    ensures "/" <= e.command.path && !(AUTH_PATH <= e.command.path)
  {
    RunKeepsInv(Standard(capacity), EMPTY, calls);
    assert EntryInv(Standard(capacity), e, Run(Standard(capacity), EMPTY, calls).log);
    TheWalkIsComplete(IsSensitiveName, Record(e.command.payload));
  }

  // ---- a confirmed entry never becomes active again -----------------------------------

  /** Nothing under `key` waits to be sent: it is confirmed, or gone. */
  ghost predicate Settled(entries: seq<Entry>, key: string) {
    forall e :: e in entries && e.key == key ==> e.status.Confirmed?
  }

  ghost predicate StoredAgain(before: seq<Event>, after: seq<Event>, key: string) {
    exists i :: |before| <= i < |after| && after[i].Stored? && after[i].key == key
  }

  /** Unless the key is stored anew, it stays settled and nothing is sent under it. */
  ghost predicate StaysSettled(s: State, after: State, key: string) {
    && s.log <= after.log
    && (!StoredAgain(s.log, after.log, key) ==>
          && Settled(after.entries, key)
          && forall i :: |s.log| <= i < |after.log| ==> after.log[i].key != key)
  }

  lemma SettledThrough(s: State, mid: State, after: State, key: string)
    requires StaysSettled(s, mid, key) && (Settled(mid.entries, key) ==> StaysSettled(mid, after, key))
             && mid.log <= after.log
    ensures StaysSettled(s, after, key)
  {
  }

  lemma DeliverStaysSettled(s: State, e: Entry, reply: Reply, key: string)
    requires UniqueKeys(s.entries) && e in s.entries && !e.status.Confirmed? && Settled(s.entries, key)
    ensures StaysSettled(s, Deliver(s, e, reply), key)
  {
    DeliverReplaces(s, e, reply);
  }

  lemma {:induction false} DeliverAllStaysSettled(s: State, todo: seq<Entry>, replies: nat -> Reply, key: string)
    requires UniqueKeys(s.entries) && Deliverable(s, todo) && Settled(s.entries, key)
    ensures StaysSettled(s, DeliverAll(s, todo, replies), key)
    decreases |todo|
  {
    if todo != [] {
      var n := |todo| - 1;
      DeliverableInit(s, todo);
      DeliverAllStaysSettled(s, todo[..n], replies, key);
      LastIsThere(s, todo, replies);
      var mid := DeliverAll(s, todo[..n], replies);
      DeliverReplaces(mid, todo[n], replies(n));
      if Settled(mid.entries, key) {
        DeliverStaysSettled(mid, todo[n], replies(n), key);
      }
      SettledThrough(s, mid, DeliverAll(s, todo, replies), key);
    }
  }

  lemma StoreStaysSettled(settings: Settings, s: State, input: Input, now: int, key: string)
    requires Settled(s.entries, key)
    ensures StaysSettled(s, Store(settings, s, input, now), key)
  {
    PruneElements(s.entries, now);
    var after := Store(settings, s, input, now);
    if after != s {
      assert after.log[|s.log|] == Stored(input.key, input.command);
    }
  }

  lemma StoredDeliveryStaysSettled(settings: Settings, s: State, mid: State, e: Entry, reply: Reply, key: string)
    requires Inv(settings, mid) && e in mid.entries && !e.status.Confirmed?
    requires StaysSettled(s, mid, key)
    ensures StaysSettled(s, Deliver(mid, e, reply), key)
  {
    DeliverReplaces(mid, e, reply);
    if Settled(mid.entries, key) {
      DeliverStaysSettled(mid, e, reply, key);
    }
    SettledThrough(s, mid, Deliver(mid, e, reply), key);
  }

  lemma ExecuteStaysSettled(settings: Settings, s: State, input: Input, now: int, reply: Reply, key: string)
    requires Inv(settings, s) && Settled(s.entries, key)
    ensures StaysSettled(s, Execute(settings, s, input, now, reply), key)
  {
    StoreStaysSettled(settings, s, input, now, key);
    StoreKeepsInv(settings, s, input, now);
    var stored := EnqueueStep(settings, s.entries, input, now).result;
    if stored.Ok? && !stored.value.status.Confirmed? {
      EnqueuedIsStored(settings, s, input, now);
      StoredDeliveryStaysSettled(settings, s, Store(settings, s, input, now), stored.value, reply, key);
    }
  }

  lemma ResolveStaysSettled(s: State, key: string, now: int, other: string)
    requires Settled(s.entries, other)
    ensures StaysSettled(s, State(UpdateStep(s.entries, key, Resolve(now), now).entries, s.log), other)
  {
    PruneElements(s.entries, now);
  }

  lemma RetryStaysSettled(s: State, key: string, now: int, reply: Reply, other: string)
    requires UniqueKeys(s.entries) && Settled(s.entries, other)
    ensures StaysSettled(s, Retry(s, key, now, reply), other)
  {
    var view := Prune(s.entries, now);
    var i := IndexOf(view, key);
    PruneElements(s.entries, now);
    if i < |view| && !view[i].status.Confirmed? {
      assert view[i] in view;
      DeliverStaysSettled(s, view[i], reply, other);
    }
  }

  lemma PerformStaysSettled(settings: Settings, s: State, call: Call, key: string)
    requires Inv(settings, s) && Settled(s.entries, key)
    ensures StaysSettled(s, Perform(settings, s, call), key)
  {
    match call
    case CallEnqueue(input, at) => StoreStaysSettled(settings, s, input, at, key);
    case CallResolve(k, at) => ResolveStaysSettled(s, k, at, key);
    case CallDiscard(k, at) =>
      PruneElements(s.entries, at);
      WithoutElements(Prune(s.entries, at), k);
    case CallPrune(at) => PruneElements(s.entries, at);
    case CallExecute(input, at, reply) => ExecuteStaysSettled(settings, s, input, at, reply, key);
    case CallRetry(k, at, reply) => RetryStaysSettled(s, k, at, reply, key);
    case CallReconcile(at, maxAttempts, replies) =>
      TodoIsDeliverable(s, at, maxAttempts);
      DeliverAllStaysSettled(s, Todo(s, at, maxAttempts), replies, key);
  }

  lemma LogGrows(settings: Settings, s: State, call: Call)
    requires Inv(settings, s)
    ensures s.log <= Perform(settings, s, call).log
  {
    var key: string :| Settled(s.entries, key) by { AnAbsentKey(s.entries); }
    PerformStaysSettled(settings, s, call, key);
  }

  lemma {:induction false} AnAbsentKey(entries: seq<Entry>)
    ensures exists key: string :: Settled(entries, key)
  {
    var long := LongerThanAll(entries);
    assert Settled(entries, long);
  }

  ghost function LongerThanAll(entries: seq<Entry>): (key: string)
    ensures forall e :: e in entries ==> |e.key| < |key|
  {
    if entries == [] then ""
    else
      assert entries == entries[..|entries| - 1] + [entries[|entries| - 1]];
      LongerThanAll(entries[..|entries| - 1]) + entries[|entries| - 1].key + "."
  }

  /** A confirmed or removed command is never sent again and never waits again, through any run,
      until its key is stored anew. */
  lemma {:induction false} ConfirmedForever(settings: Settings, s: State, calls: seq<Call>, key: string)
    requires Inv(settings, s) && Settled(s.entries, key)
    ensures StaysSettled(s, Run(settings, s, calls), key)
    decreases |calls|
  {
    if calls != [] {
      var init, last := calls[..|calls| - 1], calls[|calls| - 1];
      ConfirmedForever(settings, s, init, key);
      var mid := Run(settings, s, init);
      RunKeepsInv(settings, s, init);
      LogGrows(settings, mid, last);
      if Settled(mid.entries, key) {
        PerformStaysSettled(settings, mid, last, key);
      }
      SettledThrough(s, mid, Run(settings, s, calls), key);
    }
  }

  /** Once the server's answer that it accepted a command has come back, no run sends it again before it
      is stored anew. */
  lemma {:induction false} AnsweredIsFinal(settings: Settings, s: State, e: Entry, reply: Reply, calls: seq<Call>)
    requires Inv(settings, s) && e in s.entries && !e.status.Confirmed? && reply.answer.Accepted?
    ensures StaysSettled(Deliver(s, e, reply), Run(settings, Deliver(s, e, reply), calls), e.key)
  {
    DeliverReplaces(s, e, reply);
    DeliverKeepsInv(settings, s, e, reply);
    ConfirmedForever(settings, Deliver(s, e, reply), calls, e.key);
  }

  // ---- where the guarantees end -------------------------------------------------------

  function SentAfresh(input: Input, reply: Reply): seq<Event> {
    [Stored(input.key, input.command), Sent(input.key, input.command, reply.answer.Accepted?)]
  }

  lemma UniqueByKey(entries: seq<Entry>, e: Entry, x: Entry)
    requires UniqueKeys(entries) && e in entries && x in entries && x.key == e.key
    ensures x == e
  {
  }

  lemma ExpiredIsNotFound(entries: seq<Entry>, e: Entry, now: int)
    requires UniqueKeys(entries) && e in entries && !Kept(e, now)
    ensures IndexOf(Prune(entries, now), e.key) == |Prune(entries, now)|
  {
    var kept := Prune(entries, now);
    PruneElements(entries, now);
    if IndexOf(kept, e.key) < |kept| {
      var x := kept[IndexOf(kept, e.key)];
      assert x in kept;
      UniqueByKey(entries, e, x);
    }
  }

  lemma KeptIsFound(entries: seq<Entry>, e: Entry, now: int)
    requires UniqueKeys(entries) && e in entries && Kept(e, now)
    ensures var kept := Prune(entries, now);
            IndexOf(kept, e.key) < |kept| && kept[IndexOf(kept, e.key)] == e
  {
    PruneElements(entries, now);
    PruneKeepsKeysUnique(entries, now);
    FoundByKey(Prune(entries, now), e);
  }

  /** Executing under a key the store does not show: stored and sent when it is not refused and fits. */
  lemma {:induction false} ExecuteAfresh(settings: Settings, s: State, input: Input, now: int, reply: Reply)
    requires Inv(settings, s) && IndexOf(Prune(s.entries, now), input.key) == |Prune(s.entries, now)|
    ensures Execute(settings, s, input, now, reply).log ==
            if settings.refusal(input.key, input.command).None? && ActiveCount(s.entries) < settings.capacity
            then s.log + SentAfresh(input, reply) else s.log
  {
    PruneSum(s.entries, now, ActiveWeight);
    var stored := EnqueueStep(settings, s.entries, input, now).result;
    if stored.Ok? {
      EnqueuedIsStored(settings, s, input, now);
      StoreKeepsInv(settings, s, input, now);
      DeliverReplaces(Store(settings, s, input, now), stored.value, reply);
    }
  }

  /** A confirmed key is remembered exactly as long as its entry is kept. Executing under it sends
      again if and only if the entry has expired, the command is not refused and there is room;
      otherwise nothing is stored or sent. */
  lemma SentAgainIffExpired(settings: Settings, s: State, e: Entry, input: Input, now: int, reply: Reply)
    requires Inv(settings, s) && e in s.entries && e.status.Confirmed? && input.key == e.key
    ensures Execute(settings, s, input, now, reply).log ==
            if !Kept(e, now) && settings.refusal(input.key, input.command).None?
               && ActiveCount(s.entries) < settings.capacity
            then s.log + SentAfresh(input, reply) else s.log
  {
    if Kept(e, now) {
      KeptIsFound(s.entries, e, now);
    } else {
      ExpiredIsNotFound(s.entries, e, now);
      ExecuteAfresh(settings, s, input, now, reply);
    }
  }

  /** In terms of the clock: after a delivery answered as accepted the command is sent a second time if and
      only if more than a day has passed since its receipt and there is room. */
  lemma ForgottenAfterADay(settings: Settings, s: State, e: Entry, r1: Reply, input: Input, t2: int, r2: Reply)
    requires Inv(settings, s) && e in s.entries && !e.status.Confirmed? && r1.answer.Accepted?
    requires input.key == e.key && input.command == e.command
    ensures var s1 := Deliver(s, e, r1);
            Execute(settings, s1, input, t2, r2).log ==
            if t2 - r1.receiptAt > CONFIRMED_RETENTION_MS && ActiveCount(s1.entries) < settings.capacity
            then s1.log + SentAfresh(input, r2) else s1.log
  {
    var s1 := Deliver(s, e, r1);
    DeliverReplaces(s, e, r1);
    DeliverKeepsInv(settings, s, e, r1);
    assert EntryInv(settings, Delivered(e, r1), s1.log);
    SentAgainIffExpired(settings, s1, Delivered(e, r1), input, t2, r2);
  }

  /** Without that answer it is sent again, whatever the server did with it: a delivered command that is
      replayable is sent by the next retry, and one executed anew is sent, if and only if the answer did
      not come back. */
  lemma UnansweredIsSentAgain(settings: Settings, s: State, e: Entry, r1: Reply, input: Input, now: int, r2: Reply)
    requires Inv(settings, s) && e in s.entries && !e.status.Confirmed? && e.replayable == Some(true)
    requires input.key == e.key && input.command == e.command
    requires Kept(Delivered(e, r1), now)
    ensures var s1 := Deliver(s, e, r1);
            var again := if r1.answer.Accepted? then s1.log else s1.log + [Sent(e.key, e.command, r2.answer.Accepted?)];
            Retry(s1, e.key, now, r2).log == again && Execute(settings, s1, input, now, r2).log == again
  {
    var s1, x := Deliver(s, e, r1), Delivered(e, r1);
    DeliverReplaces(s, e, r1);
    DeliverKeepsInv(settings, s, e, r1);
    assert EntryInv(settings, x, s1.log);
    KeptIsFound(s1.entries, x, now);
    if !r1.answer.Accepted? {
      DeliverReplaces(s1, x, r2);
    }
  }

  /** The markers alone do not look at the old status: an attempt marked on a confirmed entry makes
      it active again, past any capacity. */
  lemma BareMarkerRevives(entries: seq<Entry>, e: Entry, now: int)
    requires UniqueKeys(entries) && e in entries && e.status.Confirmed? && Kept(e, now)
    ensures var step := UpdateStep(entries, e.key, Attempt(now), now);
            && step.result.Ok? && step.result.value.status.Pending?
            && ActiveCount(step.entries) == ActiveCount(entries) + 1
  {
    var kept := Prune(entries, now);
    PruneElements(entries, now);
    PruneKeepsKeysUnique(entries, now);
    FoundByKey(kept, e);
    PruneSum(entries, now, ActiveWeight);
    ReplaceSum(kept, IndexOf(kept, e.key), Changed(e, Attempt(now)), ActiveWeight);
  }

  // ---- a key used for another command -------------------------------------------------

  /** Executing under the key of a waiting entry sends the stored command, not the one given, if and only
      if the one given passes the refusals and has the stored payload and path; otherwise nothing is sent. */
  lemma ReusedKeySendsTheStored(settings: Settings, s: State, e: Entry, input: Input, now: int, reply: Reply)
    requires Inv(settings, s) && e in s.entries && !e.status.Confirmed? && input.key == e.key
    ensures Execute(settings, s, input, now, reply).log ==
            if settings.refusal(input.key, input.command).None?
               && input.command.payload == e.command.payload && input.command.path == e.command.path
            then s.log + [Sent(e.key, e.command, reply.answer.Accepted?)] else s.log
  {
    KeptIsFound(s.entries, e, now);
    DeliverReplaces(s, e, reply);
  }

  /** So a command other than the one given is sent exactly when the two differ in the method or the
      operation alone: those two are not compared. */
  lemma AnotherCommandIsSentIff(settings: Settings, s: State, e: Entry, input: Input, now: int, reply: Reply)
    requires Inv(settings, s) && e in s.entries && !e.status.Confirmed? && input.key == e.key
    ensures var log := Execute(settings, s, input, now, reply).log;
            |log| > |s.log| && log[|log| - 1] != Sent(input.key, input.command, reply.answer.Accepted?) <==>
            && settings.refusal(input.key, input.command).None?
            && input.command.payload == e.command.payload && input.command.path == e.command.path
            && (input.command.verb != e.command.verb || input.command.operation != e.command.operation)
  {
    ReusedKeySendsTheStored(settings, s, e, input, now, reply);
  }

  /** A deletion executed under the key of a waiting creation with its path and payload sends the
      creation. */
  lemma DeletionSendsTheCreation(capacity: nat, s: State, e: Entry, now: int, reply: Reply)
    requires Inv(Standard(capacity), s) && e in s.entries && !e.status.Confirmed? && e.command.verb.Post?
    ensures var input := Input(e.key, e.command.(verb := Delete), e.replayable, None, None);
            Execute(Standard(capacity), s, input, now, reply).log ==
            s.log + [Sent(e.key, e.command, reply.answer.Accepted?)]
  {
    var input := Input(e.key, e.command.(verb := Delete), e.replayable, None, None);
    assert EntryInv(Standard(capacity), e, s.log);
    SameRefusal(e.key, e.command);
    ReusedKeySendsTheStored(Standard(capacity), s, e, input, now, reply);
  }

  lemma SameRefusal(key: string, command: Command)
    ensures Refusal(key, command.(verb := Delete)) == Refusal(key, command)
  {
  }
}
