// The browser's command log: a persisted list of entries under idempotency keys, bounded, with
// confirmed entries kept for a day, and the three drivers that send what it holds.
module OperationalOutbox {
  import opened Options
  import opened SafePayload

  datatype Result<T> = Ok(value: T) | Err(failure: Failure)

  datatype Failure =
    | InvalidEntry
    | AuthenticationPath
    | UnsafeField(name: string)
    | KeyReused
    | OutboxFull
    | NotFound
    | NotReplayable
    | SendFailed(message: string)

  datatype Status = Pending | Confirmed | Failed | RequiresAttention

  datatype Verb = Post | Patch | Delete

  // A stored time stamp: milliseconds, or a text that is not a date.
  datatype Stamp = At(ms: int) | Unreadable

  datatype Receipt = Receipt(operationId: string, version: Option<int>, confirmedAt: Stamp)

  datatype Command = Command(operation: string, verb: Verb, path: string, payload: seq<Field>)

  datatype Input = Input(
    key: string, command: Command, replayable: Option<bool>, receipt: Option<Receipt>, error: Option<string>)

  datatype Entry = Entry(
    key: string, command: Command, replayable: Option<bool>, status: Status, attempts: nat,
    createdAt: Stamp, updatedAt: Stamp, receipt: Option<Receipt>, error: Option<string>)

  // How many entries may wait, and which commands may not be stored whatever the store holds.
  datatype Settings = Settings(capacity: nat, refusal: (string, Command) -> Option<Failure>)

  const CONFIRMED_RETENTION_MS := 24 * 60 * 60 * 1000
  const DEFAULT_CAPACITY := 100
  const AUTH_PATH := "/api/v1/auth"

  // ---- retention ----------------------------------------------------------------------

  predicate Kept(e: Entry, now: int) {
    e.status.Confirmed? ==>
      var stamp := if e.receipt.Some? then e.receipt.value.confirmedAt else e.updatedAt;
      stamp.Unreadable? || now - stamp.ms <= CONFIRMED_RETENTION_MS
  }

  function Prune(entries: seq<Entry>, now: int): seq<Entry> {
    if entries == [] then []
    else
      var last := entries[|entries| - 1];
      Prune(entries[..|entries| - 1], now) + (if Kept(last, now) then [last] else [])
  }

  // ---- the single updates -------------------------------------------------------------

  /** The position of the first entry under `key`, or the length if there is none. */
  function IndexOf(entries: seq<Entry>, key: string): (i: nat)
    ensures i <= |entries| && (i < |entries| ==> entries[i].key == key)
    ensures forall j :: 0 <= j < i ==> entries[j].key != key
  {
    if entries == [] then 0
    else if entries[0].key == key then 0
    else 1 + IndexOf(entries[1..], key)
  }

  datatype Change =
    | Attempt(at: int)
    | Confirm(receipt: Receipt)
    | Fail(message: string, attention: bool, at: int)
    | Resolve(at: int)

  const MANUAL := "manual:"

  function Changed(e: Entry, change: Change): Entry {
    match change
    case Attempt(at) => e.(status := Pending, attempts := e.attempts + 1, updatedAt := At(at), error := None)
    case Confirm(receipt) =>
      e.(status := Confirmed, receipt := Some(receipt), updatedAt := receipt.confirmedAt, error := None)
    case Fail(message, attention, at) =>
      e.(status := if attention then RequiresAttention else Failed, error := Some(message), updatedAt := At(at))
    case Resolve(at) =>
      e.(status := Confirmed, receipt := Some(Receipt(MANUAL + e.key, None, At(at))),
         updatedAt := At(at), error := None)
  }

  datatype Step<T> = Step(result: Result<T>, entries: seq<Entry>)

  /** Prune, find, replace, all under the storage lock. A missing entry leaves the store as it is. */
  function UpdateStep(entries: seq<Entry>, key: string, change: Change, now: int): Step<Entry> {
    var kept := Prune(entries, now);
    var i := IndexOf(kept, key);
    if i == |kept| then Step(Err(NotFound), entries)
    else Step(Ok(Changed(kept[i], change)), kept[i := Changed(kept[i], change)])
  }

  function Sum(entries: seq<Entry>, weight: Entry -> nat): nat {
    if entries == [] then 0 else Sum(entries[..|entries| - 1], weight) + weight(entries[|entries| - 1])
  }

  function ActiveWeight(e: Entry): nat {
    if e.status.Confirmed? then 0 else 1
  }

  function ActiveCount(entries: seq<Entry>): nat {
    Sum(entries, ActiveWeight)
  }

  /** The refusals of the source, in the order it tests them. */
  function Refusal(key: string, command: Command): Option<Failure> {
    if key == "" || command.operation == "" || !("/" <= command.path) then Some(InvalidEntry)
    else if AUTH_PATH <= command.path then Some(AuthenticationPath)
    else
      var unsafe := FirstUnsafe(IsSensitiveName, Record(command.payload));
      if unsafe.Some? then Some(UnsafeField(unsafe.value)) else None
  }

  function Standard(capacity: nat): Settings {
    Settings(capacity, Refusal)
  }

  function NewEntry(input: Input, now: int): Entry {
    Entry(input.key, input.command, input.replayable, Pending, 0, At(now), At(now), input.receipt, input.error)
  }

  function EnqueueStep(settings: Settings, entries: seq<Entry>, input: Input, now: int): Step<Entry> {
    var refusal := settings.refusal(input.key, input.command);
    if refusal.Some? then Step(Err(refusal.value), entries)
    else
      var kept := Prune(entries, now);
      var i := IndexOf(kept, input.key);
      if i < |kept| then
        if kept[i].command.payload != input.command.payload || kept[i].command.path != input.command.path
        then Step(Err(KeyReused), entries)
        else Step(Ok(kept[i]), entries)
      else if ActiveCount(kept) >= settings.capacity then Step(Err(OutboxFull), entries)
      else Step(Ok(NewEntry(input, now)), kept + [NewEntry(input, now)])
  }

  function Without(entries: seq<Entry>, key: string): seq<Entry> {
    if entries == [] then []
    else
      var last := entries[|entries| - 1];
      Without(entries[..|entries| - 1], key) + (if last.key == key then [] else [last])
  }

  function DiscardStep(entries: seq<Entry>, key: string, now: int): Step<()> {
    var kept := Prune(entries, now);
    var next := Without(kept, key);
    if |next| == |kept| then Step(Err(NotFound), entries) else Step(Ok(()), next)
  }

  // ---- sending ------------------------------------------------------------------------

  // What comes back from a send: the server's answer that it accepted, with the identifiers it may
  // give, in order of preference, and a version; or an error, with its integer status if it has one.
  // An error does not tell that the server did not accept: the answer may have been lost.
  datatype Answer =
    | Accepted(ids: seq<Option<string>>, version: Option<int>)
    | Rejected(status: Option<int>, message: string)

  // One send, with the clock readings made around it.
  datatype Reply = Reply(attemptAt: int, receiptAt: int, settledAt: int, answer: Answer)

  predicate IsDeterministic(status: Option<int>) {
    status.Some? && 400 <= status.value < 500 && status.value !in {408, 409, 425, 429}
  }

  function FirstId(ids: seq<Option<string>>): Option<string> {
    if ids == [] then None
    else if ids[0].Some? && ids[0].value != "" then ids[0]
    else FirstId(ids[1..])
  }

  function ReceiptFrom(e: Entry, answer: Answer, now: int): Receipt
    requires answer.Accepted?
  {
    var id := FirstId(answer.ids);
    Receipt(if id.Some? then id.value else e.key, answer.version, At(now))
  }

  function Settlement(e: Entry, reply: Reply): Change {
    match reply.answer
    case Accepted(_, _) => Confirm(ReceiptFrom(e, reply.answer, reply.receiptAt))
    case Rejected(status, message) => Fail(message, !IsDeterministic(status), reply.settledAt)
  }

  // What happened, in order: an entry stored under a fresh key, a command sent under a key, and
  // whether the answer that it was accepted came back.
  datatype Event = Stored(key: string, command: Command) | Sent(key: string, command: Command, answered: bool)

  datatype State = State(entries: seq<Entry>, log: seq<Event>)

  /** Mark the attempt, send, mark the outcome: the part the three drivers share. Nothing is sent
      if the entry is gone when the attempt is marked. */
  function Deliver(s: State, e: Entry, reply: Reply): State {
    var attempt := UpdateStep(s.entries, e.key, Attempt(reply.attemptAt), reply.attemptAt);
    if attempt.result.Err? then s
    else
      var settle := UpdateStep(attempt.entries, e.key, Settlement(e, reply), reply.settledAt);
      State(settle.entries, s.log + [Sent(e.key, e.command, reply.answer.Accepted?)])
  }

  /** Enqueue with its event: only a fresh entry is an event. */
  function Store(settings: Settings, s: State, input: Input, now: int): State {
    var kept := Prune(s.entries, now);
    var step := EnqueueStep(settings, s.entries, input, now);
    if step.result.Ok? && IndexOf(kept, input.key) == |kept|
    then State(step.entries, s.log + [Stored(input.key, input.command)])
    else s
  }

  function Execute(settings: Settings, s: State, input: Input, now: int, reply: Reply): State {
    var stored := EnqueueStep(settings, s.entries, input, now).result;
    var s1 := Store(settings, s, input, now);
    if stored.Err? || stored.value.status.Confirmed? then s1 else Deliver(s1, stored.value, reply)
  }

  function Retry(s: State, key: string, now: int, reply: Reply): State {
    var view := Prune(s.entries, now);
    var i := IndexOf(view, key);
    if i == |view| || view[i].replayable != Some(true) || view[i].status.Confirmed? then s
    else Deliver(s, view[i], reply)
  }

  predicate IsEligible(e: Entry, maxAttempts: int) {
    (e.status.Pending? || e.status.RequiresAttention?) && e.replayable == Some(true) && e.attempts < maxAttempts
  }

  function Eligible(entries: seq<Entry>, maxAttempts: int): seq<Entry> {
    if entries == [] then []
    else
      var last := entries[|entries| - 1];
      Eligible(entries[..|entries| - 1], maxAttempts) + (if IsEligible(last, maxAttempts) then [last] else [])
  }

  /** Deliver each of `todo` in turn; the i-th send gets the i-th reply. */
  function DeliverAll(s: State, todo: seq<Entry>, replies: nat -> Reply): State {
    if todo == [] then s
    else
      var n := |todo| - 1;
      Deliver(DeliverAll(s, todo[..n], replies), todo[n], replies(n))
  }

  datatype Summary = Summary(confirmed: nat, failed: nat, requiresAttention: nat)

  function Counted(summary: Summary, answer: Answer): Summary {
    match answer
    case Accepted(_, _) => summary.(confirmed := summary.confirmed + 1)
    case Rejected(status, _) =>
      if IsDeterministic(status) then summary.(failed := summary.failed + 1)
      else summary.(requiresAttention := summary.requiresAttention + 1)
  }

  function SummaryOf(n: nat, replies: nat -> Reply): Summary {
    if n == 0 then Summary(0, 0, 0) else Counted(SummaryOf(n - 1, replies), replies(n - 1).answer)
  }

  function Todo(s: State, now: int, maxAttempts: int): seq<Entry> {
    Eligible(Prune(s.entries, now), maxAttempts)
  }

  function Reconcile(s: State, now: int, maxAttempts: int, replies: nat -> Reply): State {
    DeliverAll(s, Todo(s, now, maxAttempts), replies)
  }

  ghost predicate UniqueKeys(entries: seq<Entry>) {
    forall i, j :: 0 <= i < j < |entries| ==> entries[i].key != entries[j].key
  }
}
