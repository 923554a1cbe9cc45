// Any number of publishers share the outbox table. Each statement a publisher sends to the
// database is one atomic step; a run is any interleaving of the steps of any publishers with
// inserts, operator retries and crashes.
module WorkerOutbox {
  import opened Options
  import RetryPolicy

  const MAX_ATTEMPTS := 8
  const BATCH := 25

  // The topics the club is told about. The table holds events of other topics as well.
  const CLUB_TOPICS: set<string> := {
    "product.updated", "stock.updated", "order.closed", "payment.confirmed", "customer.updated", "club.sale.registered",
    "club.stock_movement.created"
  }

  const A_TOPIC := "order.closed"

  type EventId = nat
  type Pid = nat

  datatype Status = Pending | Processing | Processed | DeadLetter

  datatype Event = Event(status: Status, attempts: nat, availableAt: int, topic: string, hasTenant: bool)

  // What happens to a claimed event between its claim and its settlement. The receiver may have
  // accepted a request though the publisher never learns of it.
  datatype Outcome =
    | NotConfigured                          // no active account, target, client id or secret: nothing is sent
    | BuildFailed                            // the body or its signature could not be built: nothing is sent
    | Unreachable(accepted: bool)            // the request threw, a timeout or a lost answer included
    | Answered(http: int, accepted: bool)    // an answer came; one outside 2xx may hide an acceptance
    | AckLost                                // a 2xx answer whose `processed` update failed

  // A publisher holds at most one claimed event: first unsent, then with its outcome known.
  datatype Hold = Free | Claimed(id: EventId, attempts: nat) | Finished(id: EventId, attempts: nat, outcome: Outcome)

  datatype Publisher = Publisher(queue: seq<EventId>, hold: Hold)

  // What really happened to an event since an operator last made it pending (or it was inserted):
  // requests sent, those the receiver accepted, 2xx answers that came back, and accepted requests
  // after which the event was sent back all the same. Then all requests ever, and operator retries.
  datatype History = History(
    posts: nat, accepted: nat, acknowledged: nat, lostBack: nat, everPosted: nat, retries: nat)

  const NO_HISTORY := History(0, 0, 0, 0, 0, 0)

  datatype System = System(events: map<EventId, Event>, publishers: map<Pid, Publisher>, past: map<EventId, History>)

  datatype Action =
    | Insert(id: EventId, at: int, topic: string, hasTenant: bool)
    | Start(p: Pid, batch: seq<EventId>, now: int)
    | Claim(p: Pid)
    | Send(p: Pid, outcome: Outcome)
    | Settle(p: Pid, now: int, random: real)
    | Crash(p: Pid)
    | Throw(p: Pid)       // an exception outside the loop's `try` ends the pass
    | OperatorRetry(id: EventId, now: int)

  const EMPTY := System(map[], map[], map[])

  // ---- rows ---------------------------------------------------------------------------

  predicate Selectable(e: Event, now: int) {
    e.status == Pending && e.availableAt <= now && e.topic in CLUB_TOPICS
  }

  predicate ValidBatch(events: map<EventId, Event>, batch: seq<EventId>, now: int) {
    && |batch| <= BATCH
    && (forall i, j :: 0 <= i < j < |batch| ==> batch[i] != batch[j])
    && (forall i :: 0 <= i < |batch| ==> batch[i] in events && Selectable(events[batch[i]], now))
  }

  predicate Accepts(o: Outcome) {
    match o
    case Unreachable(accepted) => accepted
    case Answered(http, accepted) => accepted || 200 <= http < 300
    case AckLost => true
    case _ => false
  }

  predicate Acknowledges(o: Outcome) {
    o.AckLost? || (o.Answered? && 200 <= o.http < 300)
  }

  predicate Posts(o: Outcome) {
    o.Unreachable? || o.Answered? || o.AckLost?
  }

  predicate RetryableStatus(http: int) {
    http == 408 || http == 425 || http == 429 || http >= 500
  }

  predicate Retryable(o: Outcome) {
    match o
    case NotConfigured => true
    case Unreachable(_) => true
    case Answered(http, _) => RetryableStatus(http)
    case _ => false
  }

  function ClaimedRow(e: Event): Event {
    e.(status := Processing, attempts := e.attempts + 1)
  }

  function SettledRow(e: Event, attempts: nat, o: Outcome, now: int, random: real): Event {
    if o.Answered? && 200 <= o.http < 300 then
      e.(status := Processed)
    else
      e.(status := if SendsBack(o, attempts) then Pending else DeadLetter,
         availableAt := RetryPolicy.RetryAt(attempts, now, random))
  }

  function Sent(h: History, o: Outcome): History {
    if !Posts(o) then h
    else h.(posts := h.posts + 1, everPosted := h.everPosted + 1,
            accepted := h.accepted + (if Accepts(o) then 1 else 0),
            acknowledged := h.acknowledged + (if Acknowledges(o) then 1 else 0))
  }

  predicate SendsBack(o: Outcome, attempts: nat) {
    Retryable(o) && attempts < MAX_ATTEMPTS
  }

  function SettledHistory(h: History, hold: Hold): History
    requires hold.Finished?
  {
    if Accepts(hold.outcome) && SendsBack(hold.outcome, hold.attempts) then h.(lostBack := h.lostBack + 1) else h
  }

  // ---- steps --------------------------------------------------------------------------

  predicate Enabled(s: System, a: Action) {
    match a
    case Insert(id, _, _, _) => id !in s.events
    case Start(p, batch, now) =>
      (p in s.publishers ==> s.publishers[p] == Publisher([], Free)) && ValidBatch(s.events, batch, now)
    case Claim(p) =>
      && p in s.publishers && s.publishers[p].hold.Free?
      && s.publishers[p].queue != [] && s.publishers[p].queue[0] in s.events
    case Send(p, _) => p in s.publishers && s.publishers[p].hold.Claimed?
    case Settle(p, _, random) =>
      && p in s.publishers && s.publishers[p].hold.Finished?
      && s.publishers[p].hold.id in s.events && RetryPolicy.Draw(random)
    case Crash(p) => p in s.publishers
    case Throw(p) => p in s.publishers
    case OperatorRetry(id, _) =>
      id in s.events && s.events[id].status == DeadLetter && s.events[id].topic in CLUB_TOPICS && s.events[id].hasTenant
  }

  function HistoryOf(s: System, id: EventId): History {
    if id in s.past then s.past[id] else NO_HISTORY
  }

  function Apply(s: System, a: Action): System {
    if !Enabled(s, a) then s else
    match a
    case Insert(id, at, topic, hasTenant) =>
      s.(events := s.events[id := Event(Pending, 0, at, topic, hasTenant)], past := s.past[id := NO_HISTORY])
    case Start(p, batch, now) =>
      s.(publishers := s.publishers[p := Publisher(batch, Free)])
    case Claim(p) =>
      var id := s.publishers[p].queue[0];
      var rest := s.publishers[p].queue[1..];
      if s.events[id].status != Pending then
        s.(publishers := s.publishers[p := Publisher(rest, Free)])
      else
        var row := ClaimedRow(s.events[id]);
        var hold := if row.hasTenant then Claimed(id, row.attempts) else Free;
        s.(events := s.events[id := row], publishers := s.publishers[p := Publisher(rest, hold)])
    case Send(p, o) =>
      var hold := s.publishers[p].hold;
      s.(publishers := s.publishers[p := s.publishers[p].(hold := Finished(hold.id, hold.attempts, o))],
         past := s.past[hold.id := Sent(HistoryOf(s, hold.id), o)])
    case Settle(p, now, random) =>
      var hold := s.publishers[p].hold;
      s.(events := s.events[hold.id := SettledRow(s.events[hold.id], hold.attempts, hold.outcome, now, random)],
         publishers := s.publishers[p := s.publishers[p].(hold := Free)],
         past := s.past[hold.id := SettledHistory(HistoryOf(s, hold.id), hold)])
    case Crash(p) =>
      s.(publishers := s.publishers - {p})
    case Throw(p) =>
      s.(publishers := s.publishers[p := Publisher([], Free)])
    case OperatorRetry(id, now) =>
      var h := HistoryOf(s, id);
      s.(events := s.events[id := s.events[id].(status := Pending, attempts := 0, availableAt := now)],
         past := s.past[id := NO_HISTORY.(everPosted := h.everPosted, retries := h.retries + 1)])
  }

  function Run(s: System, acts: seq<Action>): System
    decreases |acts|
  {
    if acts == [] then s else Run(Apply(s, acts[0]), acts[1..])
  }

  lemma {:induction false} RunConcat(s: System, a: seq<Action>, b: seq<Action>)
    ensures Run(s, a + b) == Run(Run(s, a), b)
    decreases |a|
  {
    if a == [] {
      assert a + b == b;
    } else {
      assert (a + b)[0] == a[0] && (a + b)[1..] == a[1..] + b;
      RunConcat(Apply(s, a[0]), a[1..], b);
    }
  }

  // ---- the invariant ------------------------------------------------------------------

  ghost predicate Holds(s: System, p: Pid, id: EventId) {
    p in s.publishers && !s.publishers[p].hold.Free? && s.publishers[p].hold.id == id
  }

  ghost predicate Owned(s: System, id: EventId) {
    exists p :: Holds(s, p, id)
  }

  /** A held event is being processed, under the attempt number its owner claimed it with. */
  ghost predicate OwnersAgree(s: System) {
    forall p, id :: Holds(s, p, id) ==>
      && id in s.events && s.events[id].status == Processing
      && s.events[id].attempts == s.publishers[p].hold.attempts
      && s.events[id].hasTenant
  }

  ghost predicate AtMostOneOwner(s: System) {
    forall p, q, id :: Holds(s, p, id) && Holds(s, q, id) ==> p == q
  }

  ghost predicate RowInBounds(e: Event) {
    && e.attempts <= MAX_ATTEMPTS
    && (e.status == Pending ==> e.attempts < MAX_ATTEMPTS)
    && (e.status != Pending ==> e.attempts >= 1)
  }

  /** Requests never outrun attempts, a 2xx answer is never followed by another claim and is what
      makes an event processed, and all acceptances but one were sent back. */
  ghost predicate HistoryAgrees(e: Event, h: History) {
    && h.accepted <= h.posts <= e.attempts
    && h.acknowledged <= h.accepted - h.lostBack <= 1
    && (e.status == Pending ==> h.accepted == h.lostBack)
    && (e.status == Processed ==> h.acknowledged == 1)
    && h.posts <= h.everPosted <= MAX_ATTEMPTS * h.retries + h.posts
  }

  ghost predicate UnsentAgrees(s: System) {
    forall p, id :: Holds(s, p, id) ==>
      HoldAgrees(s.publishers[p].hold, HistoryOf(s, id))
  }

  ghost predicate HoldAgrees(hold: Hold, h: History)
    requires !hold.Free?
  {
    && (hold.Claimed? ==> h.posts < hold.attempts && h.accepted == h.lostBack)
    && (hold.Finished? ==>
          && h.accepted - h.lostBack == (if Accepts(hold.outcome) then 1 else 0)
          && h.acknowledged == (if Acknowledges(hold.outcome) then 1 else 0))
  }

  ghost predicate Inv(s: System) {
    && OwnersAgree(s) && AtMostOneOwner(s) && UnsentAgrees(s)
    && s.past.Keys == s.events.Keys
    && (forall id :: id in s.events ==> RowInBounds(s.events[id]) && HistoryAgrees(s.events[id], HistoryOf(s, id)))
  }

  /** Where each hold of the next state comes from: it was there before, or it is the one the step made. */
  lemma HoldsAfter(s: System, a: Action, p: Pid, id: EventId)
    requires Enabled(s, a) && Holds(Apply(s, a), p, id)
    ensures (a.Claim? && a.p == p && s.publishers[p].queue[0] == id && s.events[id].status == Pending)
            || Holds(s, p, id)
    ensures a.Settle? || a.Crash? || a.Throw? ==> a.p != p
  {
  }

  lemma StepKeepsOwners(s: System, a: Action)
    requires Inv(s) && Enabled(s, a)
    ensures OwnersAgree(Apply(s, a)) && AtMostOneOwner(Apply(s, a))
  {
    var t := Apply(s, a);
    forall p, id | Holds(t, p, id)
      ensures id in t.events && t.events[id].status == Processing
              && t.events[id].attempts == t.publishers[p].hold.attempts && t.events[id].hasTenant
    {
      HoldsAfter(s, a, p, id);
      if a.Settle? { assert Holds(s, a.p, s.publishers[a.p].hold.id); }
    }
    forall p, q, id | Holds(t, p, id) && Holds(t, q, id) ensures p == q {
      HoldsAfter(s, a, p, id);
      HoldsAfter(s, a, q, id);
    }
  }

  lemma StepKeepsUnsent(s: System, a: Action)
    requires Inv(s) && Enabled(s, a)
    ensures UnsentAgrees(Apply(s, a))
  {
    var t := Apply(s, a);
    forall p, id | Holds(t, p, id) ensures HoldAgrees(t.publishers[p].hold, HistoryOf(t, id)) {
      HoldsAfter(s, a, p, id);
      if a.Send? || a.Settle? { assert Holds(s, a.p, s.publishers[a.p].hold.id); }
    }
  }

  lemma StepKeepsBounds(s: System, a: Action, id: EventId)
    requires Inv(s) && Enabled(s, a) && id in Apply(s, a).events
    ensures RowInBounds(Apply(s, a).events[id])
  {
    if a.Settle? { assert Holds(s, a.p, s.publishers[a.p].hold.id); }
    assert id in s.events ==> RowInBounds(s.events[id]);
  }

  lemma StepKeepsHistory(s: System, a: Action, id: EventId)
    requires Inv(s) && Enabled(s, a) && id in Apply(s, a).events
    ensures HistoryAgrees(Apply(s, a).events[id], HistoryOf(Apply(s, a), id))
  {
    if a.Send? || a.Settle? {
      assert Holds(s, a.p, s.publishers[a.p].hold.id);
    }
    assert id in s.events ==> HistoryAgrees(s.events[id], HistoryOf(s, id));
  }

  lemma StepKeepsRows(s: System, a: Action)
    requires Inv(s) && Enabled(s, a)
    ensures var t := Apply(s, a);
            forall id :: id in t.events ==> RowInBounds(t.events[id]) && HistoryAgrees(t.events[id], HistoryOf(t, id))
  {
    forall id | id in Apply(s, a).events
      ensures RowInBounds(Apply(s, a).events[id]) && HistoryAgrees(Apply(s, a).events[id], HistoryOf(Apply(s, a), id))
    {
      StepKeepsBounds(s, a, id);
      StepKeepsHistory(s, a, id);
    }
  }

  lemma StepKeepsInv(s: System, a: Action)
    requires Inv(s)
    ensures Inv(Apply(s, a))
  {
    if Enabled(s, a) {
      StepKeepsOwners(s, a);
      StepKeepsUnsent(s, a);
      StepKeepsRows(s, a);
      if a.Send? || a.Settle? { assert Holds(s, a.p, s.publishers[a.p].hold.id); }
    }
  }

  // ---- whole runs ---------------------------------------------------------------------

  lemma {:induction false} RunKeepsInv(s: System, acts: seq<Action>)
    requires Inv(s)
    ensures Inv(Run(s, acts))
    decreases |acts|
  {
    if acts != [] {
      StepKeepsInv(s, acts[0]);
      RunKeepsInv(Apply(s, acts[0]), acts[1..]);
    }
  }

  /** Safety of every interleaving of publishers, inserts, operator retries and crashes. */
  lemma Safety(acts: seq<Action>)
    ensures var s := Run(EMPTY, acts);
            && AtMostOneOwner(s)
            && (forall id :: id in s.events ==>
                  && s.events[id].attempts <= MAX_ATTEMPTS
                  && (s.events[id].status == Pending ==> s.events[id].attempts < MAX_ATTEMPTS)
                  && HistoryOf(s, id).accepted <= HistoryOf(s, id).posts <= s.events[id].attempts
                  && HistoryOf(s, id).everPosted <= MAX_ATTEMPTS * (HistoryOf(s, id).retries + 1))
  {
    RunKeepsInv(EMPTY, acts);
  }

  /** Between two operator retries at most one 2xx answer comes back for an event, none while it
      waits, and an event is processed only when one did. */
  lemma {:induction false} AcknowledgedAtMostOnce(acts: seq<Action>, id: EventId)
    requires id in Run(EMPTY, acts).events
    ensures var s := Run(EMPTY, acts);
            && HistoryOf(s, id).acknowledged <= 1
            && (s.events[id].status == Processed ==> HistoryOf(s, id).acknowledged == 1)
            && (s.events[id].status == Pending ==> HistoryOf(s, id).acknowledged == 0)
  {
    RunKeepsInv(EMPTY, acts);
  }

  /** The delivery contract: timeouts, network errors, 408, 425, 429 and 5xx come back until the
      eighth attempt; every other failure, and the eighth of these, is a dead letter. */
  lemma SettlementFollowsContract(s: System, p: Pid, now: int, random: real)
    requires Inv(s) && Enabled(s, Settle(p, now, random))
    ensures var hold := s.publishers[p].hold;
            var row := Apply(s, Settle(p, now, random)).events[hold.id];
            && (row.status == Processed <==> hold.outcome.Answered? && hold.outcome.http / 100 == 2)
            && (row.status == Pending <==>
                  && s.events[hold.id].attempts != 8
                  && (hold.outcome.NotConfigured? || hold.outcome.Unreachable?
                      || (hold.outcome.Answered?
                          && (hold.outcome.http in {408, 425, 429} || hold.outcome.http / 100 >= 5))))
            && row.status != Processing
            && (row.status != Processed ==> now + 750 <= row.availableAt <= now + 900_000)
            && row.attempts == s.events[hold.id].attempts
  {
    assert Holds(s, p, s.publishers[p].hold.id);
    RetryPolicy.RetryAtIsInTheFuture(s.publishers[p].hold.attempts, now, random);
  }

  ghost predicate Settled(e: Event) {
    e.status == Processed || e.status == DeadLetter
  }

  ghost predicate RetriedByOperator(acts: seq<Action>, id: EventId) {
    exists i :: 0 <= i < |acts| && acts[i].OperatorRetry? && acts[i].id == id
  }

  lemma StepKeepsSettled(s: System, a: Action, id: EventId)
    requires Inv(s) && id in s.events && Settled(s.events[id])
    requires s.events[id].status == Processed || !(a.OperatorRetry? && a.id == id)
    ensures id in Apply(s, a).events && Apply(s, a).events[id] == s.events[id]
  {
    if Enabled(s, a) && a.Settle? {
      assert Holds(s, a.p, s.publishers[a.p].hold.id);
    }
  }

  /** A processed row never changes again; a dead letter changes only if an operator retries it. */
  lemma {:induction false} SettledForever(s: System, acts: seq<Action>, id: EventId)
    requires Inv(s) && id in s.events && Settled(s.events[id])
    requires s.events[id].status == Processed || !RetriedByOperator(acts, id)
    ensures id in Run(s, acts).events && Run(s, acts).events[id] == s.events[id]
    decreases |acts|
  {
    if acts != [] {
      StepKeepsSettled(s, acts[0], id);
      StepKeepsInv(s, acts[0]);
      SettledForever(Apply(s, acts[0]), acts[1..], id);
    }
  }

  ghost predicate Stranded(s: System, id: EventId) {
    id in s.events && s.events[id].status == Processing && !Owned(s, id)
  }

  lemma StepKeepsStranded(s: System, a: Action, id: EventId)
    requires Inv(s) && Stranded(s, id)
    ensures Stranded(Apply(s, a), id) && Apply(s, a).events[id] == s.events[id]
  {
    var t := Apply(s, a);
    if Enabled(s, a) && a.Settle? {
      assert Holds(s, a.p, s.publishers[a.p].hold.id);
    }
    if Owned(t, id) {
      var p :| Holds(t, p, id);
      if Enabled(s, a) { HoldsAfter(s, a, p, id); }
      assert Owned(s, id);
    }
  }

  lemma {:induction false} StrandedForever(s: System, acts: seq<Action>, id: EventId)
    requires Inv(s) && Stranded(s, id)
    ensures Stranded(Run(s, acts), id) && Run(s, acts).events[id] == s.events[id]
    decreases |acts|
  {
    if acts != [] {
      StepKeepsStranded(s, acts[0], id);
      StepKeepsInv(s, acts[0]);
      StrandedForever(Apply(s, acts[0]), acts[1..], id);
    }
  }

  lemma OwnerCanMoveOn(s: System, p: Pid, id: EventId) returns (acts: seq<Action>)
    requires Inv(s) && Holds(s, p, id)
    ensures id in Run(s, acts).events && Run(s, acts).events[id].status != Processing
  {
    var send, settle := Send(p, BuildFailed), Settle(p, 0, 0.0);
    if s.publishers[p].hold.Claimed? {
      acts := [send, settle];
      assert acts[1..] == [settle] && [settle][1..] == [];
      assert Run(s, acts) == Run(Apply(s, send), [settle]) == Apply(Apply(s, send), settle);
    } else {
      acts := [settle];
      assert [settle][1..] == [];
      assert Run(s, acts) == Apply(s, settle);
    }
  }

  ghost predicate CanMoveOn(s: System, id: EventId) {
    exists acts :: id in Run(s, acts).events && Run(s, acts).events[id].status != Processing
  }

  /** An event in `processing` can ever leave it, in some run, exactly when a live publisher owns
      it: the selection never looks at `processing` and the operator's retry refuses it. */
  lemma MovesOnIffOwned(s: System, id: EventId)
    requires Inv(s) && id in s.events && s.events[id].status == Processing
    ensures CanMoveOn(s, id) <==> Owned(s, id)
  {
    if Owned(s, id) {
      var p :| Holds(s, p, id);
      var acts := OwnerCanMoveOn(s, p, id);
    } else {
      forall acts ensures id in Run(s, acts).events && Run(s, acts).events[id].status == Processing {
        StrandedForever(s, acts, id);
      }
    }
  }

  /** The ways to lose an event for good: its owner crashes, an exception ends its owner's pass, such as
      a webhook address that is no URL, or it is claimed without a tenant. */
  lemma CrashStrands(s: System, p: Pid, id: EventId)
    requires Inv(s) && Holds(s, p, id)
    ensures !CanMoveOn(Apply(s, Crash(p)), id) && !CanMoveOn(Apply(s, Throw(p)), id)
  {
    LeavingStrands(s, Crash(p), id);
    LeavingStrands(s, Throw(p), id);
  }

  lemma LeavingStrands(s: System, a: Action, id: EventId)
    requires Inv(s) && (a.Crash? || a.Throw?) && Holds(s, a.p, id)
    ensures !CanMoveOn(Apply(s, a), id)
  {
    var t := Apply(s, a);
    StepKeepsInv(s, a);
    forall q ensures !Holds(t, q, id) {
      if Holds(t, q, id) { HoldsAfter(s, a, q, id); }
    }
    MovesOnIffOwned(t, id);
  }

  lemma ClaimWithoutTenantStrands(s: System, p: Pid)
    requires Inv(s) && Enabled(s, Claim(p))
    requires s.events[s.publishers[p].queue[0]].status == Pending && !s.events[s.publishers[p].queue[0]].hasTenant
    ensures !CanMoveOn(Apply(s, Claim(p)), s.publishers[p].queue[0])
  {
    var t := Apply(s, Claim(p));
    StepKeepsInv(s, Claim(p));
    MovesOnIffOwned(t, s.publishers[p].queue[0]);
  }

  /** Two publishers that took their snapshots together. */
  ghost const TWO_SNAPSHOTS := System(map[0 := Event(Pending, 0, 0, A_TOPIC, true)],
                                      map[1 := Publisher([0], Free), 2 := Publisher([0], Free)],
                                      map[0 := NO_HISTORY])

  lemma TwoSnapshotsReachable()
    ensures Run(EMPTY, [Insert(0, 0, A_TOPIC, true), Start(1, [0], 0), Start(2, [0], 0)]) == TWO_SNAPSHOTS
  {
    var first, second, third := Insert(0, 0, A_TOPIC, true), Start(1, [0], 0), Start(2, [0], 0);
    LastStep(EMPTY, [first], [], first);
    LastStep(EMPTY, [first, second], [first], second);
    LastStep(EMPTY, [first, second, third], [first, second], third);
    InsertedAndTaken(A_TOPIC);
  }

  lemma InsertedAndTaken(topic: string)
    requires topic in CLUB_TOPICS
    ensures var row := Event(Pending, 0, 0, topic, true);
            var inserted := System(map[0 := row], map[], map[0 := NO_HISTORY]);
            var taken := inserted.(publishers := map[1 := Publisher([0], Free)]);
            && Apply(EMPTY, Insert(0, 0, topic, true)) == inserted
            && Apply(inserted, Start(1, [0], 0)) == taken
            && Apply(taken, Start(2, [0], 0)) ==
                 taken.(publishers := map[1 := Publisher([0], Free), 2 := Publisher([0], Free)])
  {
  }

  /** The claim repeats the status test but not the date: a publisher whose snapshot is stale
      claims an event that another one has just sent back, before its retry time. */
  lemma StaleSnapshotSkipsBackoff(accepted: bool, now: int, random: real)
    requires RetryPolicy.Draw(random)
    ensures var s := Run(TWO_SNAPSHOTS, [Claim(1), Send(1, Unreachable(accepted)), Settle(1, now, random)]);
            && 0 in s.events && s.events[0].status == Pending && s.events[0].availableAt >= now + 750
            && 0 in Apply(s, Claim(2)).events && Apply(s, Claim(2)).events[0].status == Processing
  {
    var acts := [Claim(1), Send(1, Unreachable(accepted)), Settle(1, now, random)];
    assert acts[1..] == [acts[1], acts[2]] && acts[1..][1..] == [acts[2]] && acts[1..][1..][1..] == [];
    var s1 := Apply(TWO_SNAPSHOTS, acts[0]);
    var s2 := Apply(s1, acts[1]);
    var s3 := Apply(s2, acts[2]);
    assert Run(TWO_SNAPSHOTS, acts) == Run(s1, acts[1..]) == Run(s2, acts[1..][1..]) == s3;
    RetryPolicy.RetryAtIsInTheFuture(1, now, random);
  }

  // The last write to a row's date: a settlement, with the clock and the draw it used, or an
  // operator's retry.
  datatype Write = BySettlement(at: int, random: real) | ByOperator(at: int)

  function WriteOf(s: System, a: Action, id: EventId): Option<Write> {
    match a
    case Settle(p, now, random) =>
      if Enabled(s, a) && s.publishers[p].hold.id == id then Some(BySettlement(now, random)) else None
    case OperatorRetry(retried, now) => if Enabled(s, a) && retried == id then Some(ByOperator(now)) else None
    case _ => None
  }

  function LastWrite(s: System, acts: seq<Action>, id: EventId): Option<Write>
    decreases |acts|
  {
    if acts == [] then None
    else
      var later := LastWrite(Apply(s, acts[0]), acts[1..], id);
      if later.Some? then later else WriteOf(s, acts[0], id)
  }

  /** When a row that waits under its attempt number is due, after that write. */
  function DueAfter(write: Write, attempts: nat): int {
    match write
    case BySettlement(at, random) => RetryPolicy.RetryAt(attempts, at, random)
    case ByOperator(at) => at
  }

  /** What can have become of a row since it was `row`: it was written, or has not waited since, or is
      what it was. */
  ghost predicate Since(row: Event, e: Event, write: Option<Write>) {
    && (e.status == Pending ==> if write.Some? then e.availableAt == DueAfter(write.value, e.attempts) else e == row)
    && (write.Some? && write.value.BySettlement? ==> RetryPolicy.Draw(write.value.random))
  }

  lemma StepKeepsSince(s: System, a: Action, id: EventId, row: Event, write: Option<Write>)
    requires Inv(s) && id in s.events && Since(row, s.events[id], write)
    ensures id in Apply(s, a).events
    ensures Since(row, Apply(s, a).events[id], if WriteOf(s, a, id).Some? then WriteOf(s, a, id) else write)
  {
    if Enabled(s, a) && a.Settle? {
      assert Holds(s, a.p, s.publishers[a.p].hold.id);
    }
  }

  lemma {:induction false} RunKeepsSince(s: System, acts: seq<Action>, id: EventId, row: Event, write: Option<Write>)
    requires Inv(s) && id in s.events && Since(row, s.events[id], write)
    ensures id in Run(s, acts).events
    ensures Since(row, Run(s, acts).events[id], if LastWrite(s, acts, id).Some? then LastWrite(s, acts, id) else write)
    decreases |acts|
  {
    if acts != [] {
      var next := if WriteOf(s, acts[0], id).Some? then WriteOf(s, acts[0], id) else write;
      StepKeepsSince(s, acts[0], id, row, write);
      StepKeepsInv(s, acts[0]);
      RunKeepsSince(Apply(s, acts[0]), acts[1..], id, row, next);
    }
  }

  /** Exactly when it happens. A publisher took its snapshot at `now`, anybody did anything since, and
      the publisher claims the event at `clock`: the claim goes through, and it comes before the
      event's retry time if and only if the event was written since the snapshot and its due time, as
      that write set it, lies beyond the clock. */
  lemma {:induction false} ClaimedEarlyIff(
      s: System, p: Pid, batch: seq<EventId>, now: int, acts: seq<Action>, clock: int, id: EventId)
    requires Inv(s) && Enabled(s, Start(p, batch, now)) && id in batch && now <= clock
    requires var t := Run(Apply(s, Start(p, batch, now)), acts);
             Enabled(t, Claim(p)) && t.publishers[p].queue[0] == id && t.events[id].status == Pending
    ensures var start := Apply(s, Start(p, batch, now));
            var t, write := Run(start, acts), LastWrite(start, acts, id);
            && id in Apply(t, Claim(p)).events && Apply(t, Claim(p)).events[id].status == Processing
            && (t.events[id].availableAt > clock <==>
                write.Some? && clock < DueAfter(write.value, t.events[id].attempts))
  {
    StepKeepsInv(s, Start(p, batch, now));
    RunKeepsSince(Apply(s, Start(p, batch, now)), acts, id, s.events[id], None);
  }

  /** The attempts of a row grow with every claim of it, and only an operator's retry takes them back. */
  ghost predicate GrownSince(row: Event, e: Event, written: bool) {
    && row.attempts <= e.attempts
    && (written || e.status == Processing ==> row.attempts < e.attempts)
    && (!written ==> e == row || e.status == Processing)
  }

  lemma StepKeepsGrown(s: System, a: Action, id: EventId, row: Event, written: bool)
    requires Inv(s) && id in s.events && row.status == Pending && GrownSince(row, s.events[id], written)
    requires !(a.OperatorRetry? && a.id == id)
    ensures id in Apply(s, a).events && GrownSince(row, Apply(s, a).events[id], written || WriteOf(s, a, id).Some?)
  {
    if Enabled(s, a) && a.Settle? {
      assert Holds(s, a.p, s.publishers[a.p].hold.id);
    }
  }

  lemma {:induction false} RunKeepsGrown(s: System, acts: seq<Action>, id: EventId, row: Event, written: bool)
    requires Inv(s) && id in s.events && row.status == Pending && GrownSince(row, s.events[id], written)
    requires !RetriedByOperator(acts, id)
    ensures id in Run(s, acts).events
    ensures GrownSince(row, Run(s, acts).events[id], written || LastWrite(s, acts, id).Some?)
    decreases |acts|
  {
    if acts != [] {
      StepKeepsGrown(s, acts[0], id, row, written);
      StepKeepsInv(s, acts[0]);
      RunKeepsGrown(Apply(s, acts[0]), acts[1..], id, row, written || WriteOf(s, acts[0], id).Some?);
    }
  }

  /** What the row itself shows of it: unless an operator retried the event, a waiting row was written
      since the snapshot if and only if its attempts grew; a claim less than three quarters of the
      capped delay after that write is early whatever was drawn, and one after five quarters is not. */
  lemma {:induction false} AttemptedSinceIff(s: System, id: EventId, acts: seq<Action>, clock: int)
    requires Inv(s) && id in s.events && s.events[id].status == Pending && !RetriedByOperator(acts, id)
    requires id in Run(s, acts).events && Run(s, acts).events[id].status == Pending
    ensures var e, write := Run(s, acts).events[id], LastWrite(s, acts, id);
            var cap := RetryPolicy.CappedExponential(e.attempts);
            && (write.Some? <==> e.attempts > s.events[id].attempts)
            && (write.Some? && clock < write.value.at + RetryPolicy.Quarters(cap, 3) ==> e.availableAt > clock)
            && (write.Some? && clock >= write.value.at + RetryPolicy.Quarters(cap, 5) ==> e.availableAt <= clock)
  {
    var e, write := Run(s, acts).events[id], LastWrite(s, acts, id);
    RunKeepsGrown(s, acts, id, s.events[id], false);
    RunKeepsSince(s, acts, id, s.events[id], None);
    WritesAreSettlements(s, acts, id);
    if write.Some? {
      RetryPolicy.DelayBand(e.attempts, write.value.random);
    }
  }

  lemma {:induction false} WritesAreSettlements(s: System, acts: seq<Action>, id: EventId)
    requires !RetriedByOperator(acts, id)
    ensures LastWrite(s, acts, id).Some? ==> LastWrite(s, acts, id).value.BySettlement?
    decreases |acts|
  {
    if acts != [] {
      WritesAreSettlements(Apply(s, acts[0]), acts[1..], id);
    }
  }

  // ---- acceptances --------------------------------------------------------------------

  /** A settlement that sends back an event whose last request the receiver accepted: the answer was
      lost, or denied it. */
  ghost predicate LosesAnswer(s: System, a: Action, id: EventId) {
    && a.Settle? && Enabled(s, a) && s.publishers[a.p].hold.id == id
    && Accepts(s.publishers[a.p].hold.outcome)
    && SendsBack(s.publishers[a.p].hold.outcome, s.publishers[a.p].hold.attempts)
  }

  /** An answer was lost in the run, and no operator has retried the event since. */
  ghost predicate LostAnAnswer(acts: seq<Action>, id: EventId) {
    acts != [] &&
    var so, last := acts[..|acts| - 1], acts[|acts| - 1];
    || LosesAnswer(Run(EMPTY, so), last, id)
    || (LostAnAnswer(so, id) && !(last.OperatorRetry? && last.id == id && Enabled(Run(EMPTY, so), last)))
  }

  lemma LostBackAfter(s: System, a: Action, id: EventId)
    requires Inv(s)
    ensures HistoryOf(Apply(s, a), id).lostBack > 0 <==>
            LosesAnswer(s, a, id)
            || (HistoryOf(s, id).lostBack > 0 && !(a.OperatorRetry? && a.id == id && Enabled(s, a)))
  {
    if Enabled(s, a) && a.Settle? {
      assert Holds(s, a.p, s.publishers[a.p].hold.id);
    }
  }

  lemma RunSplits(acts: seq<Action>)
    requires acts != []
    ensures Run(EMPTY, acts) == Apply(Run(EMPTY, acts[..|acts| - 1]), acts[|acts| - 1])
  {
    SplitsFrom(EMPTY, acts);
  }

  lemma SplitsFrom(s: System, acts: seq<Action>)
    requires acts != []
    ensures Run(s, acts) == Apply(Run(s, acts[..|acts| - 1]), acts[|acts| - 1])
  {
    LastStep(s, acts, acts[..|acts| - 1], acts[|acts| - 1]);
  }

  lemma LastStep(s: System, acts: seq<Action>, so: seq<Action>, last: Action)
    requires acts == so + [last]
    ensures Run(s, acts) == Apply(Run(s, so), last)
  {
    Append(s, so, last);
  }

  lemma {:induction false} LostBackIff(acts: seq<Action>, id: EventId)
    ensures HistoryOf(Run(EMPTY, acts), id).lostBack > 0 <==> LostAnAnswer(acts, id)
    decreases |acts|
  {
    if acts != [] {
      var so := acts[..|acts| - 1];
      LostBackIff(so, id);
      RunKeepsInv(EMPTY, so);
      LostBackAfter(Run(EMPTY, so), acts[|acts| - 1], id);
      RunSplits(acts);
    }
  }

  /** A request the receiver accepts. */
  ghost predicate IsAccepted(s: System, a: Action, id: EventId) {
    a.Send? && Enabled(s, a) && s.publishers[a.p].hold.id == id && Accepts(a.outcome)
  }

  lemma AcceptedAfter(s: System, a: Action, id: EventId)
    requires Inv(s)
    ensures IsAccepted(s, a, id) ==>
              && HistoryOf(Apply(s, a), id).accepted == HistoryOf(s, id).accepted + 1
              && HistoryOf(s, id).accepted == HistoryOf(s, id).lostBack
    ensures !IsAccepted(s, a, id) ==> HistoryOf(Apply(s, a), id).accepted <= HistoryOf(s, id).accepted
  {
    if Enabled(s, a) && (a.Send? || a.Settle?) {
      assert Holds(s, a.p, s.publishers[a.p].hold.id);
    }
  }

  /** In any run an acceptance of an event comes on top of an earlier one, with no operator's retry in
      between, if and only if an answer was lost and the event sent back for it. */
  lemma SecondAcceptanceIff(acts: seq<Action>, a: Action, id: EventId)
    requires IsAccepted(Run(EMPTY, acts), a, id)
    ensures HistoryOf(Run(EMPTY, acts), id).accepted > 0 <==> LostAnAnswer(acts, id)
  {
    RunKeepsInv(EMPTY, acts);
    AcceptedAfter(Run(EMPTY, acts), a, id);
    LostBackIff(acts, id);
  }

  lemma {:induction false} OnceAfter(acts: seq<Action>, a: Action, id: EventId)
    requires HistoryOf(Run(EMPTY, acts), id).accepted <= 1
    ensures HistoryOf(Apply(Run(EMPTY, acts), a), id).accepted <= 1 <==>
            !(IsAccepted(Run(EMPTY, acts), a, id) && LostAnAnswer(acts, id))
  {
    RunKeepsInv(EMPTY, acts);
    AcceptedAfter(Run(EMPTY, acts), a, id);
    LostBackIff(acts, id);
  }

  ghost predicate AcceptedOnce(acts: seq<Action>, id: EventId) {
    forall k :: 0 <= k <= |acts| ==> HistoryOf(Run(EMPTY, acts[..k]), id).accepted <= 1
  }

  ghost predicate NoneAfterALoss(acts: seq<Action>, id: EventId) {
    forall k :: 0 <= k < |acts| ==> !(IsAccepted(Run(EMPTY, acts[..k]), acts[k], id) && LostAnAnswer(acts[..k], id))
  }

  lemma {:induction false} OnceInit(acts: seq<Action>, id: EventId)
    requires acts != []
    ensures var so, last := acts[..|acts| - 1], acts[|acts| - 1];
            && (AcceptedOnce(acts, id) <==> AcceptedOnce(so, id) && HistoryOf(Run(EMPTY, acts), id).accepted <= 1)
            && (NoneAfterALoss(acts, id) <==>
                  NoneAfterALoss(so, id) && !(IsAccepted(Run(EMPTY, so), last, id) && LostAnAnswer(so, id)))
  {
    var n := |acts| - 1;
    assert acts[..n + 1] == acts;
    assert forall k :: 0 <= k <= n ==> acts[..n][..k] == acts[..k];
    assert forall k :: 0 <= k < n ==> acts[..n][k] == acts[k];
  }

  /** Throughout a run the receiver accepts an event at most once between two operator retries, if and
      only if no request is accepted after an answer was lost. */
  lemma {:induction false} AcceptedOnceIff(acts: seq<Action>, id: EventId)
    ensures AcceptedOnce(acts, id) <==> NoneAfterALoss(acts, id)
    decreases |acts|
  {
    if acts == [] {
      assert acts[..0] == [];
    } else {
      var so := acts[..|acts| - 1];
      AcceptedOnceIff(so, id);
      OnceInit(acts, id);
      RunSplits(acts);
      if AcceptedOnce(so, id) {
        assert so[..|so|] == so;
        OnceAfter(so, acts[|acts| - 1], id);
      }
    }
  }

  /** One event and one publisher, after `n` requests the receiver accepted and whose answers were lost. */
  ghost predicate Lost(s: System, topic: string, n: nat, due: int) {
    && s.events == map[0 := Event(Pending, n, due, topic, true)]
    && s.publishers == (if n == 0 then map[] else map[1 := Publisher([], Free)])
    && s.past == map[0 := History(n, n, 0, n, n, 0)]
  }

  ghost function Running(topic: string, n: nat, due: int, hold: Hold, past: History): System {
    System(map[0 := Event(Processing, n + 1, due, topic, true)], map[1 := Publisher([], hold)], map[0 := past])
  }

  ghost function Retaken(topic: string, n: nat, due: int): System {
    Running(topic, n, due, Claimed(0, n + 1), History(n, n, 0, n, n, 0))
  }

  lemma TakenOnceMore(s: System, topic: string, n: nat, due: int)
    requires Lost(s, topic, n, due) && topic in CLUB_TOPICS
    ensures Apply(Apply(s, Start(1, [0], due)), Claim(1)) == Retaken(topic, n, due)
  {
    var started := Apply(s, Start(1, [0], due));
    assert started == System(s.events, map[1 := Publisher([0], Free)], s.past);
    assert [0][1..] == [];
  }

  ghost function Unanswered(topic: string, n: nat, due: int): System {
    Running(topic, n, due, Finished(0, n + 1, Unreachable(true)), History(n + 1, n + 1, 0, n, n + 1, 0))
  }

  lemma SentOnceMore(topic: string, n: nat, due: int)
    ensures Apply(Retaken(topic, n, due), Send(1, Unreachable(true))) == Unanswered(topic, n, due)
  {
  }

  lemma LostOnceMore(topic: string, n: nat, due: int) returns (later: int)
    requires n + 1 < MAX_ATTEMPTS
    ensures Lost(Apply(Unanswered(topic, n, due), Settle(1, due, 0.0)), topic, n + 1, later)
  {
    later := RetryPolicy.RetryAt(n + 1, due, 0.0);
  }

  lemma AppendFour(s: System, so: seq<Action>, a: Action, b: Action, c: Action, d: Action)
    ensures Run(s, so + [a] + [b] + [c]) == Apply(Apply(Apply(Run(s, so), a), b), c)
    ensures Run(s, so + [a] + [b] + [c] + [d]) == Apply(Apply(Apply(Apply(Run(s, so), a), b), c), d)
  {
    Append(s, so, a);
    Append(s, so + [a], b);
    Append(s, so + [a] + [b], c);
    Append(s, so + [a] + [b] + [c], d);
  }

  lemma LostLonger(s: System, so: seq<Action>, topic: string, n: nat, due: int)
    returns (acts: seq<Action>, later: int)
    requires n + 1 < MAX_ATTEMPTS && topic in CLUB_TOPICS && Lost(Run(s, so), topic, n, due)
    ensures Lost(Run(s, acts), topic, n + 1, later)
  {
    var start, claim, send, settle := Start(1, [0], due), Claim(1), Send(1, Unreachable(true)), Settle(1, due, 0.0);
    acts := so + [start] + [claim] + [send] + [settle];
    AppendFour(s, so, start, claim, send, settle);
    TakenOnceMore(Run(s, so), topic, n, due);
    SentOnceMore(topic, n, due);
    later := LostOnceMore(topic, n, due);
  }

  lemma InsertedOnly(topic: string)
    ensures Lost(Run(EMPTY, [Insert(0, 0, topic, true)]), topic, 0, 0)
  {
    LastStep(EMPTY, [Insert(0, 0, topic, true)], [], Insert(0, 0, topic, true));
  }

  lemma {:induction false} LostRun(topic: string, n: nat) returns (acts: seq<Action>, due: int)
    requires n < MAX_ATTEMPTS && topic in CLUB_TOPICS
    ensures Lost(Run(EMPTY, acts), topic, n, due)
    decreases n
  {
    if n == 0 {
      acts, due := [Insert(0, 0, topic, true)], 0;
      InsertedOnly(topic);
    } else {
      var so, before := LostRun(topic, n - 1);
      acts, due := LostLonger(EMPTY, so, topic, n - 1, before);
    }
  }

  /** Lost answers are real: for every n up to the limit there is a run without an operator in which the
      receiver accepts one event n times, the last with a 2xx answer. Safety says there is none beyond. */
  lemma LostAnswersAreAcceptedAgain(n: nat) returns (acts: seq<Action>)
    requires 1 <= n <= MAX_ATTEMPTS
    ensures var h := HistoryOf(Run(EMPTY, acts), 0);
            h.posts == n && h.accepted == n && h.acknowledged == 1 && h.retries == 0
  {
    var so, due := LostRun(A_TOPIC, n - 1);
    acts := so + [Start(1, [0], due)] + [Claim(1)] + [Send(1, Answered(200, true))];
    AppendFour(EMPTY, so, Start(1, [0], due), Claim(1), Send(1, Answered(200, true)), Claim(1));
    TakenOnceMore(Run(EMPTY, so), A_TOPIC, n - 1, due);
    AnsweredAtLast(A_TOPIC, n - 1, due);
  }

  lemma AnsweredAtLast(topic: string, n: nat, due: int)
    ensures HistoryOf(Apply(Retaken(topic, n, due), Send(1, Answered(200, true))), 0) ==
            History(n + 1, n + 1, 1, n, n + 1, 0)
  {
  }

  // ---- other topics -------------------------------------------------------------------

  ghost predicate IsClubTopic(topic: string) {
    topic in {"product.updated", "stock.updated", "order.closed", "payment.confirmed", "customer.updated",
              "club.sale.registered", "club.stock_movement.created"}
  }

  /** What the select asks of a row, written out. */
  ghost predicate IsDue(e: Event, now: int) {
    e.status.Pending? && e.availableAt <= now && IsClubTopic(e.topic)
  }

  /** What the select returns: at most 25 due rows, each once, and all of them when there are fewer. */
  ghost predicate IsSelection(events: map<EventId, Event>, batch: seq<EventId>, now: int) {
    && |batch| <= 25 && (forall i, j :: 0 <= i < j < |batch| ==> batch[i] != batch[j])
    && (forall id :: id in batch ==> id in events && IsDue(events[id], now))
    && (|batch| < 25 ==> forall id :: id in events && IsDue(events[id], now) ==> id in batch)
  }

  lemma SelectionIsFound(events: map<EventId, Event>, batch: seq<EventId>, now: int)
    requires IsSelection(events, batch, now)
    ensures forall k :: 0 <= k < |batch| ==> batch[k] in events
  {
    assert forall k :: 0 <= k < |batch| ==> batch[k] in batch;
  }

  lemma SelectableIff(e: Event, now: int)
    ensures Selectable(e, now) <==> IsDue(e, now)
  {
  }

  ghost predicate QueuesAreClub(s: System) {
    forall p, k :: p in s.publishers && 0 <= k < |s.publishers[p].queue| ==>
      s.publishers[p].queue[k] in s.events && IsClubTopic(s.events[s.publishers[p].queue[k]].topic)
  }

  ghost predicate Untouched(s: System, id: EventId)
    requires id in s.events
  {
    s.events[id].status.Pending? && s.events[id].attempts == 0 && HistoryOf(s, id).everPosted == 0
  }

  ghost predicate OthersUntouched(s: System) {
    forall id :: id in s.events && !IsClubTopic(s.events[id].topic) ==> Untouched(s, id)
  }

  lemma TopicsStay(s: System, a: Action, id: EventId)
    requires id in s.events
    ensures id in Apply(s, a).events && Apply(s, a).events[id].topic == s.events[id].topic
  {
  }

  lemma StepKeepsQueues(s: System, a: Action)
    requires QueuesAreClub(s)
    ensures QueuesAreClub(Apply(s, a))
  {
    var t := Apply(s, a);
    forall p, k | p in t.publishers && 0 <= k < |t.publishers[p].queue|
      ensures t.publishers[p].queue[k] in t.events && IsClubTopic(t.events[t.publishers[p].queue[k]].topic)
    {
      var id := t.publishers[p].queue[k];
      QueuedBefore(s, a, p, k);
      TopicsStay(s, a, id);
    }
  }

  lemma QueuedBefore(s: System, a: Action, p: Pid, k: nat)
    requires QueuesAreClub(s) && p in Apply(s, a).publishers && k < |Apply(s, a).publishers[p].queue|
    ensures var id := Apply(s, a).publishers[p].queue[k]; id in s.events && IsClubTopic(s.events[id].topic)
  {
    if Enabled(s, a) && a.Start? && a.p == p {
      SelectableIff(s.events[a.batch[k]], a.now);
    } else if Enabled(s, a) && a.Claim? && a.p == p {
      assert s.publishers[p].queue[1..][k] == s.publishers[p].queue[k + 1];
    }
  }

  lemma StepKeepsOthers(s: System, a: Action, id: EventId)
    requires Inv(s) && QueuesAreClub(s) && OthersUntouched(s)
    requires id in Apply(s, a).events && !IsClubTopic(Apply(s, a).events[id].topic)
    ensures Untouched(Apply(s, a), id)
  {
    if id in s.events {
      TopicsStay(s, a, id);
      assert Untouched(s, id);
    }
    if Enabled(s, a) && (a.Send? || a.Settle?) {
      assert Holds(s, a.p, s.publishers[a.p].hold.id);
    }
  }

  lemma {:induction false} OthersAreLeftAlone(acts: seq<Action>)
    ensures QueuesAreClub(Run(EMPTY, acts)) && OthersUntouched(Run(EMPTY, acts))
    decreases |acts|
  {
    if acts != [] {
      var so, last := acts[..|acts| - 1], acts[|acts| - 1];
      OthersAreLeftAlone(so);
      RunKeepsInv(EMPTY, so);
      RunSplits(acts);
      var s := Run(EMPTY, so);
      StepKeepsQueues(s, last);
      forall id | id in Apply(s, last).events && !IsClubTopic(Apply(s, last).events[id].topic)
        ensures Untouched(Apply(s, last), id)
      {
        StepKeepsOthers(s, last, id);
      }
    }
  }

  /** In every run an event of another topic stays as it was inserted: pending, never attempted and never
      sent to the club. */
  lemma {:induction false} OtherTopicsAreNotSent(acts: seq<Action>, id: EventId)
    requires id in Run(EMPTY, acts).events
    requires Run(EMPTY, acts).events[id].topic !in
               {"product.updated", "stock.updated", "order.closed", "payment.confirmed", "customer.updated",
                "club.sale.registered", "club.stock_movement.created"}
    ensures var s := Run(EMPTY, acts);
            s.events[id].status == Pending && s.events[id].attempts == 0 && HistoryOf(s, id).everPosted == 0
  {
    OthersAreLeftAlone(acts);
    assert Untouched(Run(EMPTY, acts), id);
  }

  // ---- the publisher's own pass -------------------------------------------------------

  /** One pass over a row nobody else touches: claimed, answered and settled under one attempt. */
  function PassRow(e: Event, o: Outcome, now: int, random: real): Event {
    if e.status != Pending then e
    else if !e.hasTenant then ClaimedRow(e)
    else SettledRow(ClaimedRow(e), e.attempts + 1, o, now, random)
  }

  /** The pass over a batch of rows, one after the other. */
  function PassRows(events: map<EventId, Event>, batch: seq<EventId>, w: World): (after: map<EventId, Event>)
    requires forall i :: 0 <= i < |batch| ==> batch[i] in events
    ensures after.Keys == events.Keys
  {
    if batch == [] then events else
    var k := |batch| - 1;
    var so := PassRows(events, batch[..k], w);
    so[batch[k] := PassRow(so[batch[k]], w.outcome(k), w.clock(k), w.draw(k))]
  }

  lemma PassRowsStep(events: map<EventId, Event>, batch: seq<EventId>, i: nat, w: World)
    requires i < |batch| && forall k :: 0 <= k < |batch| ==> batch[k] in events
    ensures var so := PassRows(events, batch[..i], w);
            PassRows(events, batch[..i + 1], w) ==
              so[batch[i] := PassRow(so[batch[i]], w.outcome(i), w.clock(i), w.draw(i))]
  {
    assert batch[..i + 1][..i] == batch[..i];
  }

  /** A batch names each row once, so every row of it gets exactly one attempt and no other row changes. */
  lemma {:induction false} PassRowsPointwise(events: map<EventId, Event>, batch: seq<EventId>, w: World)
    requires forall i :: 0 <= i < |batch| ==> batch[i] in events
    requires forall i, j :: 0 <= i < j < |batch| ==> batch[i] != batch[j]
    ensures forall id :: id in events && id !in batch ==> PassRows(events, batch, w)[id] == events[id]
    ensures forall k :: 0 <= k < |batch| ==>
              PassRows(events, batch, w)[batch[k]] == PassRow(events[batch[k]], w.outcome(k), w.clock(k), w.draw(k))
  {
    if batch != [] {
      PassRowsPointwise(events, batch[..|batch| - 1], w);
    }
  }

  lemma PassOfOne(s: System, p: Pid, o: Outcome, now: int, random: real)
    requires Enabled(s, Claim(p)) && RetryPolicy.Draw(random)
    ensures var id := s.publishers[p].queue[0];
            var claimed := Apply(s, Claim(p));
            var after := if s.events[id].status == Pending && s.events[id].hasTenant
              then Apply(Apply(claimed, Send(p, o)), Settle(p, now, random)) else claimed;
            after.events == s.events[id := PassRow(s.events[id], o, now, random)]
  {
  }

  // What the world supplies to a pass: steps of everybody else between this publisher's
  // statements, whether finding the target of an event throws, the outcome of each request, the
  // clock and the random draws.
  datatype World = World(
    others: nat -> seq<Action>, breaks: nat -> bool, outcome: nat -> Outcome, clock: nat -> int, draw: nat -> real)

  predicate StepOf(a: Action, p: Pid) {
    match a
    case Insert(_, _, _, _) => false
    case OperatorRetry(_, _) => false
    case _ => a.p == p
  }

  ghost predicate ForeignOnly(acts: seq<Action>, p: Pid) {
    forall i :: 0 <= i < |acts| ==> !StepOf(acts[i], p)
  }

  ghost predicate WorldFor(w: World, p: Pid) {
    (forall n: nat :: ForeignOnly(w.others(n), p)) && (forall n: nat :: RetryPolicy.Draw(w.draw(n)))
  }

  ghost predicate Quiet(w: World) {
    forall n: nat :: w.others(n) == [] && !w.breaks(n)
  }

  lemma {:induction false} ForeignStepsKeepPublisher(s: System, acts: seq<Action>, p: Pid)
    requires ForeignOnly(acts, p) && p in s.publishers
    ensures p in Run(s, acts).publishers && Run(s, acts).publishers[p] == s.publishers[p]
    decreases |acts|
  {
    if acts != [] {
      assert !StepOf(acts[0], p);
      ForeignStepsKeepPublisher(Apply(s, acts[0]), acts[1..], p);
    }
  }

  lemma {:induction false} RunKeepsRows(s: System, acts: seq<Action>)
    ensures s.events.Keys <= Run(s, acts).events.Keys
    decreases |acts|
  {
    if acts != [] {
      RunKeepsRows(Apply(s, acts[0]), acts[1..]);
    }
  }

  // The table starts EMPTY and every method reports the run it made, so the theorems above
  // about Run(EMPTY, ..) hold of the table at all times.
  class OutboxTable {
    var system: System

    constructor ()
      ensures system == EMPTY
    {
      system := EMPTY;
    }

    /** The select: at most 25 due rows of the club's topics, all of them when there are fewer. */
    method SelectPending(now: int) returns (batch: seq<EventId>)
      ensures ValidBatch(system.events, batch, now)
      ensures IsSelection(system.events, batch, now)
    {
      forall id | id in system.events ensures Selectable(system.events[id], now) <==> IsDue(system.events[id], now) {
        SelectableIff(system.events[id], now);
      }
      var due := set id | id in system.events && Selectable(system.events[id], now);
      var rest := due;
      batch := [];
      while rest != {} && |batch| < BATCH
        invariant rest <= due && |batch| <= BATCH
        invariant forall id :: id in batch ==> id in due && id !in rest
        invariant forall i, j :: 0 <= i < j < |batch| ==> batch[i] != batch[j]
        invariant forall id :: id in due ==> id in rest || id in batch
        decreases rest
      {
        var id :| id in rest;
        batch := batch + [id];
        rest := rest - {id};
      }
      assert forall i :: 0 <= i < |batch| ==> batch[i] in due;
    }

    /** Everybody else's statements, between two of this publisher's. */
    method Others(acts: seq<Action>, p: Pid)
      requires ForeignOnly(acts, p) && p in system.publishers
      modifies this
      ensures system == Run(old(system), acts)
      ensures p in system.publishers && system.publishers[p] == old(system.publishers[p])
      ensures old(system.events).Keys <= system.events.Keys
    {
      RunKeepsRows(system, acts);
      ForeignStepsKeepPublisher(system, acts, p);
      system := Run(system, acts);
    }

    /** One statement of publisher `p`. */
    method Statement(a: Action)
      requires Enabled(system, a)
      modifies this
      ensures system == Apply(old(system), a)
      ensures old(system.events).Keys <= system.events.Keys
    {
      system := Apply(system, a);
    }

    /** The compare-and-set on the status. What comes back is the row as it is now stored, processing
        and with one attempt more than before; when nothing comes back another publisher was first,
        or finished the row, and no row has changed. Either way no other row has. */
    method ClaimRow(p: Pid) returns (claimed: Option<Event>)
      requires Enabled(system, Claim(p))
      modifies this
      ensures system == Apply(old(system), Claim(p))
      ensures var id := old(system.publishers[p].queue[0]);
              && id in system.events
              && (forall other :: other in old(system.events) && other != id ==>
                  other in system.events && system.events[other] == old(system.events)[other])
              && (claimed.Some? ==>
                    && system.events[id] == claimed.value && claimed.value.status == Processing
                    && claimed.value.attempts == old(system.events)[id].attempts + 1)
              && (claimed.None? ==> system.events == old(system.events) && system.events[id].status != Pending)
      ensures old(system.events).Keys <= system.events.Keys
    {
      var id := system.publishers[p].queue[0];
      var row := system.events[id];
      claimed := if row.status == Pending then Some(ClaimedRow(row)) else None;
      Statement(Claim(p));
    }

    /** The body of the loop: one selected event. A lost claim and a missing tenant end it early, and an
        exception ends the pass. */
    method PublishOne(p: Pid, k: nat, w: World) returns (thrown: bool, ghost trace: seq<Action>)
      requires WorldFor(w, p)
      requires p in system.publishers && system.publishers[p].hold.Free? && system.publishers[p].queue != []
      requires system.publishers[p].queue[0] in system.events
      modifies this
      ensures system == Run(old(system), trace)
      ensures p in system.publishers && (thrown ==> w.breaks(k))
      ensures system.publishers[p] == Publisher(if thrown then [] else old(system).publishers[p].queue[1..], Free)
      ensures old(system).events.Keys <= system.events.Keys
      ensures Quiet(w) ==>
                var id := old(system).publishers[p].queue[0];
                system.events ==
                  old(system).events[id := PassRow(old(system).events[id], w.outcome(k), w.clock(k), w.draw(k))]
    {
      ghost var start := system;
      trace := w.others(3 * k);
      Others(w.others(3 * k), p);
      if Quiet(w) { PassOfOne(system, p, w.outcome(k), w.clock(k), w.draw(k)); }

      Append(start, trace, Claim(p));
      trace := trace + [Claim(p)];
      var claimed := ClaimRow(p);
      thrown := false;
      if claimed.None? || !claimed.value.hasTenant {
        return;
      }

      if w.breaks(k) {
        Append(start, trace, Throw(p));
        trace := trace + [Throw(p)];
        Statement(Throw(p));
        return true, trace;
      }

      RunConcat(start, trace, w.others(3 * k + 1));
      trace := trace + w.others(3 * k + 1);
      Others(w.others(3 * k + 1), p);
      Append(start, trace, Send(p, w.outcome(k)));
      trace := trace + [Send(p, w.outcome(k))];
      Statement(Send(p, w.outcome(k)));

      RunConcat(start, trace, w.others(3 * k + 2));
      trace := trace + w.others(3 * k + 2);
      Others(w.others(3 * k + 2), p);
      Append(start, trace, Settle(p, w.clock(k), w.draw(k)));
      trace := trace + [Settle(p, w.clock(k), w.draw(k))];
      Statement(Settle(p, w.clock(k), w.draw(k)));
    }

    /** The select, whose rows the publisher then holds in memory. */
    method TakeSnapshot(p: Pid, now: int) returns (events: seq<EventId>, ghost trace: seq<Action>)
      requires p in system.publishers ==> system.publishers[p] == Publisher([], Free)
      modifies this
      ensures system == Run(old(system), trace) && system.events == old(system).events
      ensures p in system.publishers && system.publishers[p] == Publisher(events, Free)
      ensures IsSelection(system.events, events, now)
    {
      events := SelectPending(now);
      Append(system, [], Start(p, events, now));
      trace := [] + [Start(p, events, now)];
      Statement(Start(p, events, now));
    }

    /** The pass after `i` of its events: a run so far, with the rest of the events still to come. */
    ghost predicate Midway(start: System, p: Pid, events: seq<EventId>, i: nat, w: World, trace: seq<Action>)
      requires i <= |events| && forall k :: 0 <= k < |events| ==> events[k] in start.events
      reads this
    {
      && system == Run(start, trace)
      && p in system.publishers && system.publishers[p] == Publisher(events[i..], Free)
      && start.events.Keys <= system.events.Keys
      && (Quiet(w) ==> system.events == PassRows(start.events, events[..i], w))
    }

    method PublishNext(ghost start: System, p: Pid, events: seq<EventId>, i: nat, w: World, ghost trace: seq<Action>)
      returns (thrown: bool, ghost longer: seq<Action>)
      requires WorldFor(w, p) && i < |events| && forall k :: 0 <= k < |events| ==> events[k] in start.events
      requires Midway(start, p, events, i, w, trace)
      modifies this
      ensures !thrown ==> Midway(start, p, events, i + 1, w, longer)
      ensures thrown ==>
                && w.breaks(i) && system == Run(start, longer)
                && p in system.publishers && system.publishers[p] == Publisher([], Free)
    {
      assert events[i..][0] == events[i] && events[i..][1..] == events[i + 1..];
      PassRowsStep(start.events, events, i, w);
      ghost var step;
      thrown, step := PublishOne(p, i, w);
      RunConcat(start, trace, step);
      longer := trace + step;
    }

    /** The loop over the selected events. */
    method PublishAll(ghost start: System, p: Pid, events: seq<EventId>, w: World, ghost taken: seq<Action>)
      returns (thrown: bool, ghost trace: seq<Action>)
      requires WorldFor(w, p) && forall k :: 0 <= k < |events| ==> events[k] in start.events
      requires Midway(start, p, events, 0, w, taken)
      modifies this
      ensures system == Run(start, trace) && p in system.publishers && system.publishers[p] == Publisher([], Free)
      ensures thrown ==> exists k :: 0 <= k < |events| && w.breaks(k)
      ensures !thrown && Quiet(w) ==> system.events == PassRows(start.events, events, w)
    {
      trace := taken;
      for i := 0 to |events|
        invariant Midway(start, p, events, i, w, trace)
      {
        thrown, trace := PublishNext(start, p, events, i, w, trace);
        if thrown {
          return;
        }
      }
      assert events[..|events|] == events;
      thrown := false;
    }

    /** The whole pass of one publisher, with anything happening between its statements. It is
        one run of the shared machine, it ends owning nothing, and when nobody interferes it
        takes every selected row through exactly one attempt and touches no other row. It tells how many
        rows it selected unless an exception ended it. */
    method PublishPending(p: Pid, now: int, w: World)
      returns (scanned: Option<nat>, ghost batch: seq<EventId>, ghost trace: seq<Action>)
      requires WorldFor(w, p)
      requires p in system.publishers ==> system.publishers[p] == Publisher([], Free)
      modifies this
      ensures system == Run(old(system), trace)
      ensures p in system.publishers && system.publishers[p] == Publisher([], Free)
      ensures IsSelection(old(system).events, batch, now)
      ensures if scanned.None? then exists k :: 0 <= k < |batch| && w.breaks(k) else scanned.value == |batch|
      ensures Quiet(w) ==> scanned.Some? && system.events == PassRows(old(system).events, batch, w)
    {
      ghost var start := system;
      var events, thrown;
      events, trace := TakeSnapshot(p, now);
      batch := events;
      SelectionIsFound(start.events, events, now);
      thrown, trace := PublishAll(start, p, events, w, trace);
      scanned := if thrown then None else Some(|events|);
    }
  }

  lemma Append(s: System, trace: seq<Action>, a: Action)
    ensures Run(s, trace + [a]) == Apply(Run(s, trace), a)
  {
    RunConcat(s, trace, [a]);
    assert [a][1..] == [];
  }
}
