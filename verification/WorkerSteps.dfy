// The statements of the outbox publishers, with their tests and constants written out, and what each
// request counts for.
module WorkerSteps {
  import opened Options
  import opened WorkerOutbox
  import RetryPolicy

  /** A new event waits from its date on, without attempts or requests, and one that exists is left alone. */
  lemma InsertAdds(s: System, id: EventId, at: int, topic: string, hasTenant: bool)
    ensures var after := Apply(s, Insert(id, at, topic, hasTenant));
            && after.publishers == s.publishers
            && after.events ==
               (if id in s.events then s.events
                else s.events[id := Event(
                  status := Pending, attempts := 0, availableAt := at, topic := topic, hasTenant := hasTenant)])
            && (id !in s.events ==> HistoryOf(after, id) == History(0, 0, 0, 0, 0, 0))
  {
  }

  /** A pass may begin with any 25 due events of the club's topics, each named once. */
  lemma StartsIff(s: System, p: Pid, batch: seq<EventId>, now: int)
    ensures Enabled(s, Start(p, batch, now)) <==>
            && (p in s.publishers ==> s.publishers[p].queue == [] && s.publishers[p].hold == Free)
            && |batch| <= 25 && (forall i, j :: 0 <= i < j < |batch| ==> batch[i] != batch[j])
            && forall id :: id in batch ==> id in s.events && IsDue(s.events[id], now)
  {
    forall id | id in s.events ensures Selectable(s.events[id], now) <==> IsDue(s.events[id], now) {
      SelectableIff(s.events[id], now);
    }
    assert forall i :: 0 <= i < |batch| ==> batch[i] in batch;
  }

  /** The claim asks for the status alone: it takes the first event of the batch under one attempt more,
      whatever its date is by then, and holds it if it has a tenant; otherwise it passes the event over. */
  lemma ClaimTakes(s: System, p: Pid, id: EventId, rest: seq<EventId>)
    requires p in s.publishers && s.publishers[p] == Publisher([id] + rest, Free) && id in s.events
    ensures var after, e := Apply(s, Claim(p)), s.events[id];
            if e.status == Pending then
              && after.events == s.events[id := Event(Processing, e.attempts + 1, e.availableAt, e.topic, e.hasTenant)]
              && after.publishers == s.publishers[
                   p := Publisher(rest, if e.hasTenant then Claimed(id, e.attempts + 1) else Free)]
              && after.past == s.past
            else after == s.(publishers := s.publishers[p := Publisher(rest, Free)])
  {
    assert ([id] + rest)[1..] == rest;
  }

  /** An answer in the two hundreds. */
  ghost predicate IsGood(outcome: Outcome) {
    outcome == AckLost || (outcome.Answered? && outcome.http >= 200 && outcome.http <= 299)
  }

  /** The receiver has taken the event: it said so, or it did whatever came back. */
  ghost predicate WasTaken(outcome: Outcome) {
    IsGood(outcome) || (outcome.Answered? && outcome.accepted) || (outcome.Unreachable? && outcome.accepted)
  }

  /** What a request counts for: itself, its acceptance and its answer; nothing at all if it was not made. */
  lemma SendCounts(s: System, p: Pid, id: EventId, attempts: nat, outcome: Outcome)
    requires p in s.publishers && s.publishers[p].hold == Claimed(id, attempts)
    ensures var after, before := Apply(s, Send(p, outcome)), HistoryOf(s, id);
            && after.events == s.events
            && after.publishers == s.publishers[p := Publisher(s.publishers[p].queue, Finished(id, attempts, outcome))]
            && (forall other :: other != id ==> HistoryOf(after, other) == HistoryOf(s, other))
            && HistoryOf(after, id) ==
               if outcome == NotConfigured || outcome == BuildFailed then before
               else History(
                 before.posts + 1, before.accepted + (if WasTaken(outcome) then 1 else 0),
                 before.acknowledged + (if IsGood(outcome) then 1 else 0), before.lostBack,
                 before.everPosted + 1, before.retries)
  {
  }

  /** The outcomes that are tried again. */
  ghost predicate MayComeBack(outcome: Outcome) {
    || outcome == NotConfigured || outcome.Unreachable?
    || (outcome.Answered? && (outcome.http in {408, 425, 429} || outcome.http >= 500))
  }

  /** A settlement writes the event it holds and no other, and counts an acceptance it sends back. */
  lemma SettlementWrites(
      s: System, p: Pid, id: EventId, attempts: nat, outcome: Outcome, now: int, random: real)
    requires p in s.publishers && s.publishers[p].hold == Finished(id, attempts, outcome) && id in s.events
    requires 0.0 <= random < 1.0
    ensures var after, row := Apply(s, Settle(p, now, random)), s.events[id];
            var back := MayComeBack(outcome) && attempts <= 7;
            && after.publishers == s.publishers[p := Publisher(s.publishers[p].queue, Free)]
            && after.events.Keys == s.events.Keys
            && (forall other :: other in s.events && other != id ==> after.events[other] == s.events[other])
            && (forall other :: other != id ==> HistoryOf(after, other) == HistoryOf(s, other))
            && (if outcome.Answered? && outcome.http >= 200 && outcome.http <= 299
                then after.events[id] == row.(status := Processed)
                else
                  && after.events[id] == row.(
                       status := if back then Pending else DeadLetter, availableAt := after.events[id].availableAt)
                  && now + 750 <= after.events[id].availableAt <= now + 900_000)
            && HistoryOf(after, id) == HistoryOf(s, id).(
                 lostBack := HistoryOf(s, id).lostBack + if WasTaken(outcome) && back then 1 else 0)
  {
    RetryPolicy.RetryAtIsInTheFuture(attempts, now, random);
  }

  /** An operator retries a dead letter of the club's topics that has a tenant, and nothing else: it waits
      again from then on with no attempts, and its requests are counted anew. */
  lemma RetryResets(s: System, id: EventId, now: int)
    requires id in s.events
    ensures var after, e, before := Apply(s, OperatorRetry(id, now)), s.events[id], HistoryOf(s, id);
            if e.status == DeadLetter && IsClubTopic(e.topic) && e.hasTenant then
              && after.publishers == s.publishers
              && after.events == s.events[id := Event(Pending, 0, now, e.topic, e.hasTenant)]
              && HistoryOf(after, id) == History(0, 0, 0, 0, before.everPosted, before.retries + 1)
            else after == s
  {
  }

  /** Whose step it is: an insert and an operator's retry are nobody's, so that others may make them at any
      time. */
  lemma OwnStepIff(a: Action, p: Pid)
    ensures StepOf(a, p) <==> a in {Claim(p), Crash(p), Throw(p)} || (a.Start? && a.p == p) || (a.Send? && a.p == p)
                              || (a.Settle? && a.p == p)
  {
  }
}
