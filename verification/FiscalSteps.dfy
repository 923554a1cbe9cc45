// The statements of the fiscal queue, with their tests and constants written out.
module FiscalSteps {
  import opened FiscalQueue
  import opened Options
  import RetryPolicy

  /** What the select and the claim ask of a lease. */
  ghost predicate MayTake(op: Operation, now: int) {
    op.leaseExpiresAt.None? || op.leaseExpiresAt.value <= now
  }

  /** What the select asks of a row. */
  ghost predicate IsDue(op: Operation, now: int) {
    (op.status == Pending || op.status == Retryable || op.status == Processing) && op.availableAt <= now
    && MayTake(op, now)
  }

  ghost predicate IsIdle(s: System, w: Wid) {
    w !in s.workers || s.workers[w] == Idle
  }

  /** An idle worker may select a row exactly if it is due and no due row was created before it. */
  lemma SelectsTheOldest(s: System, w: Wid, id: OpId, now: int)
    ensures Enabled(s, Select(w, id, now)) <==>
            && IsIdle(s, w) && id in s.ops && IsDue(s.ops[id], now)
            && forall other :: other in s.ops && IsDue(s.ops[other], now) ==>
                 s.ops[id].createdAt <= s.ops[other].createdAt
    ensures Enabled(s, Select(w, id, now)) ==>
              Apply(s, Select(w, id, now)) == System(s.ops, s.workers[w := Selected(id, now)], now, s.log)
  {
    forall other | other in s.ops ensures Claimable(s.ops[other], now) <==> IsDue(s.ops[other], now) {
    }
  }

  /** The claim looks at the lease alone: with the clock of the select it takes the row for 60,000
      milliseconds, one attempt more, whatever its status and date are by then, or gives up. */
  lemma ClaimTakesTheLease(s: System, w: Wid, id: OpId, now: int)
    requires w in s.workers && s.workers[w] == Selected(id, now) && id in s.ops
    ensures var after, op := Apply(s, Claim(w)), s.ops[id];
            if MayTake(op, now) then
              && after.ops == s.ops[
                   id := Operation(Processing, op.attempts + 1, op.availableAt, op.createdAt,
                                   Some(w), Some(now + 60_000))]
              && after.workers == s.workers[w := Working(id, op.attempts + 1, now)]
              && after.log == s.log + [Claimed(id, op.attempts + 1, now)]
            else after.ops == s.ops && after.log == s.log && IsIdle(after, w)
  {
  }

  /** A new operation waits from its date on, without attempts or a lease, and one that exists is left alone. */
  lemma InsertAdds(s: System, id: OpId, createdAt: int, availableAt: int)
    ensures Apply(s, Insert(id, createdAt, availableAt)).ops ==
            if id in s.ops then s.ops
            else s.ops[id := Operation(
              status := Pending, attempts := 0, availableAt := availableAt, createdAt := createdAt,
              leaseOwner := None, leaseExpiresAt := None)]
  {
  }

  /** How a row is left by a settlement under attempt number `attempts`: an exception sends it back, to wait
      from 750 milliseconds to 15 minutes, until the eighth attempt; that one is a dead letter. */
  ghost predicate LeftAs(op: Operation, attempts: nat, verdict: Verdict, now: int, row: Operation) {
    && row.leaseOwner == None && row.leaseExpiresAt == None
    && row.attempts == op.attempts && row.createdAt == op.createdAt
    && (row.status == Succeeded <==> verdict == Done)
    && (row.status == Failed <==> verdict == Closed)
    && (row.status == Retryable <==> verdict == Threw && attempts <= 7)
    && (row.status == DeadLetter <==> verdict == Threw && attempts >= 8)
    && (if verdict == Threw then now + 750 <= row.availableAt <= now + 900_000 else row.availableAt == op.availableAt)
  }

  /** A settlement writes the row it holds a copy of, whoever owns it by then, and no other. */
  lemma SettlementLeaves(s: System, w: Wid, id: OpId, attempts: nat, at: int, verdict: Verdict, now: int, random: real)
    requires w in s.workers && s.workers[w] == Working(id, attempts, at) && id in s.ops
    requires 0.0 <= random < 1.0
    ensures var after := Apply(s, Settle(w, verdict, now, random));
            && after.ops.Keys == s.ops.Keys && LeftAs(s.ops[id], attempts, verdict, now, after.ops[id])
            && (forall other :: other in s.ops && other != id ==> after.ops[other] == s.ops[other])
            && IsIdle(after, w) && after.log == s.log + [Released(id, Settlement(attempts, verdict))]
  {
    RetryPolicy.RetryAtIsInTheFuture(attempts, now, random);
  }

  /** A provider's event takes a running operation from whoever runs it: an unknown result sends it back,
      any other is its success. One that does not run is left alone. */
  lemma EventTakesOver(s: System, id: OpId, unknown: bool)
    requires id in s.ops
    ensures var after, op := Apply(s, Webhook(id, unknown)), s.ops[id];
            if op.status == Processing then
              && after.workers == s.workers
              && after.ops == s.ops[
                   id := Operation(if unknown then Retryable else Succeeded, op.attempts, op.availableAt, op.createdAt,
                                   None, None)]
            else after == s
  {
  }
}
