// What the fiscal queue does not prevent, and exactly when it happens: a ninth claim, a claim before
// the retry time, a change of a terminal row.
module FiscalFaults {
  import opened FiscalQueue
  import opened Options
  import RetryPolicy

  // ---- claims beyond the limit --------------------------------------------------------

  /** What last wrote `id` and took its lease away. */
  function LastRelease(log: seq<Entry>, id: OpId): Option<Cause> {
    if log == [] then None
    else
      var last := log[|log| - 1];
      if last.id == id && last.Released? then Some(last.cause) else LastRelease(log[..|log| - 1], id)
  }

  /** A row has a lease while it is processing and at no other time; a pending one was never claimed; a
      retryable one was sent back by a failure below the eighth or by an event of unknown result. */
  ghost predicate RowAgrees(s: System, id: OpId)
    requires id in s.ops
  {
    var op := s.ops[id];
    && (op.status == Processing <==> op.leaseExpiresAt.Some?)
    && (op.status == Pending ==> op.attempts == 0)
    && (op.status == Retryable ==>
          LastRelease(s.log, id).Some? && WritesRetryable(Released(id, LastRelease(s.log, id).value)))
    && ClaimsOf(s.log, id) == op.attempts
  }

  ghost predicate RowsAgree(s: System) {
    && (forall id :: id in s.ops ==> RowAgrees(s, id))
    && (forall id :: id !in s.ops ==> ClaimsOf(s.log, id) == 0)
    && CandidatesExist(s)
  }

  lemma {:induction false} LastReleaseAfter(s: System, a: Action, id: OpId)
    requires Enabled(s, a)
    ensures var e := NewEntry(s, a);
            LastRelease(Apply(s, a).log, id) ==
            if e.Some? && e.value.id == id && e.value.Released? then Some(e.value.cause) else LastRelease(s.log, id)
  {
    assert s.log + [] == s.log;
  }

  lemma LeaseFollowsStatus(s: System, a: Action, id: OpId)
    requires RowsAgree(s) && Enabled(s, a) && id in Apply(s, a).ops
    ensures var op := Apply(s, a).ops[id];
            (op.status == Processing <==> op.leaseExpiresAt.Some?) && (op.status == Pending ==> op.attempts == 0)
  {
    assert id in s.ops ==> RowAgrees(s, id);
  }

  lemma {:induction false} SentBackHasCause(s: System, a: Action, id: OpId)
    requires RowsAgree(s) && Enabled(s, a) && id in Apply(s, a).ops && Apply(s, a).ops[id].status == Retryable
    ensures var last := LastRelease(Apply(s, a).log, id); last.Some? && WritesRetryable(Released(id, last.value))
  {
    LastReleaseAfter(s, a, id);
    if id in s.ops && Apply(s, a).ops[id].status == s.ops[id].status {
      assert RowAgrees(s, id);
    }
    RowsChangeWithRelease(s, a, id);
  }

  lemma RowsChangeWithRelease(s: System, a: Action, id: OpId)
    requires Enabled(s, a) && id in Apply(s, a).ops && Apply(s, a).ops[id].status == Retryable
    ensures var e := NewEntry(s, a);
            || (id in s.ops && s.ops[id].status == Retryable
                && !(e.Some? && e.value.id == id && e.value.Released?))
            || (e.Some? && e.value.id == id && WritesRetryable(e.value))
  {
  }

  lemma AttemptsAfter(s: System, a: Action, id: OpId)
    requires Enabled(s, a) && id in Apply(s, a).ops
    ensures Apply(s, a).ops[id].attempts ==
            (if id in s.ops then s.ops[id].attempts else 0) + if ClaimsIt(s, a, id) then 1 else 0
  {
  }

  lemma {:induction false} ClaimsAreAttempts(s: System, a: Action, id: OpId)
    requires RowsAgree(s) && Enabled(s, a) && id in Apply(s, a).ops
    ensures ClaimsOf(Apply(s, a).log, id) == Apply(s, a).ops[id].attempts
  {
    ClaimsAfter(s, a, id);
    AttemptsAfter(s, a, id);
    assert id in s.ops ==> RowAgrees(s, id);
  }

  lemma StepKeepsRow(s: System, a: Action, id: OpId)
    requires RowsAgree(s) && Enabled(s, a) && id in Apply(s, a).ops
    ensures RowAgrees(Apply(s, a), id)
  {
    LeaseFollowsStatus(s, a, id);
    if Apply(s, a).ops[id].status == Retryable { SentBackHasCause(s, a, id); }
    ClaimsAreAttempts(s, a, id);
  }

  lemma StepKeepsRows(s: System, a: Action)
    requires RowsAgree(s)
    ensures RowsAgree(Apply(s, a))
  {
    if Enabled(s, a) {
      var t := Apply(s, a);
      forall id | id in t.ops ensures RowAgrees(t, id) {
        StepKeepsRow(s, a, id);
      }
      forall id | id !in t.ops ensures ClaimsOf(t.log, id) == 0 {
        ClaimsAfter(s, a, id);
      }
      StepKeepsCandidates(s, a);
    }
  }

  lemma {:induction false} RunKeepsRows(s: System, acts: seq<Action>)
    requires RowsAgree(s)
    ensures RowsAgree(Run(s, acts))
    decreases |acts|
  {
    if acts != [] {
      StepKeepsRows(s, acts[0]);
      RunKeepsRows(Apply(s, acts[0]), acts[1..]);
    }
  }

  // How a row that has had its eight attempts comes to be claimed once more.
  datatype Loophole =
    | LeaseRanOut            // its last claim was not settled within the lease
    | UnknownResult          // an event of unknown result put it back
    | EarlierFailure         // a failure of an earlier attempt, late, put it back
    | StaleSelection         // it is closed, and the worker selected it before it was

  /** The loophole open on a row to a worker that selected it when the clock read `now`. */
  function Open(s: System, id: OpId, now: int): Option<Loophole>
    requires id in s.ops
  {
    match s.ops[id].status
    case Pending => None
    case Processing =>
      if s.ops[id].leaseExpiresAt.Some? && s.ops[id].leaseExpiresAt.value <= now then Some(LeaseRanOut) else None
    case Retryable =>
      (match LastRelease(s.log, id)
       case Some(ProviderEvent(true)) => Some(UnknownResult)
       case Some(Settlement(attempt, Threw)) => if attempt < MAX_ATTEMPTS then Some(EarlierFailure) else None
       case _ => None)
    case _ => Some(StaleSelection)
  }

  /** The claim that goes beyond the limit: its worker selected a row with eight attempts, and one of
      the loopholes is open on it. */
  predicate NinthClaim(s: System, a: Action, id: OpId) {
    && a.Claim? && WorkerOf(s, a.w).Selected? && WorkerOf(s, a.w).id == id
    && id in s.ops && s.ops[id].attempts == MAX_ATTEMPTS && Open(s, id, WorkerOf(s, a.w).now).Some?
  }

  /** In any run a step takes an operation from eight attempts to nine if and only if it is such a
      claim. */
  lemma {:induction false} NinthClaimIff(acts: seq<Action>, a: Action, id: OpId)
    requires var s := Run(EMPTY, acts); id in s.ops && s.ops[id].attempts == MAX_ATTEMPTS
    ensures var s := Run(EMPTY, acts);
            && id in Apply(s, a).ops
            && (Apply(s, a).ops[id].attempts == MAX_ATTEMPTS + 1 <==> NinthClaim(s, a, id))
  {
    var s := Run(EMPTY, acts);
    RunKeepsRows(EMPTY, acts);
    assert RowAgrees(s, id);
  }

  lemma RunSplits(acts: seq<Action>)
    requires acts != []
    ensures Run(EMPTY, acts) == Apply(Run(EMPTY, acts[..|acts| - 1]), acts[|acts| - 1])
  {
    assert acts == acts[..|acts| - 1] + [acts[|acts| - 1]];
    Append(EMPTY, acts[..|acts| - 1], acts[|acts| - 1]);
  }

  /** The step-wise form: one more claim goes beyond eight exactly when the step is a ninth claim. */
  lemma LimitAfter(acts: seq<Action>, a: Action, id: OpId)
    ensures var s := Run(EMPTY, acts);
            ClaimsOf(Apply(s, a).log, id) <= MAX_ATTEMPTS <==>
              ClaimsOf(s.log, id) <= MAX_ATTEMPTS && !NinthClaim(s, a, id)
  {
    var s := Run(EMPTY, acts);
    RunKeepsRows(EMPTY, acts);
    if Enabled(s, a) { ClaimsAfter(s, a, id); }
    if id in s.ops {
      assert RowAgrees(s, id);
      if s.ops[id].attempts == MAX_ATTEMPTS {
        NinthClaimIff(acts, a, id);
      }
    }
  }

  /** An operation is claimed at most eight times in a run if and only if no step of the run is a
      ninth claim of it. */
  lemma {:induction false} EightClaimsIff(acts: seq<Action>, id: OpId)
    ensures ClaimsOf(Run(EMPTY, acts).log, id) <= MAX_ATTEMPTS
            <==> forall k :: 0 <= k < |acts| ==> !NinthClaim(Run(EMPTY, acts[..k]), acts[k], id)
    decreases |acts|
  {
    if acts != [] {
      var n := |acts| - 1;
      var init := acts[..n];
      EightClaimsIff(init, id);
      LimitAfter(init, acts[n], id);
      RunSplits(acts);
      assert forall k :: 0 <= k < n ==> init[..k] == acts[..k] && init[k] == acts[k];
    }
  }

  lemma AppendThree(acts: seq<Action>, a: Action, b: Action, c: Action)
    ensures Run(EMPTY, acts + [a] + [b] + [c]) == Apply(Apply(Apply(Run(EMPTY, acts), a), b), c)
  {
    Append(EMPTY, acts, a);
    Append(EMPTY, acts + [a], b);
    Append(EMPTY, acts + [a] + [b], c);
  }

  /** The limit of eight is checked when an attempt fails, never when one is claimed: workers that
      keep crashing claim one operation any number of times. */
  lemma {:induction false} CrashingWorkersExceedTheLimit(n: nat) returns (acts: seq<Action>)
    ensures var s := Run(EMPTY, acts);
            0 in s.ops && s.ops.Keys == {0} && s.ops[0].attempts == n && s.workers == map[]
            && (n == 0 ==> s.ops[0] == Operation(Pending, 0, 0, 0, None, None))
            && (n > 0 ==> s.ops[0] == Operation(Processing, n, 0, 0, Some(0), Some(n * LEASE_MS)))
  {
    if n == 0 {
      acts := [Insert(0, 0, 0)];
      assert acts[1..] == [];
    } else {
      var so := CrashingWorkersExceedTheLimit(n - 1);
      var s := Run(EMPTY, so);
      var now := (n - 1) * LEASE_MS;
      AppendThree(so, Select(0, 0, now), Claim(0), Crash(0));
      acts := so + [Select(0, 0, now)] + [Claim(0)] + [Crash(0)];
    }
  }

  ghost predicate NobodyCrashes(acts: seq<Action>) {
    forall i :: 0 <= i < |acts| ==> !acts[i].Crash?
  }

  lemma UnknownResultRound(s: System, w: Wid, status: Status)
    requires s.ops == map[0 := Operation(status, w, 0, 0, None, None)] && (status.Pending? || status.Retryable?)
    requires WorkerOf(s, w).Idle?
    ensures var claimed := Apply(Apply(s, Select(w, 0, 0)), Claim(w));
            && claimed.ops == map[0 := Operation(Processing, w + 1, 0, 0, Some(w), Some(LEASE_MS))]
            && claimed.workers == s.workers[w := Working(0, w + 1, 0)]
  {
  }

  lemma UnknownResultPutsBack(claimed: System, attempts: nat, w: Wid)
    requires claimed.ops == map[0 := Operation(Processing, attempts, 0, 0, Some(w), Some(LEASE_MS))]
    ensures var t := Apply(claimed, Webhook(0, true));
            && t.ops == map[0 := Operation(Retryable, attempts, 0, 0, None, None)]
            && t.workers == claimed.workers && LastRelease(t.log, 0) == Some(ProviderEvent(true))
  {
  }

  /** After `n` such rounds: the row is back, and the workers of all of them are at work. */
  ghost predicate AllAtWork(s: System, n: nat) {
    && s.ops == map[0 := Operation(if n == 0 then Pending else Retryable, n, 0, 0, None, None)]
    && (n > 0 ==> LastRelease(s.log, 0) == Some(ProviderEvent(true)))
    && forall w: nat :: WorkerOf(s, w) == if w < n then Working(0, w + 1, 0) else Idle
  }

  lemma OneMoreAtWork(s: System, n: nat)
    requires AllAtWork(s, n)
    ensures AllAtWork(Apply(Apply(Apply(s, Select(n, 0, 0)), Claim(n)), Webhook(0, true)), n + 1)
  {
    var claimed := Apply(Apply(s, Select(n, 0, 0)), Claim(n));
    var t := Apply(claimed, Webhook(0, true));
    assert WorkerOf(s, n) == Idle;
    UnknownResultRound(s, n, if n == 0 then Pending else Retryable);
    UnknownResultPutsBack(claimed, n + 1, n);
    forall v: nat ensures WorkerOf(t, v) == if v < n + 1 then Working(0, v + 1, 0) else Idle {
      assert WorkerOf(s, v) == if v < n then Working(0, v + 1, 0) else Idle;
    }
  }

  /** Nor do crashes matter: after each claim an event of unknown result puts the operation back, and
      another worker claims it while those before are all still at work on it. */
  lemma {:induction false} UnknownResultsExceedTheLimit(n: nat) returns (acts: seq<Action>)
    ensures NobodyCrashes(acts) && AllAtWork(Run(EMPTY, acts), n)
    ensures n > 0 ==> 0 in Run(EMPTY, acts).ops && Run(EMPTY, acts).ops[0].attempts == n
    decreases n
  {
    if n == 0 {
      acts := [Insert(0, 0, 0)];
      assert acts[1..] == [];
    } else {
      var so := UnknownResultsExceedTheLimit(n - 1);
      var w := n - 1;
      AppendThree(so, Select(w, 0, 0), Claim(w), Webhook(0, true));
      OneMoreAtWork(Run(EMPTY, so), w);
      acts := so + [Select(w, 0, 0)] + [Claim(w)] + [Webhook(0, true)];
    }
  }

  /** Every loophole is real: some run opens it on a row with eight attempts, and a worker then makes
      the ninth claim through it. */
  lemma EveryLoopholeOpens(loophole: Loophole) returns (acts: seq<Action>, w: Wid)
    ensures var s := Run(EMPTY, acts);
            NinthClaim(s, Claim(w), 0) && Open(s, 0, WorkerOf(s, w).now) == Some(loophole)
  {
    if loophole.LeaseRanOut? {
      var so := CrashingWorkersExceedTheLimit(8);
      acts, w := so + [Select(0, 0, 8 * LEASE_MS)], 0;
      Append(EMPTY, so, Select(0, 0, 8 * LEASE_MS));
    } else {
      var so := UnknownResultsExceedTheLimit(8);
      var s := Run(EMPTY, so);
      w := 8;
      assert WorkerOf(s, 0) == Working(0, 1, 0) && WorkerOf(s, 7) == Working(0, 8, 0) && WorkerOf(s, 8) == Idle;
      match loophole
      case UnknownResult =>
        acts := so + [Select(8, 0, 0)];
        Append(EMPTY, so, Select(8, 0, 0));
      case EarlierFailure =>
        var late := Settle(0, Threw, 0, 0.0);
        acts := so + [late] + [Select(8, 0, 900_000)];
        Append(EMPTY, so, late);
        Append(EMPTY, so + [late], Select(8, 0, 900_000));
        LateFailureOpens(s);
      case StaleSelection =>
        acts := so + [Select(8, 0, 0)] + [Settle(7, Done, 0, 0.0)];
        Append(EMPTY, so, Select(8, 0, 0));
        Append(EMPTY, so + [Select(8, 0, 0)], Settle(7, Done, 0, 0.0));
        StaleSelectionOpens(s);
    }
  }

  lemma LateFailureOpens(s: System)
    requires s.ops == map[0 := Operation(Retryable, 8, 0, 0, None, None)]
    requires WorkerOf(s, 0) == Working(0, 1, 0) && WorkerOf(s, 8) == Idle
    ensures var t := Apply(Apply(s, Settle(0, Threw, 0, 0.0)), Select(8, 0, 900_000));
            NinthClaim(t, Claim(8), 0) && Open(t, 0, 900_000) == Some(EarlierFailure) && WorkerOf(t, 8).now == 900_000
  {
    RetryPolicy.RetryAtIsInTheFuture(1, 0, 0.0);
  }

  lemma StaleSelectionOpens(s: System)
    requires s.ops == map[0 := Operation(Retryable, 8, 0, 0, None, None)]
    requires WorkerOf(s, 7) == Working(0, 8, 0) && WorkerOf(s, 8) == Idle
    ensures var t := Apply(Apply(s, Select(8, 0, 0)), Settle(7, Done, 0, 0.0));
            NinthClaim(t, Claim(8), 0) && Open(t, 0, 0) == Some(StaleSelection) && WorkerOf(t, 8).now == 0
  {
  }

  // ---- claims before the retry time ---------------------------------------------------

  /** A failed attempt is not selected again for at least 750 ms, and can be within fifteen minutes. */
  lemma SentBackIsNotSelected(s: System, w: Wid, now: int, random: real, v: Wid, at: int)
    requires Enabled(s, Settle(w, Threw, now, random)) && s.workers[w].attempts < MAX_ATTEMPTS
    ensures var id, t := s.workers[w].id, Apply(s, Settle(w, Threw, now, random));
            && (at < now + 750 ==> !Enabled(t, Select(v, id, at)))
            && (at >= now + 900_000 ==> Claimable(t.ops[id], at))
  {
    RetryPolicy.RetryAtIsInTheFuture(s.workers[w].attempts, now, random);
  }

  // One operation, selected by two workers at the same moment; the first has claimed it.
  ghost const ONE_CLAIMED := System(map[0 := Operation(Processing, 1, 0, 0, Some(1), Some(LEASE_MS))],
                                    map[1 := Working(0, 1, 0), 2 := Selected(0, 0)], 0, [Claimed(0, 1, 0)])

  lemma OneClaimedReachable()
    ensures Run(EMPTY, [Insert(0, 0, 0), Select(1, 0, 0), Select(2, 0, 0), Claim(1)]) == ONE_CLAIMED
  {
  }

  /** But a worker that selected it before claims it at once: the update does not repeat the date. */
  lemma StaleSelectionSkipsBackoff(now: int, random: real)
    requires RetryPolicy.Draw(random)
    ensures var failed := Apply(ONE_CLAIMED, Settle(1, Threw, now, random));
            && 0 in failed.ops && failed.ops[0].status == Retryable && failed.ops[0].availableAt >= now + 750
            && 0 in Apply(failed, Claim(2)).ops && Apply(failed, Claim(2)).ops[0].status == Processing
  {
    RetryPolicy.RetryAtIsInTheFuture(1, now, random);
  }

  /** How often an attempt on `id` was settled as failed. */
  function Failures(log: seq<Entry>, id: OpId): nat {
    if log == [] then 0 else Failures(log[..|log| - 1], id) + FailureIn(log[|log| - 1], id)
  }

  function FailureIn(e: Entry, id: OpId): nat {
    if e.Released? && e.id == id && e.cause.Settlement? && e.cause.verdict.Threw? then 1 else 0
  }

  lemma {:induction false} FailuresStep(s: System, a: Action, id: OpId)
    requires Enabled(s, a)
    ensures var e := NewEntry(s, a);
            Failures(Apply(s, a).log, id) == Failures(s.log, id) + if e.Some? then FailureIn(e.value, id) else 0
  {
    assert s.log + [] == s.log;
  }

  // A failure written to a row: the attempt it settled, and the clock and the draw it used.
  datatype Failure = Failure(attempt: nat, at: int, random: real)

  function FailureOf(s: System, a: Action, id: OpId): Option<Failure> {
    if a.Settle? && Enabled(s, a) && a.verdict.Threw? && s.workers[a.w].id == id
    then Some(Failure(s.workers[a.w].attempts, a.now, a.random)) else None
  }

  /** The last failure a run writes to `id`. */
  function LastFailure(s: System, acts: seq<Action>, id: OpId): Option<Failure>
    decreases |acts|
  {
    if acts == [] then None
    else
      var later := LastFailure(Apply(s, acts[0]), acts[1..], id);
      if later.Some? then later else FailureOf(s, acts[0], id)
  }

  /** When a row is due that was due at `due` before: nothing but a failure moves the date. */
  function DueAfter(due: int, failure: Option<Failure>): int {
    if failure.None? then due else RetryPolicy.RetryAt(failure.value.attempt, failure.value.at, failure.value.random)
  }

  lemma {:induction false} FailureCounts(s: System, a: Action, id: OpId)
    requires id in s.ops
    ensures Failures(Apply(s, a).log, id) == Failures(s.log, id) + if FailureOf(s, a, id).Some? then 1 else 0
  {
    if Enabled(s, a) { FailuresStep(s, a, id); }
  }

  lemma DueMoves(s: System, a: Action, id: OpId)
    requires id in s.ops
    ensures id in Apply(s, a).ops
    ensures Apply(s, a).ops[id].availableAt == DueAfter(s.ops[id].availableAt, FailureOf(s, a, id))
  {
  }

  lemma {:induction false} DueRun(s: System, acts: seq<Action>, id: OpId)
    requires id in s.ops
    ensures id in Run(s, acts).ops
    ensures Run(s, acts).ops[id].availableAt == DueAfter(s.ops[id].availableAt, LastFailure(s, acts, id))
    ensures LastFailure(s, acts, id).Some? <==> Failures(Run(s, acts).log, id) > Failures(s.log, id)
    ensures Failures(Run(s, acts).log, id) >= Failures(s.log, id)
    decreases |acts|
  {
    if acts != [] {
      DueMoves(s, acts[0], id);
      FailureCounts(s, acts[0], id);
      DueRun(Apply(s, acts[0]), acts[1..], id);
    }
  }

  lemma {:induction false} DrawnInRange(s: System, acts: seq<Action>, id: OpId)
    ensures LastFailure(s, acts, id).Some? ==> RetryPolicy.Draw(LastFailure(s, acts, id).value.random)
    decreases |acts|
  {
    if acts != [] {
      DrawnInRange(Apply(s, acts[0]), acts[1..], id);
    }
  }

  /** Exactly when it happens. A worker selected the row at `now`, anything happened since, and the
      worker's update comes at `clock`, while the row has no lease that outlives `now`: the claim goes
      through, whatever the row's status, and it comes before the row's due time if and only if an
      attempt on it has failed since and the delay of the last failure is not over. */
  lemma {:induction false} ClaimedEarlyIff(s: System, w: Wid, id: OpId, now: int, acts: seq<Action>, clock: int)
    requires Enabled(s, Select(w, id, now)) && now <= clock
    requires var t := Run(Apply(s, Select(w, id, now)), acts);
             WorkerOf(t, w) == Selected(id, now) && (id in t.ops ==> LeaseFree(t.ops[id], now))
    ensures var t, last := Run(Apply(s, Select(w, id, now)), acts), LastFailure(Apply(s, Select(w, id, now)), acts, id);
            && id in t.ops && id in Apply(t, Claim(w)).ops && Apply(t, Claim(w)).ops[id].status == Processing
            && (t.ops[id].availableAt > clock <==>
                  last.Some? && clock < RetryPolicy.RetryAt(last.value.attempt, last.value.at, last.value.random))
            && (last.Some? <==> Failures(t.log, id) > Failures(s.log, id))
  {
    DueRun(Apply(s, Select(w, id, now)), acts, id);
  }

  /** In bounds that hold for every draw: the row is not due for three quarters of the capped delay
      after its last failure, and is due after five. */
  lemma {:induction false} DueWithinTheBand(s: System, acts: seq<Action>, id: OpId, clock: int)
    requires id in s.ops && LastFailure(s, acts, id).Some?
    ensures var last := LastFailure(s, acts, id).value;
            var cap := RetryPolicy.CappedExponential(last.attempt);
            && id in Run(s, acts).ops
            && (clock < last.at + RetryPolicy.Quarters(cap, 3) ==> Run(s, acts).ops[id].availableAt > clock)
            && (clock >= last.at + RetryPolicy.Quarters(cap, 5) ==> Run(s, acts).ops[id].availableAt <= clock)
  {
    var last := LastFailure(s, acts, id).value;
    DueRun(s, acts, id);
    DrawnInRange(s, acts, id);
    RetryPolicy.DelayBand(last.attempt, last.random);
  }

  // ---- changes of a closed row --------------------------------------------------------

  /** A step takes an operation out of a terminal status, or from one to another, in exactly two
      cases: a claim that selected the row earlier, and a late settlement with a different verdict. */
  lemma TerminalChangesIff(s: System, a: Action, id: OpId)
    requires id in s.ops && Terminal(s.ops[id])
    ensures id in Apply(s, a).ops
    ensures Apply(s, a).ops[id].status != s.ops[id].status <==>
            || (a.Claim? && WorkerOf(s, a.w).Selected? && WorkerOf(s, a.w).id == id
                && LeaseFree(s.ops[id], WorkerOf(s, a.w).now))
            || (a.Settle? && WorkerOf(s, a.w).Working? && WorkerOf(s, a.w).id == id && RetryPolicy.Draw(a.random)
                && s.ops[id].status != (match a.verdict
                                        case Done => Succeeded
                                        case Closed => Failed
                                        case Threw => if WorkerOf(s, a.w).attempts >= 8 then DeadLetter else Retryable))
  {
  }

  /** A stale claim revives a finished operation: its update repeats the lease test but not the status test. */
  lemma StaleClaimRevives(now: int)
    ensures var done := Apply(ONE_CLAIMED, Settle(1, Done, now, 0.0));
            && 0 in done.ops && done.ops[0].status == Succeeded
            && 0 in Apply(done, Claim(2)).ops && Apply(done, Claim(2)).ops[0].status == Processing
  {
  }

  // The first worker's lease has run out, and the second has claimed the operation and completed it.
  ghost function CompletedBySecond(now: int): System {
    System(map[0 := Operation(Succeeded, 2, 0, 0, None, None)], map[1 := Working(0, 1, 0), 2 := Idle], now,
           [Claimed(0, 1, 0)] + [Claimed(0, 2, now)] + [Released(0, Settlement(2, Done))])
  }

  lemma SecondTakesOver(now: int)
    requires now >= LEASE_MS
    ensures Apply(Apply(Apply(Apply(ONE_CLAIMED, Claim(2)), Select(2, 0, now)), Claim(2)), Settle(2, Done, now, 0.0))
         == CompletedBySecond(now)
  {
    var refused := Apply(ONE_CLAIMED, Claim(2));
    var selected := Apply(refused, Select(2, 0, now));
    var claimed := Apply(selected, Claim(2));
    assert refused.workers == map[1 := Working(0, 1, 0), 2 := Idle];
    assert selected.workers == map[1 := Working(0, 1, 0), 2 := Selected(0, now)];
    assert claimed.workers == map[1 := Working(0, 1, 0), 2 := Working(0, 2, now)];
    assert claimed.ops == map[0 := Operation(Processing, 2, 0, 0, Some(2), Some(now + LEASE_MS))];
  }

  /** A late settlement overwrites a finished operation: nothing in it names the owner of the lease. */
  lemma LateSettlementOverwrites(now: int)
    requires now >= LEASE_MS
    ensures var acts := [] + [Claim(2)] + [Select(2, 0, now)] + [Claim(2)] + [Settle(2, Done, now, 0.0)];
            var done := Run(ONE_CLAIMED, acts);
            && 0 in done.ops && done.ops[0].status == Succeeded
            && 0 in Apply(done, Settle(1, Threw, now, 0.0)).ops
            && Apply(done, Settle(1, Threw, now, 0.0)).ops[0].status == Retryable
  {
    Append(ONE_CLAIMED, [], Claim(2));
    Append(ONE_CLAIMED, [] + [Claim(2)], Select(2, 0, now));
    Append(ONE_CLAIMED, [] + [Claim(2)] + [Select(2, 0, now)], Claim(2));
    Append(ONE_CLAIMED, [] + [Claim(2)] + [Select(2, 0, now)] + [Claim(2)], Settle(2, Done, now, 0.0));
    SecondTakesOver(now);
  }
}
