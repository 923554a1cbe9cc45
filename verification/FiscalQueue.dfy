// The lease-based queue of fiscal operations. The claim is two statements (a select and an
// update that repeats only the lease test) and no settlement names its owner, so workers may
// interleave inside a claim, settle after their lease ended, or crash.
module FiscalQueue {
  import opened Options
  import RetryPolicy

  const MAX_ATTEMPTS := 8
  const LEASE_MS := 60_000

  type OpId = nat
  type Wid = nat

  datatype Status = Pending | Retryable | Processing | Succeeded | Failed | DeadLetter

  datatype Operation = Operation(status: Status, attempts: nat, availableAt: int, createdAt: int,
                                 leaseOwner: Option<Wid>, leaseExpiresAt: Option<int>)

  // Between its two statements a worker remembers the candidate and the clock it read;
  // afterwards it works on its copy of the claimed row.
  datatype Worker = Idle | Selected(id: OpId, now: int) | Working(id: OpId, attempts: nat, claimedAt: int)

  // How the processing of a claimed operation ends: completed, closed for good, or by an exception.
  datatype Verdict = Done | Closed | Threw

  // What wrote a row and took its lease away: the settlement of a claim, or a provider's event.
  datatype Cause = Settlement(attempt: nat, verdict: Verdict) | ProviderEvent(unknown: bool)

  datatype Entry =
    | Claimed(id: OpId, attempt: nat, at: int)
    | Released(id: OpId, cause: Cause)

  datatype System = System(ops: map<OpId, Operation>, workers: map<Wid, Worker>, clock: int, log: seq<Entry>)

  datatype Action =
    | Insert(id: OpId, createdAt: int, availableAt: int)
    | Select(w: Wid, id: OpId, now: int)
    | Claim(w: Wid)
    | Settle(w: Wid, verdict: Verdict, now: int, random: real)
    | Crash(w: Wid)
    | Webhook(id: OpId, unknown: bool)

  const EMPTY := System(map[], map[], 0, [])

  // ---- rows and steps -----------------------------------------------------------------

  predicate LeaseFree(op: Operation, now: int) {
    op.leaseExpiresAt.None? || op.leaseExpiresAt.value <= now
  }

  predicate Claimable(op: Operation, now: int) {
    && (op.status == Pending || op.status == Retryable || op.status == Processing)
    && op.availableAt <= now
    && LeaseFree(op, now)
  }

  predicate Oldest(ops: map<OpId, Operation>, id: OpId, now: int)
    requires id in ops
  {
    Claimable(ops[id], now) && forall o :: o in ops && Claimable(ops[o], now) ==> ops[id].createdAt <= ops[o].createdAt
  }

  function WorkerOf(s: System, w: Wid): Worker {
    if w in s.workers then s.workers[w] else Idle
  }

  function ClaimedRow(op: Operation, w: Wid, now: int): Operation {
    op.(status := Processing, attempts := op.attempts + 1,
        leaseOwner := Some(w), leaseExpiresAt := Some(now + LEASE_MS))
  }

  /** Settlement works from the worker's copy of the attempt number, not from the row. */
  function SettledRow(op: Operation, attempts: nat, v: Verdict, now: int, random: real): Operation {
    var free := op.(leaseOwner := None, leaseExpiresAt := None);
    match v
    case Done => free.(status := Succeeded)
    case Closed => free.(status := Failed)
    case Threw =>
      free.(status := if attempts >= MAX_ATTEMPTS then DeadLetter else Retryable,
            availableAt := RetryPolicy.RetryAt(attempts, now, random))
  }

  predicate Enabled(s: System, a: Action) {
    match a
    case Insert(id, _, _) => id !in s.ops
    case Select(w, id, now) => WorkerOf(s, w).Idle? && id in s.ops && Oldest(s.ops, id, now)
    case Claim(w) => WorkerOf(s, w).Selected? && WorkerOf(s, w).id in s.ops
    case Settle(w, _, _, random) => WorkerOf(s, w).Working? && WorkerOf(s, w).id in s.ops && RetryPolicy.Draw(random)
    case Crash(w) => w in s.workers
    case Webhook(id, _) => id in s.ops && s.ops[id].status == Processing
  }

  function Apply(s: System, a: Action): System {
    if !Enabled(s, a) then s else
    match a
    case Insert(id, createdAt, availableAt) =>
      s.(ops := s.ops[id := Operation(Pending, 0, availableAt, createdAt, None, None)])
    case Select(w, id, now) =>
      s.(workers := s.workers[w := Selected(id, now)], clock := now)
    case Claim(w) =>
      var Selected(id, now) := s.workers[w];
      if LeaseFree(s.ops[id], now) then
        var row := ClaimedRow(s.ops[id], w, now);
        s.(ops := s.ops[id := row], workers := s.workers[w := Working(id, row.attempts, now)],
           log := s.log + [Claimed(id, row.attempts, now)])
      else
        s.(workers := s.workers[w := Idle])
    case Settle(w, v, now, random) =>
      var Working(id, attempts, _) := s.workers[w];
      var row := SettledRow(s.ops[id], attempts, v, now, random);
      s.(ops := s.ops[id := row], workers := s.workers[w := Idle], clock := now,
         log := s.log + [Released(id, Settlement(attempts, v))])
    case Crash(w) =>
      s.(workers := s.workers - {w})
    case Webhook(id, unknown) =>
      var status := if unknown then Retryable else Succeeded;
      s.(ops := s.ops[id := s.ops[id].(status := status, leaseOwner := None, leaseExpiresAt := None)],
         log := s.log + [Released(id, ProviderEvent(unknown))])
  }

  function Run(s: System, acts: seq<Action>): System
    decreases |acts|
  {
    if acts == [] then s else Run(Apply(s, acts[0]), acts[1..])
  }

  lemma {:induction false} RunConcat(s: System, a: seq<Action>, b: seq<Action>)
    ensures Run(s, a + b) == Run(Run(s, a), b)
    decreases |a|
  {
    if a == [] {
      assert a + b == b;
    } else {
      assert (a + b)[0] == a[0] && (a + b)[1..] == a[1..] + b;
      RunConcat(Apply(s, a[0]), a[1..], b);
    }
  }

  lemma Append(s: System, trace: seq<Action>, a: Action)
    ensures Run(s, trace + [a]) == Apply(Run(s, trace), a)
  {
    RunConcat(s, trace, [a]);
    assert [a][1..] == [];
  }

  // ---- what every interleaving keeps --------------------------------------------------

  /** The time of the last claim of `id`, if nothing released it since. */
  function OpenClaim(log: seq<Entry>, id: OpId): Option<int> {
    if log == [] then None else
    var last := log[|log| - 1];
    if last.id != id then OpenClaim(log[..|log| - 1], id)
    else if last.Released? then None
    else Some(last.at)
  }

  /** Each claim comes a full lease after the claim it takes over, if that one is still open. */
  ghost predicate Spaced(log: seq<Entry>) {
    log == [] ||
    var so := log[..|log| - 1];
    var last := log[|log| - 1];
    Spaced(so) && (last.Claimed? && OpenClaim(so, last.id).Some? ==> last.at >= OpenClaim(so, last.id).value + LEASE_MS)
  }

  ghost predicate LeaseFollowsClaim(s: System) {
    forall id :: OpenClaim(s.log, id).Some? ==>
      id in s.ops && s.ops[id].leaseExpiresAt == Some(OpenClaim(s.log, id).value + LEASE_MS)
  }

  ghost predicate AttemptsGrow(log: seq<Entry>) {
    forall i, j :: 0 <= i < j < |log| && log[i].Claimed? && log[j].Claimed? && log[i].id == log[j].id ==>
      log[i].attempt < log[j].attempt
  }

  ghost predicate ClaimsBelowRow(s: System) {
    && (forall i :: 0 <= i < |s.log| && s.log[i].Claimed? ==>
          s.log[i].id in s.ops && 1 <= s.log[i].attempt <= s.ops[s.log[i].id].attempts)
    && (forall w :: w in s.workers && s.workers[w].Working? ==>
          s.workers[w].id in s.ops && 1 <= s.workers[w].attempts <= s.ops[s.workers[w].id].attempts)
  }

  /** No two workers hold the same claim. */
  ghost predicate ClaimsHeldOnce(s: System) {
    forall v, w :: v in s.workers && w in s.workers && v != w && s.workers[v].Working? && s.workers[w].Working? ==>
      s.workers[v].id != s.workers[w].id || s.workers[v].attempts != s.workers[w].attempts
  }

  /** The attempt whose failure this entry records as sent back, if it records one for `id`. */
  function SentBackBy(e: Entry, id: OpId): set<nat> {
    if e.Released? && e.id == id && e.cause.Settlement? && e.cause.verdict.Threw? && e.cause.attempt < MAX_ATTEMPTS
    then {e.cause.attempt} else {}
  }

  function RetryAttempts(log: seq<Entry>, id: OpId): set<nat> {
    if log == [] then {} else RetryAttempts(log[..|log| - 1], id) + SentBackBy(log[|log| - 1], id)
  }

  /** How often a failure sent `id` back. */
  function RetriesWritten(log: seq<Entry>, id: OpId): nat {
    if log == [] then 0 else RetriesWritten(log[..|log| - 1], id) + |SentBackBy(log[|log| - 1], id)|
  }

  /** The failure of a claim sends its operation back at most once, and only below the eighth attempt. */
  ghost predicate RetriesOf(s: System, id: OpId) {
    && RetriesWritten(s.log, id) == |RetryAttempts(s.log, id)|
    && (forall n :: n in RetryAttempts(s.log, id) ==> id in s.ops && 1 <= n < MAX_ATTEMPTS && n <= s.ops[id].attempts)
  }

  ghost predicate RetriesAgree(s: System) {
    && (forall id :: RetriesOf(s, id))
    && (forall w :: w in s.workers && s.workers[w].Working? ==>
          s.workers[w].attempts !in RetryAttempts(s.log, s.workers[w].id))
  }

  ghost predicate Inv(s: System) {
    && Spaced(s.log) && LeaseFollowsClaim(s)
    && AttemptsGrow(s.log) && ClaimsBelowRow(s) && ClaimsHeldOnce(s)
    && RetriesAgree(s) && CandidatesExist(s)
  }

  lemma OpenClaimAfter(log: seq<Entry>, e: Entry, id: OpId)
    ensures OpenClaim(log + [e], id) ==
            if e.id != id then OpenClaim(log, id) else if e.Released? then None else Some(e.at)
  {
  }

  lemma RetriesAfter(log: seq<Entry>, e: Entry, id: OpId)
    ensures RetryAttempts(log + [e], id) == RetryAttempts(log, id) + SentBackBy(e, id)
    ensures RetriesWritten(log + [e], id) == RetriesWritten(log, id) + |SentBackBy(e, id)|
  {
  }

  /** The entry a step appends, if any: a claim or a release. */
  function NewEntry(s: System, a: Action): (e: Option<Entry>)
    requires Enabled(s, a)
    ensures Apply(s, a).log == s.log + Listed(e)
  {
    match a
    case Claim(w) =>
      var Selected(id, now) := s.workers[w];
      if LeaseFree(s.ops[id], now) then Some(Claimed(id, s.ops[id].attempts + 1, now)) else None
    case Settle(w, v, _, _) => Some(Released(s.workers[w].id, Settlement(s.workers[w].attempts, v)))
    case Webhook(id, unknown) => Some(Released(id, ProviderEvent(unknown)))
    case _ => None
  }

  function Listed(e: Option<Entry>): seq<Entry> {
    if e.Some? then [e.value] else []
  }

  /** What a step adds to the retries of `id`: an attempt number, or nothing. */
  function NewRetry(s: System, a: Action, id: OpId): set<nat>
    requires Enabled(s, a)
  {
    var e := NewEntry(s, a);
    if e.Some? then SentBackBy(e.value, id) else {}
  }

  lemma {:induction false} OpenClaimStep(s: System, a: Action, id: OpId)
    requires Enabled(s, a)
    ensures var e := NewEntry(s, a);
            OpenClaim(Apply(s, a).log, id) ==
            if e.None? || e.value.id != id then OpenClaim(s.log, id)
            else if e.value.Claimed? then Some(e.value.at) else None
  {
    var e := NewEntry(s, a);
    if e.None? {
      assert s.log + [] == s.log;
    } else {
      OpenClaimAfter(s.log, e.value, id);
    }
  }

  lemma {:induction false} RetriesStep(s: System, a: Action, id: OpId)
    requires Enabled(s, a)
    ensures RetryAttempts(Apply(s, a).log, id) == RetryAttempts(s.log, id) + NewRetry(s, a, id)
    ensures RetriesWritten(Apply(s, a).log, id) == RetriesWritten(s.log, id) + |NewRetry(s, a, id)|
  {
    var e := NewEntry(s, a);
    if e.None? {
      assert s.log + [] == s.log;
    } else {
      RetriesAfter(s.log, e.value, id);
    }
  }

  lemma StepKeepsSpacing(s: System, a: Action)
    requires Inv(s) && Enabled(s, a)
    ensures Spaced(Apply(s, a).log)
  {
    assert s.log + [] == s.log;
  }

  /** What a step does to a row's lease is what it does to the row's open claim. */
  lemma LeaseStep(s: System, a: Action, id: OpId)
    requires Enabled(s, a) && id in s.ops
    ensures var e := NewEntry(s, a);
            && id in Apply(s, a).ops
            && Apply(s, a).ops[id].leaseExpiresAt ==
               (if e.None? || e.value.id != id then s.ops[id].leaseExpiresAt
                else if e.value.Claimed? then Some(e.value.at + LEASE_MS) else None)
  {
  }

  lemma {:induction false} StepKeepsLease(s: System, a: Action, id: OpId)
    requires LeaseFollowsClaim(s) && CandidatesExist(s) && Enabled(s, a) && OpenClaim(Apply(s, a).log, id).Some?
    ensures var t := Apply(s, a); id in t.ops && t.ops[id].leaseExpiresAt == Some(OpenClaim(t.log, id).value + LEASE_MS)
  {
    OpenClaimStep(s, a, id);
    assert OpenClaim(s.log, id).Some? ==> id in s.ops;
    if id in s.ops {
      LeaseStep(s, a, id);
    }
  }

  lemma NewEntryLast(s: System, a: Action)
    requires Enabled(s, a)
    ensures var log, e := Apply(s, a).log, NewEntry(s, a);
            && (forall i :: 0 <= i < |s.log| ==> log[i] == s.log[i])
            && (forall i :: |s.log| <= i < |log| ==> e.Some? && log[i] == e.value)
  {
  }

  lemma StepKeepsClaimedAttempts(s: System, a: Action)
    requires ClaimsBelowRow(s) && CandidatesExist(s) && Enabled(s, a)
    ensures ClaimsBelowRow(Apply(s, a))
  {
    NewEntryLast(s, a);
  }

  lemma StepKeepsGrowth(s: System, a: Action)
    requires AttemptsGrow(s.log) && ClaimsBelowRow(s) && Enabled(s, a)
    ensures AttemptsGrow(Apply(s, a).log)
  {
  }

  /** Who is working after a step: whoever was, and a worker whose claim succeeded. */
  lemma WorkingAfter(s: System, a: Action, w: Wid)
    requires Enabled(s, a) && w in Apply(s, a).workers && Apply(s, a).workers[w].Working?
    ensures var worker := Apply(s, a).workers[w];
            || (w in s.workers && s.workers[w] == worker)
            || (a == Claim(w) && worker.id in s.ops && worker.attempts == s.ops[worker.id].attempts + 1)
  {
  }

  lemma StepKeepsHolders(s: System, a: Action)
    requires ClaimsBelowRow(s) && ClaimsHeldOnce(s) && Enabled(s, a)
    ensures ClaimsHeldOnce(Apply(s, a))
  {
  }

  lemma AttemptsNeverShrink(s: System, a: Action, id: OpId)
    requires id in s.ops
    ensures id in Apply(s, a).ops && s.ops[id].attempts <= Apply(s, a).ops[id].attempts
  {
  }

  lemma {:induction false} NewRetryIsNew(s: System, a: Action, id: OpId)
    requires RetriesAgree(s) && ClaimsBelowRow(s) && Enabled(s, a)
    ensures forall n :: n in NewRetry(s, a, id) ==>
              n !in RetryAttempts(s.log, id) && id in s.ops && 1 <= n < MAX_ATTEMPTS && n <= s.ops[id].attempts
  {
  }

  lemma {:induction false} RetriesGrow(s: System, t: System, id: OpId, more: set<nat>)
    requires RetriesOf(s, id) && (more == {} || exists n :: more == {n})
    requires RetryAttempts(t.log, id) == RetryAttempts(s.log, id) + more
    requires RetriesWritten(t.log, id) == RetriesWritten(s.log, id) + |more|
    requires forall n :: n in more ==>
             n !in RetryAttempts(s.log, id) && id in s.ops && 1 <= n < MAX_ATTEMPTS && n <= s.ops[id].attempts
    requires id in s.ops ==> id in t.ops && s.ops[id].attempts <= t.ops[id].attempts
    ensures RetriesOf(t, id)
  {
  }

  lemma StepKeepsRetryCount(s: System, a: Action, id: OpId)
    requires RetriesAgree(s) && ClaimsBelowRow(s) && Enabled(s, a)
    ensures RetriesOf(Apply(s, a), id)
  {
    RetriesStep(s, a, id);
    NewRetryIsNew(s, a, id);
    if id in s.ops { AttemptsNeverShrink(s, a, id); }
    assert RetriesOf(s, id);
    RetriesGrow(s, Apply(s, a), id, NewRetry(s, a, id));
  }

  lemma StepKeepsUnwritten(s: System, a: Action, w: Wid)
    requires RetriesAgree(s) && ClaimsBelowRow(s) && ClaimsHeldOnce(s) && Enabled(s, a)
    requires w in Apply(s, a).workers && Apply(s, a).workers[w].Working?
    ensures Apply(s, a).workers[w].attempts !in RetryAttempts(Apply(s, a).log, Apply(s, a).workers[w].id)
  {
    var worker := Apply(s, a).workers[w];
    RetriesStep(s, a, worker.id);
    WorkingAfter(s, a, w);
    assert RetriesOf(s, worker.id);
    NewRetryIsOfItsWorker(s, a, worker.id);
  }

  lemma NewRetryIsOfItsWorker(s: System, a: Action, id: OpId)
    requires Enabled(s, a)
    ensures forall n :: n in NewRetry(s, a, id) ==>
              a.Settle? && s.workers[a.w].id == id && s.workers[a.w].attempts == n && Apply(s, a).workers[a.w].Idle?
  {
  }

  lemma StepKeepsRetryFacts(s: System, a: Action)
    requires Inv(s) && Enabled(s, a)
    ensures RetriesAgree(Apply(s, a))
  {
    var t := Apply(s, a);
    forall id ensures RetriesOf(t, id) {
      StepKeepsRetryCount(s, a, id);
    }
    forall w | w in t.workers && t.workers[w].Working?
      ensures t.workers[w].attempts !in RetryAttempts(t.log, t.workers[w].id)
    {
      StepKeepsUnwritten(s, a, w);
    }
  }

  lemma StepKeepsLeases(s: System, a: Action)
    requires Inv(s) && Enabled(s, a)
    ensures LeaseFollowsClaim(Apply(s, a))
  {
    var t := Apply(s, a);
    forall id | OpenClaim(t.log, id).Some?
      ensures id in t.ops && t.ops[id].leaseExpiresAt == Some(OpenClaim(t.log, id).value + LEASE_MS)
    {
      StepKeepsLease(s, a, id);
    }
  }

  ghost predicate CandidatesExist(s: System) {
    forall w :: w in s.workers && s.workers[w].Selected? ==> s.workers[w].id in s.ops
  }

  lemma StepKeepsCandidates(s: System, a: Action)
    requires CandidatesExist(s) && Enabled(s, a)
    ensures CandidatesExist(Apply(s, a))
  {
  }

  lemma AllKept(t: System)
    requires Spaced(t.log) && LeaseFollowsClaim(t) && AttemptsGrow(t.log) && ClaimsBelowRow(t) && ClaimsHeldOnce(t)
    requires RetriesAgree(t) && CandidatesExist(t)
    ensures Inv(t)
  {
  }

  lemma StepKeepsInv(s: System, a: Action)
    requires Inv(s)
    ensures Inv(Apply(s, a))
  {
    if Enabled(s, a) {
      StepKeepsSpacing(s, a);
      StepKeepsLeases(s, a);
      StepKeepsGrowth(s, a);
      StepKeepsClaimedAttempts(s, a);
      StepKeepsHolders(s, a);
      StepKeepsRetryFacts(s, a);
      StepKeepsCandidates(s, a);
      AllKept(Apply(s, a));
    }
  }

  lemma {:induction false} RunKeepsInv(s: System, acts: seq<Action>)
    requires Inv(s)
    ensures Inv(Run(s, acts))
    decreases |acts|
  {
    if acts != [] {
      StepKeepsInv(s, acts[0]);
      RunKeepsInv(Apply(s, acts[0]), acts[1..]);
    }
  }

  lemma EmptyInv()
    ensures Inv(EMPTY)
  {
  }

  lemma ReachableInv(acts: seq<Action>)
    ensures Inv(Run(EMPTY, acts))
  {
    EmptyInv();
    RunKeepsInv(EMPTY, acts);
  }

  // ---- theorems about every run -------------------------------------------------------

  ghost predicate NoReleaseBetween(log: seq<Entry>, i: nat, j: nat, id: OpId) {
    forall k :: i < k < j && k < |log| ==> !(log[k].Released? && log[k].id == id)
  }

  /** In a spaced log the open claim is at least as late as any unreleased claim before it. */
  lemma {:induction false} OpenClaimIsLate(log: seq<Entry>, i: nat, id: OpId)
    requires Spaced(log) && i < |log| && log[i].Claimed? && log[i].id == id && NoReleaseBetween(log, i, |log|, id)
    ensures OpenClaim(log, id).Some? && log[i].at <= OpenClaim(log, id).value
    decreases |log|
  {
    var n := |log| - 1;
    if i < n {
      assert log[..n][i] == log[i];
      OpenClaimIsLate(log[..n], i, id);
    }
  }

  lemma {:induction false} SpacedPrefix(log: seq<Entry>, n: nat)
    requires Spaced(log) && n <= |log|
    ensures Spaced(log[..n])
    decreases |log|
  {
    if n < |log| {
      assert log[..|log| - 1][..n] == log[..n];
      SpacedPrefix(log[..|log| - 1], n);
    } else {
      assert log[..n] == log;
    }
  }

  /** Two claims of one operation with no release between them are a full lease apart. */
  lemma {:induction false} ClaimsAreALeaseApart(acts: seq<Action>, i: nat, j: nat)
    requires var log := Run(EMPTY, acts).log;
             i < j < |log| && log[i].Claimed? && log[j].Claimed? && log[i].id == log[j].id
             && NoReleaseBetween(log, i, j, log[i].id)
    ensures Run(EMPTY, acts).log[j].at >= Run(EMPTY, acts).log[i].at + LEASE_MS
  {
    var log := Run(EMPTY, acts).log;
    ReachableInv(acts);
    SpacedPrefix(log, j + 1);
    assert log[..j + 1][..j] == log[..j];
    SpacedPrefix(log, j);
    OpenClaimIsLate(log[..j], i, log[i].id);
  }

  /** Claims of one operation carry strictly increasing attempt numbers, and no two workers
      ever hold the same claim. */
  lemma AttemptNumbersIncrease(acts: seq<Action>)
    ensures AttemptsGrow(Run(EMPTY, acts).log) && ClaimsHeldOnce(Run(EMPTY, acts))
  {
    ReachableInv(acts);
  }

  lemma {:induction false} SubsetOfSeven(s: set<nat>, n: nat)
    requires forall a :: a in s ==> 1 <= a <= n
    ensures |s| <= n
  {
    if n == 0 {
      assert s == {};
    } else {
      SubsetOfSeven(s - {n}, n - 1);
    }
  }

  /** How often `retryable` was written to `id`: by a failure, or by an event of unknown result. */
  function RetryableWrites(log: seq<Entry>, id: OpId): nat {
    if log == [] then 0
    else
      var last := log[|log| - 1];
      RetryableWrites(log[..|log| - 1], id) + if last.id == id && WritesRetryable(last) then 1 else 0
  }

  predicate WritesRetryable(e: Entry) {
    e.Released? && match e.cause
                   case Settlement(attempt, verdict) => verdict.Threw? && attempt < MAX_ATTEMPTS
                   case ProviderEvent(unknown) => unknown
  }

  function UnknownEvents(log: seq<Entry>, id: OpId): nat {
    if log == [] then 0
    else
      var last := log[|log| - 1];
      var counts := last.id == id && last.Released? && last.cause == ProviderEvent(true);
      UnknownEvents(log[..|log| - 1], id) + if counts then 1 else 0
  }

  lemma {:induction false} RetryableWritesSplit(log: seq<Entry>, id: OpId)
    ensures RetryableWrites(log, id) == RetriesWritten(log, id) + UnknownEvents(log, id)
    decreases |log|
  {
    if log != [] {
      RetryableWritesSplit(log[..|log| - 1], id);
    }
  }

  /** However workers crash, overlap or come late, a failure sends an operation back at most seven
      times in a run. Events of unknown result write `retryable` as well, each of them once, and
      nothing bounds their number. */
  lemma AtMostSevenRetries(acts: seq<Action>, id: OpId)
    ensures var log := Run(EMPTY, acts).log;
            && RetriesWritten(log, id) <= 7
            && RetryableWrites(log, id) == RetriesWritten(log, id) + UnknownEvents(log, id)
  {
    ReachableInv(acts);
    RetriesBounded(Run(EMPTY, acts), id);
    RetryableWritesSplit(Run(EMPTY, acts).log, id);
  }

  lemma {:induction false} RetriesBounded(s: System, id: OpId)
    requires RetriesOf(s, id)
    ensures RetriesWritten(s.log, id) <= 7
  {
    SubsetOfSeven(RetryAttempts(s.log, id), 7);
  }

  // ---- claims and closed rows ------------------------------------------------------------

  function ClaimsOf(log: seq<Entry>, id: OpId): nat {
    if log == [] then 0
    else ClaimsOf(log[..|log| - 1], id) + if log[|log| - 1].Claimed? && log[|log| - 1].id == id then 1 else 0
  }

  ghost predicate Terminal(op: Operation) {
    op.status == Succeeded || op.status == Failed || op.status == DeadLetter
  }

  /** A step that claims `id`: its worker selected it, and the lease was free by the clock read then. */
  predicate ClaimsIt(s: System, a: Action, id: OpId) {
    && a.Claim? && WorkerOf(s, a.w).Selected? && WorkerOf(s, a.w).id == id
    && id in s.ops && LeaseFree(s.ops[id], WorkerOf(s, a.w).now)
  }

  lemma ClaimsOfMore(log: seq<Entry>, e: Entry, id: OpId)
    ensures ClaimsOf(log + [e], id) == ClaimsOf(log, id) + if e.Claimed? && e.id == id then 1 else 0
  {
  }

  lemma {:induction false} ClaimsAfter(s: System, a: Action, id: OpId)
    requires Enabled(s, a)
    ensures ClaimsOf(Apply(s, a).log, id) == ClaimsOf(s.log, id) + if ClaimsIt(s, a, id) then 1 else 0
  {
    var e := NewEntry(s, a);
    if e.None? {
      assert s.log + [] == s.log;
    } else {
      ClaimsOfMore(s.log, e.value, id);
    }
  }
}
