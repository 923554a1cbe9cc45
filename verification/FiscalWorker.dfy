// The worker of the fiscal queue as it runs: the two statements of its claim and its loop, with
// anything happening between its statements.
module FiscalWorker {
  import opened FiscalOrder
  import opened FiscalQueue
  import FiscalSteps
  import opened Options
  import RetryPolicy

  // ---- the worker's own loop ----------------------------------------------------------

  // What the world supplies: everybody else's steps between two statements, how each claimed
  // operation ends, the clock and the random draws.
  datatype World = World(others: nat -> seq<Action>, verdict: nat -> Verdict, clock: nat -> int, draw: nat -> real)

  predicate StepOf(a: Action, w: Wid) {
    !a.Insert? && !a.Webhook? && a.w == w
  }

  /** An insert and a provider's event are nobody's steps. */
  lemma OwnStepIff(a: Action, w: Wid)
    ensures StepOf(a, w) <==> a in {Claim(w), Crash(w)} || (a.Select? && a.w == w) || (a.Settle? && a.w == w)
  {
  }

  ghost predicate ForeignOnly(acts: seq<Action>, w: Wid) {
    forall i :: 0 <= i < |acts| ==> !StepOf(acts[i], w)
  }

  ghost predicate WorldFor(world: World, w: Wid) {
    (forall n: nat :: ForeignOnly(world.others(n), w)) && (forall n: nat :: RetryPolicy.Draw(world.draw(n)))
  }

  ghost predicate Quiet(world: World) {
    forall n: nat :: world.others(n) == []
  }

  /** A clock that never goes back and reads each settlement before the lease of its claim ends. */
  ghost predicate Timely(world: World, start: int) {
    && start <= world.clock(0)
    && (forall k: nat :: world.clock(2 * k) <= world.clock(2 * k + 1) < world.clock(2 * k) + LEASE_MS)
    && (forall k: nat :: world.clock(2 * k + 1) <= world.clock(2 * k + 2))
  }

  ghost predicate NobodyWorks(s: System) {
    forall w :: w in s.workers ==> s.workers[w].Idle?
  }

  lemma {:induction false} ForeignStepsKeepWorker(s: System, acts: seq<Action>, w: Wid)
    requires ForeignOnly(acts, w)
    ensures WorkerOf(Run(s, acts), w) == WorkerOf(s, w)
    decreases |acts|
  {
    if acts != [] {
      assert !StepOf(acts[0], w);
      ForeignStepsKeepWorker(Apply(s, acts[0]), acts[1..], w);
    }
  }

  ghost predicate NothingClaimable(s: System, now: int) {
    forall id :: id in s.ops ==> !Claimable(s.ops[id], now)
  }

  lemma {:induction false} RunKeepsRows(s: System, acts: seq<Action>)
    ensures s.ops.Keys <= Run(s, acts).ops.Keys
    decreases |acts|
  {
    if acts != [] {
      RunKeepsRows(Apply(s, acts[0]), acts[1..]);
    }
  }

  /** A worker nobody interrupts takes one operation through select, claim and settlement. */
  ghost predicate IsPass(s: System, trace: seq<Action>, w: Wid, id: OpId, k: nat, world: World) {
    && trace ==
       [Select(w, id, world.clock(2 * k)), Claim(w), Settle(w, world.verdict(k), world.clock(2 * k + 1), world.draw(k))]
    && Enabled(s, Select(w, id, world.clock(2 * k)))
  }

  lemma RunOfThree(s: System, a: Action, b: Action, c: Action)
    ensures Run(s, [a, b, c]) == Apply(Apply(Apply(s, a), b), c)
  {
    assert [a, b, c][1..] == [b, c] && [b, c][1..] == [c] && [c][1..] == [];
    assert Run(Apply(s, a), [b, c]) == Run(Apply(Apply(s, a), b), [c]);
  }

  lemma OrderlyThree(s: System, a: Action, b: Action, c: Action)
    requires Allowed(s, a) && Allowed(Apply(s, a), b) && Allowed(Apply(Apply(s, a), b), c)
    ensures Orderly(s, [a, b, c])
  {
    var s1 := Apply(s, a);
    var s2 := Apply(s1, b);
    assert [a, b, c][1..] == [b, c] && [b, c][1..] == [c] && [c][1..] == [];
    assert Orderly(s2, [c]);
    assert Orderly(s1, [b, c]);
  }

  lemma {:induction false} PassIsOrderly(s: System, trace: seq<Action>, w: Wid, id: OpId, k: nat, world: World)
    requires NobodyWorks(s) && s.clock <= world.clock(2 * k) <= world.clock(2 * k + 1) < world.clock(2 * k) + LEASE_MS
    requires IsPass(s, trace, w, id, k, world) && RetryPolicy.Draw(world.draw(k))
    ensures Orderly(s, trace) && NobodyWorks(Run(s, trace)) && Run(s, trace).clock == world.clock(2 * k + 1)
  {
    var s1 := Apply(s, trace[0]);
    var s2 := Apply(s1, trace[1]);
    assert s1.workers == s.workers[w := Selected(id, world.clock(2 * k))];
    assert s2.workers[w] == Working(id, s.ops[id].attempts + 1, world.clock(2 * k));
    RunOfThree(s, trace[0], trace[1], trace[2]);
    OrderlyThree(s, trace[0], trace[1], trace[2]);
    assert trace == [trace[0], trace[1], trace[2]];
  }

  /** Nobody else at work, and every settlement read before the lease of its claim ends. */
  ghost predicate Alone(s: System, world: World) {
    Quiet(world) && Timely(world, s.clock) && NobodyWorks(s)
  }

  lemma {:induction false} OrderlyPass(
      start: System, trace: seq<Action>, s: System, step: seq<Action>, w: Wid, id: OpId, k: nat, world: World)
    requires Alone(start, world) && WorldFor(world, w)
    requires s == Run(start, trace) && Orderly(start, trace) && NobodyWorks(s) && s.clock <= world.clock(2 * k)
    requires IsPass(s, step, w, id, k, world)
    ensures Orderly(start, trace + step)
    ensures NobodyWorks(Run(start, trace + step)) && Run(start, trace + step).clock <= world.clock(2 * (k + 1))
  {
    PassIsOrderly(s, step, w, id, k, world);
    OrderlyConcat(start, trace, step);
    RunConcat(start, trace, step);
    assert world.clock(2 * k + 1) <= world.clock(2 * k + 2);
  }

  // The table starts EMPTY and every method reports the run it made, so the theorems above
  // about Run(EMPTY, ..) hold of the table at all times.
  class OperationTable {
    var system: System

    constructor ()
      ensures system == EMPTY
    {
      system := EMPTY;
    }

    /** The select of the claim: the oldest claimable row, if there is one. */
    method SelectCandidate(now: int) returns (candidate: Option<OpId>)
      ensures candidate.Some? ==> candidate.value in system.ops && Oldest(system.ops, candidate.value, now)
      ensures candidate.Some? ==>
                && FiscalSteps.IsDue(system.ops[candidate.value], now)
                && forall id :: id in system.ops && FiscalSteps.IsDue(system.ops[id], now) ==>
                     system.ops[candidate.value].createdAt <= system.ops[id].createdAt
      ensures candidate.None? ==> NothingClaimable(system, now)
      ensures candidate.None? ==> forall id :: id in system.ops ==> !FiscalSteps.IsDue(system.ops[id], now)
    {
      var all := set id | id in system.ops && Claimable(system.ops[id], now);
      var rest := all;
      candidate := None;
      while rest != {}
        invariant rest <= all
        invariant candidate.None? ==> rest == all
        invariant candidate.Some? ==> candidate.value in all
        invariant candidate.Some? ==>
                    forall id :: id in all && id !in rest ==>
                        system.ops[candidate.value].createdAt <= system.ops[id].createdAt
        decreases rest
      {
        var id :| id in rest;
        if candidate.None? || system.ops[id].createdAt < system.ops[candidate.value].createdAt {
          candidate := Some(id);
        }
        rest := rest - {id};
      }
      assert forall id :: id in system.ops && Claimable(system.ops[id], now) ==> id in all;
    }

    /** One statement of a worker. */
    method Statement(a: Action)
      requires Enabled(system, a)
      modifies this
      ensures system == Apply(old(system), a)
    {
      system := Apply(system, a);
    }

    /** Everybody else's statements, between two of this worker's. */
    method Others(acts: seq<Action>, w: Wid)
      requires ForeignOnly(acts, w)
      modifies this
      ensures system == Run(old(system), acts)
      ensures WorkerOf(system, w) == old(WorkerOf(system, w)) && old(system).ops.Keys <= system.ops.Keys
    {
      ForeignStepsKeepWorker(system, acts, w);
      RunKeepsRows(system, acts);
      system := Run(system, acts);
    }

    /** The two statements of a claim, with anything happening between them. Nothing comes back
        when no row was claimable or when another worker renewed the lease in between. */
    method ClaimFiscalOperation(w: Wid, now: int, between: seq<Action>)
      returns (claimed: Option<OpId>, ghost trace: seq<Action>)
      requires WorkerOf(system, w).Idle? && ForeignOnly(between, w)
      modifies this
      ensures system == Run(old(system), trace)
      ensures claimed.None? ==> WorkerOf(system, w).Idle?
      ensures claimed.Some? ==>
                && claimed.value in system.ops
                && WorkerOf(system, w) == Working(claimed.value, system.ops[claimed.value].attempts, now)
                && system.ops[claimed.value].leaseExpiresAt == Some(now + LEASE_MS)
      ensures between == [] && claimed.None? ==> trace == [] && NothingClaimable(system, now)
      ensures between == [] && claimed.Some? ==>
                Enabled(old(system), Select(w, claimed.value, now))
                  && trace == [Select(w, claimed.value, now), Claim(w)]
    {
      ghost var start := system;
      var candidate := SelectCandidate(now);
      if candidate.None? {
        trace := between;
        Others(between, w);
        return None, trace;
      }
      Append(start, [], Select(w, candidate.value, now));
      trace := [] + [Select(w, candidate.value, now)];
      Statement(Select(w, candidate.value, now));
      RunConcat(start, trace, between);
      trace := trace + between;
      Others(between, w);
      Append(start, trace, Claim(w));
      trace := trace + [Claim(w)];
      var free := LeaseFree(system.ops[candidate.value], now);
      Statement(Claim(w));
      claimed := if free then candidate else None;
    }

    /** Claim, process, settle: the body of the worker's loop. */
    method ProcessOne(w: Wid, k: nat, world: World) returns (claimed: Option<OpId>, ghost trace: seq<Action>)
      requires WorkerOf(system, w).Idle? && WorldFor(world, w)
      modifies this
      ensures system == Run(old(system), trace) && WorkerOf(system, w).Idle?
      ensures Quiet(world) && claimed.None? ==> trace == [] && NothingClaimable(system, world.clock(2 * k))
      ensures Quiet(world) && claimed.Some? ==> IsPass(old(system), trace, w, claimed.value, k, world)
    {
      ghost var start := system;
      claimed, trace := ClaimFiscalOperation(w, world.clock(2 * k), world.others(2 * k));
      if claimed.None? {
        return;
      }
      RunConcat(start, trace, world.others(2 * k + 1));
      trace := trace + world.others(2 * k + 1);
      Others(world.others(2 * k + 1), w);
      var settle := Settle(w, world.verdict(k), world.clock(2 * k + 1), world.draw(k));
      Append(start, trace, settle);
      trace := trace + [settle];
      Statement(settle);
    }

    /** The worker's loop, with anything happening between its statements: one run of the shared
        machine over at most `limit` operations. With nobody interfering it stops early only when
        nothing is claimable, and alone with timely settlements its run is an orderly one. */
    method ProcessFiscalOperations(w: Wid, limit: nat, world: World) returns (processed: nat, ghost trace: seq<Action>)
      requires WorkerOf(system, w).Idle? && WorldFor(world, w)
      modifies this
      ensures system == Run(old(system), trace)
      ensures WorkerOf(system, w).Idle? && processed <= limit
      ensures Quiet(world) && processed < limit ==> NothingClaimable(system, world.clock(2 * processed))
      ensures Alone(old(system), world) ==> Orderly(old(system), trace)
    {
      ghost var start := system;
      processed := 0;
      trace := [];
      while processed < limit
        invariant system == Run(start, trace)
        invariant WorkerOf(system, w).Idle? && processed <= limit
        invariant Alone(start, world) ==>
                    Orderly(start, trace) && NobodyWorks(system) && system.clock <= world.clock(2 * processed)
        decreases limit - processed
      {
        ghost var before := system;
        var claimed;
        ghost var step;
        claimed, step := ProcessOne(w, processed, world);
        RunConcat(start, trace, step);
        if claimed.None? {
          assert Quiet(world) ==> trace + step == trace;
          trace := trace + step;
          return;
        }
        if Alone(start, world) {
          OrderlyPass(start, trace, before, step, w, claimed.value, processed, world);
        }
        trace := trace + step;
        processed := processed + 1;
      }
    }
  }
}
