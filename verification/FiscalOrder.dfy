// Runs of the fiscal queue in which a claim is atomic and every claimed operation is settled before
// its lease ends, worker steps only.
module FiscalOrder {
  import opened FiscalQueue
  import opened Options

  // ---- runs with an atomic claim and timely settlements -------------------------------

  predicate ReadsClock(a: Action) {
    a.Select? || a.Settle?
  }

  /** The worker's own steps, when nothing happens inside a claim, clocks never go back, and
      every claimed operation is settled before its lease ends. */
  ghost predicate Allowed(s: System, a: Action) {
    && !a.Webhook?
    && (forall w :: w in s.workers && s.workers[w].Selected? ==> a == Claim(w))
    && (a.Crash? && a.w in s.workers ==> !s.workers[a.w].Working?)
    && (ReadsClock(a) ==> s.clock <= a.now)
    && (forall w :: ReadsClock(a) && w in s.workers && s.workers[w].Working? ==>
          a.now < s.workers[w].claimedAt + LEASE_MS)
  }

  ghost predicate Orderly(s: System, acts: seq<Action>)
    decreases |acts|
  {
    acts == [] || (Allowed(s, acts[0]) && Orderly(Apply(s, acts[0]), acts[1..]))
  }

  ghost predicate WorkingOn(s: System, w: Wid, id: OpId) {
    w in s.workers && s.workers[w].Working? && s.workers[w].id == id
  }

  ghost predicate OrderlyRow(s: System, id: OpId)
    requires id in s.ops
  {
    var op := s.ops[id];
    && (op.status == Processing <==> exists w :: WorkingOn(s, w, id))
    && (op.status != Processing ==> op.leaseExpiresAt == None)
    && op.attempts <= MAX_ATTEMPTS
    && (op.status == Pending || op.status == Retryable ==> op.attempts < MAX_ATTEMPTS)
    && ClaimsOf(s.log, id) == op.attempts
  }

  ghost predicate OrderlyInv(s: System) {
    && (forall id :: id in s.ops ==> OrderlyRow(s, id))
    && (forall id :: id !in s.ops ==> ClaimsOf(s.log, id) == 0)
    && (forall w, id :: WorkingOn(s, w, id) ==>
          && id in s.ops && s.ops[id].status == Processing && s.ops[id].attempts == s.workers[w].attempts
          && s.ops[id].leaseExpiresAt == Some(s.workers[w].claimedAt + LEASE_MS))
    && (forall v, w, id :: WorkingOn(s, v, id) && WorkingOn(s, w, id) ==> v == w)
    && (forall w :: w in s.workers && s.workers[w].Selected? ==>
          && s.workers[w].id in s.ops
          && (s.ops[s.workers[w].id].status == Pending || s.ops[s.workers[w].id].status == Retryable))
  }

  lemma OrderlySelectIsFresh(s: System, w: Wid, id: OpId, now: int)
    requires OrderlyInv(s) && Allowed(s, Select(w, id, now)) && Enabled(s, Select(w, id, now))
    ensures s.ops[id].status == Pending || s.ops[id].status == Retryable
  {
  }

  /** Who works on what after a step: whoever did, and the worker whose claim went through. */
  lemma WorkersAfter(s: System, a: Action, w: Wid, id: OpId)
    requires Enabled(s, a) && WorkingOn(Apply(s, a), w, id)
    ensures (a == Claim(w) && s.workers[w].id == id && LeaseFree(s.ops[id], s.workers[w].now))
            || (WorkingOn(s, w, id) && s.workers[w] == Apply(s, a).workers[w] && !(a.Settle? && a.w == w))
  {
  }

  lemma OrderlyWorker(s: System, a: Action, w: Wid, id: OpId)
    requires OrderlyInv(s) && Allowed(s, a) && Enabled(s, a) && WorkingOn(Apply(s, a), w, id)
    ensures var t := Apply(s, a);
            && id in t.ops && t.ops[id].status == Processing && t.ops[id].attempts == t.workers[w].attempts
            && t.ops[id].leaseExpiresAt == Some(t.workers[w].claimedAt + LEASE_MS)
  {
    WorkersAfter(s, a, w, id);
    if a.Settle? { assert WorkingOn(s, a.w, s.workers[a.w].id); }
    if a.Claim? { assert OrderlyRow(s, s.workers[a.w].id); }
  }

  lemma OrderlyOneWorker(s: System, a: Action, v: Wid, w: Wid, id: OpId)
    requires OrderlyInv(s) && Allowed(s, a) && Enabled(s, a)
    requires WorkingOn(Apply(s, a), v, id) && WorkingOn(Apply(s, a), w, id)
    ensures v == w
  {
    WorkersAfter(s, a, v, id);
    WorkersAfter(s, a, w, id);
    if a.Claim? { assert OrderlyRow(s, s.workers[a.w].id); }
  }

  lemma OrderlyCandidates(s: System, a: Action, w: Wid)
    requires OrderlyInv(s) && Allowed(s, a) && Enabled(s, a)
    requires w in Apply(s, a).workers && Apply(s, a).workers[w].Selected?
    ensures var t := Apply(s, a);
            && t.workers[w].id in t.ops
            && (t.ops[t.workers[w].id].status == Pending || t.ops[t.workers[w].id].status == Retryable)
  {
    if a.Select? { OrderlySelectIsFresh(s, a.w, a.id, a.now); }
  }

  lemma OrderlyWorkers(s: System, a: Action)
    requires OrderlyInv(s) && Allowed(s, a) && Enabled(s, a)
    ensures var t := Apply(s, a);
            && (forall w, id :: WorkingOn(t, w, id) ==>
                  && id in t.ops && t.ops[id].status == Processing && t.ops[id].attempts == t.workers[w].attempts
                  && t.ops[id].leaseExpiresAt == Some(t.workers[w].claimedAt + LEASE_MS))
            && (forall v, w, id :: WorkingOn(t, v, id) && WorkingOn(t, w, id) ==> v == w)
            && (forall w :: w in t.workers && t.workers[w].Selected? ==>
                  && t.workers[w].id in t.ops
                  && (t.ops[t.workers[w].id].status == Pending || t.ops[t.workers[w].id].status == Retryable))
  {
    var t := Apply(s, a);
    forall w, id | WorkingOn(t, w, id)
      ensures id in t.ops && t.ops[id].status == Processing && t.ops[id].attempts == t.workers[w].attempts
      ensures t.ops[id].leaseExpiresAt == Some(t.workers[w].claimedAt + LEASE_MS)
    {
      OrderlyWorker(s, a, w, id);
    }
    forall v, w, id | WorkingOn(t, v, id) && WorkingOn(t, w, id) ensures v == w {
      OrderlyOneWorker(s, a, v, w, id);
    }
    forall w | w in t.workers && t.workers[w].Selected?
      ensures t.workers[w].id in t.ops
      ensures t.ops[t.workers[w].id].status == Pending || t.ops[t.workers[w].id].status == Retryable
    {
      OrderlyCandidates(s, a, w);
    }
  }

  /** The operation a step writes, if any. */
  ghost predicate Touches(s: System, a: Action, id: OpId) {
    match a
    case Insert(i, _, _) => i == id
    case Claim(w) => WorkerOf(s, w).Selected? && WorkerOf(s, w).id == id
    case Settle(w, _, _, _) => WorkerOf(s, w).Working? && WorkerOf(s, w).id == id
    case _ => false
  }

  /** A row nobody wrote, with the same workers on it, is as orderly as before. */
  lemma {:induction false} RowFrame(s: System, t: System, id: OpId)
    requires id in s.ops && OrderlyRow(s, id) && id in t.ops && t.ops[id] == s.ops[id]
    requires forall w :: WorkingOn(t, w, id) <==> WorkingOn(s, w, id)
    requires ClaimsOf(t.log, id) == ClaimsOf(s.log, id)
    ensures OrderlyRow(t, id)
  {
  }

  lemma UntouchedRow(s: System, a: Action, id: OpId)
    requires Allowed(s, a) && Enabled(s, a) && id in s.ops && !Touches(s, a, id)
    ensures id in Apply(s, a).ops && Apply(s, a).ops[id] == s.ops[id]
    ensures forall w :: WorkingOn(Apply(s, a), w, id) <==> WorkingOn(s, w, id)
  {
  }

  lemma OrderlyInserted(s: System, a: Action, id: OpId)
    requires OrderlyInv(s) && Allowed(s, a) && Enabled(s, a) && a.Insert? && a.id == id
    ensures OrderlyRow(Apply(s, a), id)
  {
    ClaimsAfter(s, a, id);
    forall w ensures !WorkingOn(Apply(s, a), w, id) {
      assert !WorkingOn(s, w, id);
    }
  }

  lemma OrderlyClaimed(s: System, w: Wid, id: OpId)
    requires OrderlyInv(s) && Enabled(s, Claim(w)) && s.workers[w].id == id
    ensures OrderlyRow(Apply(s, Claim(w)), id)
  {
    ClaimsAfter(s, Claim(w), id);
    OrderlyRowOf(s, id);
    assert WorkingOn(Apply(s, Claim(w)), w, id);
  }

  /** A settled row: nobody works on it any more, and it is retryable only below the limit. */
  lemma {:induction false} SettledRowIsOrderly(
      t: System, id: OpId, before: Operation, attempts: nat, v: Verdict, now: int, random: real)
    requires id in t.ops && t.ops[id] == SettledRow(before, attempts, v, now, random)
             && before.attempts == attempts <= MAX_ATTEMPTS
    requires forall w :: !WorkingOn(t, w, id)
    requires ClaimsOf(t.log, id) == attempts
    ensures OrderlyRow(t, id)
  {
  }

  lemma SettledIsIdle(s: System, a: Action, id: OpId)
    requires OrderlyInv(s) && Enabled(s, a) && a.Settle? && s.workers[a.w].id == id
    ensures forall w :: !WorkingOn(Apply(s, a), w, id)
  {
    assert WorkingOn(s, a.w, id);
    forall w ensures !WorkingOn(Apply(s, a), w, id) {
      assert WorkingOn(s, w, id) ==> w == a.w;
    }
  }

  lemma OrderlyRowAfter(s: System, a: Action, id: OpId)
    requires OrderlyInv(s) && Allowed(s, a) && Enabled(s, a) && id in Apply(s, a).ops
    ensures OrderlyRow(Apply(s, a), id)
  {
    ClaimsAfter(s, a, id);
    if !Touches(s, a, id) {
      OrderlyRowOf(s, id);
      UntouchedRow(s, a, id);
      RowFrame(s, Apply(s, a), id);
    } else {
      match a
      case Insert(_, _, _) => OrderlyInserted(s, a, id);
      case Claim(w) => OrderlyClaimed(s, w, id);
      case Settle(w, verdict, now, random) =>
        OrderlyRowOf(s, id);
        assert WorkingOn(s, w, id);
        SettledIsIdle(s, a, id);
        SettledRowIsOrderly(Apply(s, a), id, s.ops[id], s.workers[w].attempts, verdict, now, random);
    }
  }

  lemma AllowedStepKeepsOrder(s: System, a: Action)
    requires OrderlyInv(s) && Allowed(s, a)
    ensures OrderlyInv(Apply(s, a))
  {
    if Enabled(s, a) {
      OrderlyWorkers(s, a);
      forall id | id in Apply(s, a).ops ensures OrderlyRow(Apply(s, a), id) {
        OrderlyRowAfter(s, a, id);
      }
      forall id | id !in Apply(s, a).ops ensures ClaimsOf(Apply(s, a).log, id) == 0 {
        ClaimsAfter(s, a, id);
      }
    }
  }

  lemma {:induction false} OrderlyRunKeepsInv(s: System, acts: seq<Action>)
    requires OrderlyInv(s) && Orderly(s, acts)
    ensures OrderlyInv(Run(s, acts))
    decreases |acts|
  {
    if acts != [] {
      AllowedStepKeepsOrder(s, acts[0]);
      OrderlyRunKeepsInv(Apply(s, acts[0]), acts[1..]);
    }
  }

  lemma AllowedStepKeepsTerminal(s: System, a: Action, id: OpId)
    requires OrderlyInv(s) && Allowed(s, a) && id in s.ops && Terminal(s.ops[id])
    ensures id in Apply(s, a).ops && Apply(s, a).ops[id] == s.ops[id]
  {
    if Enabled(s, a) && a.Settle? {
      assert WorkingOn(s, a.w, s.workers[a.w].id);
    }
  }

  /** With an atomic claim and settlement before the lease ends, a terminal row never changes again. */
  lemma {:induction false} TerminalForever(s: System, acts: seq<Action>, id: OpId)
    requires OrderlyInv(s) && Orderly(s, acts) && id in s.ops && Terminal(s.ops[id])
    ensures id in Run(s, acts).ops && Run(s, acts).ops[id] == s.ops[id]
    decreases |acts|
  {
    if acts != [] {
      AllowedStepKeepsTerminal(s, acts[0], id);
      AllowedStepKeepsOrder(s, acts[0]);
      TerminalForever(Apply(s, acts[0]), acts[1..], id);
    }
  }

  /** In such runs the limit of eight is a limit on claims. */
  lemma {:induction false} OrderlyLimits(acts: seq<Action>, id: OpId)
    requires Orderly(EMPTY, acts) && id in Run(EMPTY, acts).ops
    ensures var s := Run(EMPTY, acts);
            && ClaimsOf(s.log, id) == s.ops[id].attempts <= MAX_ATTEMPTS
            && (s.ops[id].status == Retryable ==> s.ops[id].attempts <= 7)
            && (s.ops[id].status == Processing <==> exists w :: WorkingOn(s, w, id))
  {
    OrderlyRunKeepsInv(EMPTY, acts);
    OrderlyRowOf(Run(EMPTY, acts), id);
  }

  lemma OrderlyRowOf(s: System, id: OpId)
    requires OrderlyInv(s) && id in s.ops
    ensures OrderlyRow(s, id)
  {
  }

  lemma {:induction false} OrderlyConcat(s: System, a: seq<Action>, b: seq<Action>)
    ensures Orderly(s, a + b) <==> Orderly(s, a) && Orderly(Run(s, a), b)
    decreases |a|
  {
    if a == [] {
      assert a + b == b;
    } else {
      assert (a + b)[0] == a[0] && (a + b)[1..] == a[1..] + b;
      OrderlyConcat(Apply(s, a[0]), a[1..], b);
    }
  }
}
