// Reconciliation: what one pass does, and that repeated passes come to rest.
module OutboxReconcile {
  import opened OperationalOutbox
  import opened OutboxRuns

  /** The counters of a pass add up to the entries it sent. */
  lemma {:induction false} CountersAddUp(n: nat, replies: nat -> Reply)
    ensures var summary := SummaryOf(n, replies);
            summary.confirmed + summary.failed + summary.requiresAttention == n
  {
    if n > 0 {
      CountersAddUp(n - 1, replies);
    }
  }

  /** The attempts an entry still has before reconciliation leaves it alone. */
  function AttemptsLeft(maxAttempts: int): Entry -> nat {
    e => if IsEligible(e, maxAttempts) then maxAttempts - e.attempts else 0
  }

  function Potential(entries: seq<Entry>, maxAttempts: int): nat {
    Sum(entries, AttemptsLeft(maxAttempts))
  }

  lemma {:induction false} DeliverAllLowers(s: State, todo: seq<Entry>, maxAttempts: int, replies: nat -> Reply)
    requires UniqueKeys(s.entries) && Deliverable(s, todo)
    requires forall x :: x in todo ==> IsEligible(x, maxAttempts)
    ensures Potential(DeliverAll(s, todo, replies).entries, maxAttempts) + |todo| <= Potential(s.entries, maxAttempts)
    decreases |todo|
  {
    if todo != [] {
      var n := |todo| - 1;
      DeliverableInit(s, todo);
      DeliverAllLowers(s, todo[..n], maxAttempts, replies);
      LastIsThere(s, todo, replies);
      assert IsEligible(todo[n], maxAttempts);
      DeliverSum(DeliverAll(s, todo[..n], replies), todo[n], replies(n), AttemptsLeft(maxAttempts));
    }
  }

  /** Each pass lowers the total of the attempts left by at least the number of entries it sends. */
  lemma PassLowersThePotential(s: State, now: int, maxAttempts: int, replies: nat -> Reply)
    requires UniqueKeys(s.entries)
    ensures Potential(Reconcile(s, now, maxAttempts, replies).entries, maxAttempts) + |Todo(s, now, maxAttempts)|
         <= Potential(s.entries, maxAttempts)
  {
    TodoIsDeliverable(s, now, maxAttempts);
    DeliverAllLowers(s, Todo(s, now, maxAttempts), maxAttempts, replies);
  }

  // ---- each pass is one more attempt for every entry still eligible -------------------

  lemma UpdateKeepsKept(entries: seq<Entry>, e: Entry, change: Change, now: int, y: Entry)
    requires y in entries && y.key != e.key && Kept(y, now)
    ensures y in UpdateStep(entries, e.key, change, now).entries
  {
    PruneElements(entries, now);
    var kept := Prune(entries, now);
    var i, j := IndexOf(kept, e.key), IndexOf(kept, y.key);
    var k :| 0 <= k < |kept| && kept[k] == y;
    if i < |kept| {
      assert kept[i := Changed(kept[i], change)][k] == y;
    }
  }

  /** A delivery drops another entry only if it finds it expired. */
  lemma DeliverKeepsKept(s: State, e: Entry, reply: Reply, y: Entry)
    requires UniqueKeys(s.entries) && e in s.entries && !e.status.Confirmed?
    requires y in s.entries && y.key != e.key && Kept(y, reply.attemptAt) && Kept(y, reply.settledAt)
    ensures y in Deliver(s, e, reply).entries
  {
    var attempt := UpdateStep(s.entries, e.key, Attempt(reply.attemptAt), reply.attemptAt);
    UpdateKeepsKept(s.entries, e, Attempt(reply.attemptAt), reply.attemptAt, y);
    UpdateKeepsKept(attempt.entries, e, Settlement(e, reply), reply.settledAt, y);
  }

  /** A delivery made later in the pass finds the i-th entry, confirmed by then, expired. */
  ghost predicate ExpiredMeanwhile(todo: seq<Entry>, replies: nat -> Reply, i: nat)
    requires i < |todo|
  {
    exists j :: i < j < |todo| && !KeptThrough(Delivered(todo[i], replies(i)), replies(j))
  }

  ghost predicate SentIsThere(todo: seq<Entry>, replies: nat -> Reply, i: nat, after: State)
    requires i < |todo|
  {
    Delivered(todo[i], replies(i)) in after.entries || ExpiredMeanwhile(todo, replies, i)
  }

  ghost predicate WaitingStay(s: State, todo: seq<Entry>, after: State) {
    forall y :: y in s.entries && !y.status.Confirmed? && (forall x :: x in todo ==> x.key != y.key) ==>
      y in after.entries
  }

  predicate KeptThrough(y: Entry, reply: Reply) {
    Kept(y, reply.attemptAt) && Kept(y, reply.settledAt)
  }

  /** What delivering `todo` leaves: every entry is an old one that was not sent or one as delivered;
      every sent one is there unless it was confirmed and has expired meanwhile; and no other entry
      that waits is gone. */
  ghost predicate PassedOver(s: State, todo: seq<Entry>, replies: nat -> Reply, after: State) {
    && UniqueKeys(after.entries)
    && (forall y :: y in after.entries ==> OldOrDelivered(s, todo, replies, y))
    && (forall i :: 0 <= i < |todo| ==> SentIsThere(todo, replies, i, after))
    && WaitingStay(s, todo, after)
    && after.log == s.log + SendsOf(todo, replies)
  }

  lemma {:induction false} DeliverAllReplaces(s: State, todo: seq<Entry>, replies: nat -> Reply)
    requires UniqueKeys(s.entries) && Deliverable(s, todo)
    ensures PassedOver(s, todo, replies, DeliverAll(s, todo, replies))
    decreases |todo|
  {
    if todo != [] {
      var n := |todo| - 1;
      DeliverableInit(s, todo);
      DeliverAllReplaces(s, todo[..n], replies);
      LastIsThere(s, todo, replies);
      var mid := DeliverAll(s, todo[..n], replies);
      DeliverReplaces(mid, todo[n], replies(n));
      forall y | y in mid.entries && y.key != todo[n].key && KeptThrough(y, replies(n))
        ensures y in Deliver(mid, todo[n], replies(n)).entries
      {
        DeliverKeepsKept(mid, todo[n], replies(n), y);
      }
      OneMorePassed(s, todo, replies, mid, DeliverAll(s, todo, replies));
    }
  }

  lemma OneMorePassed(s: State, todo: seq<Entry>, replies: nat -> Reply, mid: State, after: State)
    requires todo != [] && UniqueKeys(todo) && PassedOver(s, todo[..|todo| - 1], replies, mid)
    requires var e := todo[|todo| - 1];
             && Replaced(mid.entries, after.entries, e, Delivered(e, replies(|todo| - 1)))
             && after.log == mid.log + [Sent(e.key, e.command, replies(|todo| - 1).answer.Accepted?)]
             && (forall y :: y in mid.entries && y.key != e.key && KeptThrough(y, replies(|todo| - 1)) ==>
                 y in after.entries)
    ensures PassedOver(s, todo, replies, after)
  {
    AllAccounted(s, todo, replies, mid, after);
    AllSentAreThere(todo, replies, mid, after);
    OthersWait(s, todo, mid, after);
    OneMoreSent(s.log, todo, replies);
  }

  lemma OneMoreSent(log: seq<Event>, todo: seq<Entry>, replies: nat -> Reply)
    requires todo != []
    ensures var n := |todo| - 1;
            log + SendsOf(todo[..n], replies) + [Sent(todo[n].key, todo[n].command, replies(n).answer.Accepted?)] ==
            log + SendsOf(todo, replies)
  {
  }

  lemma AllSentAreThere(todo: seq<Entry>, replies: nat -> Reply, mid: State, after: State)
    requires todo != [] && UniqueKeys(todo)
    requires var init := todo[..|todo| - 1]; forall i :: 0 <= i < |init| ==> SentIsThere(init, replies, i, mid)
    requires var n := |todo| - 1;
             && Delivered(todo[n], replies(n)) in after.entries
             && forall y :: y in mid.entries && y.key != todo[n].key && KeptThrough(y, replies(n)) ==>
                y in after.entries
    ensures forall i :: 0 <= i < |todo| ==> SentIsThere(todo, replies, i, after)
  {
    var n := |todo| - 1;
    forall i | 0 <= i < |todo| ensures SentIsThere(todo, replies, i, after) {
      if i < n {
        assert SentIsThere(todo[..n], replies, i, mid);
        SentStays(todo, replies, i, mid, after);
      }
    }
  }

  lemma AllAccounted(s: State, todo: seq<Entry>, replies: nat -> Reply, mid: State, after: State)
    requires todo != [] && forall y :: y in mid.entries ==> OldOrDelivered(s, todo[..|todo| - 1], replies, y)
    requires Replaced(mid.entries, after.entries, todo[|todo| - 1], Delivered(todo[|todo| - 1], replies(|todo| - 1)))
    ensures forall y :: y in after.entries ==> OldOrDelivered(s, todo, replies, y)
  {
    var n := |todo| - 1;
    forall y | y in after.entries ensures OldOrDelivered(s, todo, replies, y) {
      if y != Delivered(todo[n], replies(n)) {
        OneMoreDelivered(s, todo, replies, y);
      }
    }
  }

  lemma OthersWait(s: State, todo: seq<Entry>, mid: State, after: State)
    requires todo != [] && WaitingStay(s, todo[..|todo| - 1], mid)
    requires forall y :: y in mid.entries && y.key != todo[|todo| - 1].key && !y.status.Confirmed? ==>
             y in after.entries
    ensures WaitingStay(s, todo, after)
  {
    var n := |todo| - 1;
    assert todo[n] in todo && forall x :: x in todo[..n] ==> x in todo;
  }

  lemma SentStays(todo: seq<Entry>, replies: nat -> Reply, i: nat, mid: State, after: State)
    requires i < |todo| - 1 && UniqueKeys(todo)
    requires SentIsThere(todo[..|todo| - 1], replies, i, mid)
    requires forall y :: y in mid.entries && y.key != todo[|todo| - 1].key && KeptThrough(y, replies(|todo| - 1)) ==>
             y in after.entries
    ensures SentIsThere(todo, replies, i, after)
  {
    var n := |todo| - 1;
    var init := todo[..n];
    assert init[i] == todo[i];
    if ExpiredMeanwhile(init, replies, i) {
      var j :| i < j < n && !KeptThrough(Delivered(init[i], replies(i)), replies(j));
    } else if !KeptThrough(Delivered(todo[i], replies(i)), replies(n)) {
      assert i < n < |todo|;
    }
  }

  ghost predicate OldOrDelivered(s: State, todo: seq<Entry>, replies: nat -> Reply, y: Entry) {
    || (y in s.entries && forall x :: x in todo ==> x.key != y.key)
    || exists i :: 0 <= i < |todo| && y == Delivered(todo[i], replies(i))
  }

  lemma OneMoreDelivered(s: State, todo: seq<Entry>, replies: nat -> Reply, y: Entry)
    requires todo != [] && OldOrDelivered(s, todo[..|todo| - 1], replies, y) && y.key != todo[|todo| - 1].key
    ensures OldOrDelivered(s, todo, replies, y)
  {
  }

  /** The commands a pass sends, in order. */
  function SendsOf(todo: seq<Entry>, replies: nat -> Reply): seq<Event> {
    if todo == [] then []
    else
      var n := |todo| - 1;
      SendsOf(todo[..n], replies) + [Sent(todo[n].key, todo[n].command, replies(n).answer.Accepted?)]
  }

  /** Every entry still eligible has been tried at least `n` times. */
  ghost predicate TriedAtLeast(s: State, maxAttempts: int, n: nat) {
    forall e :: e in s.entries && IsEligible(e, maxAttempts) ==> e.attempts >= n
  }

  /** A pass sends exactly the eligible entries, in order, leaves each as delivered, and touches no
      other entry that waits; confirmed entries may only expire. */
  lemma PassReplaces(s: State, now: int, maxAttempts: int, replies: nat -> Reply)
    requires UniqueKeys(s.entries)
    ensures PassedOver(s, Todo(s, now, maxAttempts), replies, Reconcile(s, now, maxAttempts, replies))
  {
    TodoIsDeliverable(s, now, maxAttempts);
    DeliverAllReplaces(s, Todo(s, now, maxAttempts), replies);
  }

  lemma TriedOnceMore(s: State, todo: seq<Entry>, maxAttempts: int, replies: nat -> Reply, n: nat, e: Entry)
    requires TriedAtLeast(s, maxAttempts, n) && IsEligible(e, maxAttempts) && OldOrDelivered(s, todo, replies, e)
    requires forall x :: x in todo <==> x in s.entries && IsEligible(x, maxAttempts)
    ensures e.attempts >= n + 1
  {
    var i :| 0 <= i < |todo| && e == Delivered(todo[i], replies(i));
    assert todo[i] in todo;
  }

  lemma PassIsOneMoreTry(s: State, now: int, maxAttempts: int, replies: nat -> Reply, n: nat)
    requires UniqueKeys(s.entries) && TriedAtLeast(s, maxAttempts, n)
    ensures TriedAtLeast(Reconcile(s, now, maxAttempts, replies), maxAttempts, n + 1)
  {
    var todo, after := Todo(s, now, maxAttempts), Reconcile(s, now, maxAttempts, replies);
    TodoIsDeliverable(s, now, maxAttempts);
    PassReplaces(s, now, maxAttempts, replies);
    forall e | e in after.entries && IsEligible(e, maxAttempts) ensures e.attempts >= n + 1 {
      TriedOnceMore(s, todo, maxAttempts, replies, n, e);
    }
  }

  // The passes of a run, each with its clock reading and the answers it gets.
  datatype Pass = Pass(at: int, replies: nat -> Reply)

  function Passes(s: State, maxAttempts: int, passes: seq<Pass>): State {
    if passes == [] then s
    else
      var last := passes[|passes| - 1];
      Reconcile(Passes(s, maxAttempts, passes[..|passes| - 1]), last.at, maxAttempts, last.replies)
  }

  lemma {:induction false} PassesTry(s: State, maxAttempts: int, passes: seq<Pass>)
    requires UniqueKeys(s.entries)
    ensures UniqueKeys(Passes(s, maxAttempts, passes).entries)
    ensures TriedAtLeast(Passes(s, maxAttempts, passes), maxAttempts, |passes|)
    decreases |passes|
  {
    if passes != [] {
      var init, last := passes[..|passes| - 1], passes[|passes| - 1];
      PassesTry(s, maxAttempts, init);
      PassReplaces(Passes(s, maxAttempts, init), last.at, maxAttempts, last.replies);
      PassIsOneMoreTry(Passes(s, maxAttempts, init), last.at, maxAttempts, last.replies, |init|);
    }
  }

  lemma FirstIsElement(entries: seq<Entry>)
    ensures entries == [] || entries[0] in entries
  {
  }

  /** After `maxAttempts` passes, whatever the server answered, nothing is eligible: a further pass
      sends nothing and changes nothing. */
  lemma {:induction false} ComesToRest(s: State, maxAttempts: int, passes: seq<Pass>, now: int, replies: nat -> Reply)
    requires UniqueKeys(s.entries) && |passes| >= maxAttempts
    ensures var rest := Passes(s, maxAttempts, passes);
            Todo(rest, now, maxAttempts) == [] && Reconcile(rest, now, maxAttempts, replies) == rest
  {
    var rest := Passes(s, maxAttempts, passes);
    PassesTry(s, maxAttempts, passes);
    TodoIsDeliverable(rest, now, maxAttempts);
    FirstIsElement(Todo(rest, now, maxAttempts));
  }
}
