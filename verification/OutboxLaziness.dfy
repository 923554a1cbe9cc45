// Expired entries are dropped only when a call happens to touch the store. No caller can tell:
// a store that dropped them at every tick of the clock would give the same answers.
module OutboxLaziness {
  import opened OperationalOutbox
  import OutboxRuns

  lemma {:induction false} PruneTwice(entries: seq<Entry>, t1: int, t2: int)
    requires t1 <= t2
    ensures Prune(Prune(entries, t1), t2) == Prune(entries, t2)
    decreases |entries|
  {
    if entries != [] {
      var init, last := entries[..|entries| - 1], entries[|entries| - 1];
      PruneTwice(init, t1, t2);
      assert Prune(init, t1) + [] == Prune(init, t1) && Prune(init, t2) + [] == Prune(init, t2);
      if Kept(last, t1) {
        assert (Prune(init, t1) + [last])[..|Prune(init, t1)|] == Prune(init, t1);
      }
    }
  }

  // The calls on the store itself, markers included.
  datatype Op =
    | OpList(at: int)
    | OpEnqueue(input: Input, at: int)
    | OpUpdate(key: string, change: Change, at: int)
    | OpDiscard(key: string, at: int)
    | OpPrune(at: int)
    | Tick(at: int)

  // What the caller gets. The number of entries `pruneConfirmed` removed is not part of it.
  datatype Response = View(entries: seq<Entry>) | Answer(result: Result<Entry>) | Done(outcome: Result<()>) | Silent

  datatype Turn = Turn(entries: seq<Entry>, response: Response)

  /** One call; `eager` stores also prune when the clock ticks. */
  function Serve(settings: Settings, eager: bool, entries: seq<Entry>, op: Op): Turn {
    match op
    case OpList(at) => Turn(entries, View(Prune(entries, at)))
    case OpEnqueue(input, at) =>
      var step := EnqueueStep(settings, entries, input, at);
      Turn(step.entries, Answer(step.result))
    case OpUpdate(key, change, at) =>
      var step := UpdateStep(entries, key, change, at);
      Turn(step.entries, Answer(step.result))
    case OpDiscard(key, at) =>
      var step := DiscardStep(entries, key, at);
      Turn(step.entries, Done(step.result))
    case OpPrune(at) => Turn(Prune(entries, at), Silent)
    case Tick(at) => Turn(if eager then Prune(entries, at) else entries, Silent)
  }

  function ServeAll(settings: Settings, eager: bool, entries: seq<Entry>, ops: seq<Op>): (seq<Entry>, seq<Response>) {
    if ops == [] then (entries, [])
    else
      var (mid, responses) := ServeAll(settings, eager, entries, ops[..|ops| - 1]);
      var turn := Serve(settings, eager, mid, ops[|ops| - 1]);
      (turn.entries, responses + [turn.response])
  }

  ghost predicate Ordered(ops: seq<Op>) {
    forall i, j :: 0 <= i <= j < |ops| ==> ops[i].at <= ops[j].at
  }

  /** Two stores that nothing at or after `now` can tell apart. */
  ghost predicate Alike(a: seq<Entry>, b: seq<Entry>, now: int) {
    Prune(a, now) == Prune(b, now)
  }

  lemma AlikeLater(a: seq<Entry>, b: seq<Entry>, t1: int, t2: int)
    requires Alike(a, b, t1) && t1 <= t2
    ensures Alike(a, b, t2)
  {
    PruneTwice(a, t1, t2);
    PruneTwice(b, t1, t2);
  }

  lemma EnqueueAlike(settings: Settings, a: seq<Entry>, b: seq<Entry>, input: Input, at: int)
    requires Alike(a, b, at)
    ensures EnqueueStep(settings, a, input, at).result == EnqueueStep(settings, b, input, at).result
    ensures Alike(EnqueueStep(settings, a, input, at).entries, EnqueueStep(settings, b, input, at).entries, at)
  {
  }

  lemma ServeAlike(settings: Settings, a: seq<Entry>, b: seq<Entry>, op: Op)
    requires Alike(a, b, op.at)
    ensures var lazy, eager := Serve(settings, false, a, op), Serve(settings, true, b, op);
            lazy.response == eager.response && Alike(lazy.entries, eager.entries, op.at)
  {
    match op
    case OpEnqueue(input, at) => EnqueueAlike(settings, a, b, input, at);
    case OpPrune(at) =>
    case Tick(at) => PruneTwice(b, at, at);
    case _ =>
  }

  /** For a clock that does not go back, the lazily pruned store answers every call as the eagerly
      pruned one, the ticks falling wherever they may. */
  lemma {:induction false} LazinessIsUnobservable(settings: Settings, entries: seq<Entry>, ops: seq<Op>)
    requires Ordered(ops)
    ensures var lazy, eager := ServeAll(settings, false, entries, ops), ServeAll(settings, true, entries, ops);
            && lazy.1 == eager.1
            && (ops != [] ==> Alike(lazy.0, eager.0, ops[|ops| - 1].at))
    decreases |ops|
  {
    if ops != [] {
      var init, last := ops[..|ops| - 1], ops[|ops| - 1];
      LazinessIsUnobservable(settings, entries, init);
      var lazy, eager := ServeAll(settings, false, entries, init).0, ServeAll(settings, true, entries, init).0;
      if init != [] {
        AlikeLater(lazy, eager, init[|init| - 1].at, last.at);
      }
      ServeAlike(settings, lazy, eager, last);
    }
  }

  lemma OneMoreOp(settings: Settings, eager: bool, entries: seq<Entry>, ops: seq<Op>, op: Op)
    ensures var before, after :=
              ServeAll(settings, eager, entries, ops), ServeAll(settings, eager, entries, ops + [op]);
            var turn := Serve(settings, eager, before.0, op);
            after.0 == turn.entries && after.1 == before.1 + [turn.response]
  {
  }

  /** They are different stores: a tick leaves the lazy one as it is, and nothing in the eager one that was
      confirmed more than 86,400,000 milliseconds before. */
  lemma TheTickTellsThemApart(settings: Settings, entries: seq<Entry>, ops: seq<Op>, at: int, e: Entry)
    ensures ServeAll(settings, false, entries, ops + [Tick(at)]).0 == ServeAll(settings, false, entries, ops).0
    ensures e in ServeAll(settings, true, entries, ops + [Tick(at)]).0 <==>
            && e in ServeAll(settings, true, entries, ops).0
            && (e.status == Confirmed ==>
                var stamp := if e.receipt.Some? then e.receipt.value.confirmedAt else e.updatedAt;
                stamp.Unreadable? || stamp.ms >= at - 86_400_000)
  {
    OneMoreOp(settings, false, entries, ops, Tick(at));
    OneMoreOp(settings, true, entries, ops, Tick(at));
    OutboxRuns.PruneElements(ServeAll(settings, true, entries, ops).0, at);
  }

  // ---- the one thing that shows -------------------------------------------------------

  /** What `pruneConfirmed` returns. */
  function RemovedCount(entries: seq<Entry>, now: int): int {
    |entries| - |Prune(entries, now)|
  }

  lemma {:induction false} NothingRemovedIff(entries: seq<Entry>, now: int)
    ensures |Prune(entries, now)| <= |entries|
    ensures |Prune(entries, now)| == |entries| <==> forall i :: 0 <= i < |entries| ==> Kept(entries[i], now)
    decreases |entries|
  {
    if entries != [] {
      var init := entries[..|entries| - 1];
      NothingRemovedIff(init, now);
      assert forall i :: 0 <= i < |init| ==> init[i] == entries[i];
    }
  }

  /** The count `pruneConfirmed` returns at `t2` is the same on the lazy store and on one pruned at
      `t1` before, if and only if nothing had expired at `t1`. */
  lemma CountsAgreeIff(entries: seq<Entry>, t1: int, t2: int)
    requires t1 <= t2
    ensures RemovedCount(entries, t2) == RemovedCount(Prune(entries, t1), t2) <==>
            forall i :: 0 <= i < |entries| ==> Kept(entries[i], t1)
  {
    PruneTwice(entries, t1, t2);
    NothingRemovedIff(entries, t1);
  }
}
