// When sanitizing twice is sanitizing once, read off the object graph.
module Idempotence {
  import opened Options
  import opened Sanitizer
  import opened Resanitizing
  import opened Fidelity
  import opened CopiedNodes

  // ---- what makes a copy unstable -----------------------------------------------------

  /** An Error copy that a second pass leaves alone, as far as its own slots go. */
  ghost predicate Settles(rules: Policy, kind: Kind, slots: seq<Slot<Tree>>) {
    kind.ErrorOf? ==> forall i :: 0 <= i < |slots| ==> SettledSlot(rules, slots[i])
  }

  ghost predicate SettledSlot(rules: Policy, slot: Slot<Tree>) {
    && (slot.at == Field(Cause) ==> !slot.value.TNode?)
    && (slot.at == Field(Name) && slot.value.TStr? ==> rules.redact(slot.value.text) == slot.value.text)
  }

  ghost function Settling(rules: Policy): NodeTest {
    (kind, slots) => Settles(rules, kind, slots)
  }

  lemma {:induction false} SlotStableIff(rules: Policy, kind: Kind, slot: Slot<Tree>)
    requires WellRedacting(rules) && CleanSlot(rules, kind, slot)
    requires Clean(rules, slot.value) ==> (Stable(rules, slot.value) <==> AllNodes(Settling(rules), slot.value))
    ensures StableSlot(rules, kind, slot) <==>
            (kind.ErrorOf? ==> SettledSlot(rules, slot)) && AllNodes(Settling(rules), slot.value)
  {
  }

  lemma SettlesIff(rules: Policy, t: Tree)
    requires t.TNode?
    ensures AllNodes(Settling(rules), t) <==>
            forall i :: 0 <= i < |t.slots| ==>
              (t.kind.ErrorOf? ==> SettledSlot(rules, t.slots[i])) && AllNodes(Settling(rules), t.slots[i].value)
  {
    assert Settling(rules)(t.kind, t.slots) <==> Settles(rules, t.kind, t.slots);
  }

  /** For a clean copy, being stable is a property of its objects one by one. */
  lemma {:induction false} StableIsNodeWise(rules: Policy, t: Tree)
    requires WellRedacting(rules) && Clean(rules, t)
    ensures Stable(rules, t) <==> AllNodes(Settling(rules), t)
    decreases t
  {
    if t.TNode? {
      forall i | 0 <= i < |t.slots|
        ensures StableSlot(rules, t.kind, t.slots[i]) <==>
                (t.kind.ErrorOf? ==> SettledSlot(rules, t.slots[i])) && AllNodes(Settling(rules), t.slots[i].value)
      {
        if Clean(rules, t.slots[i].value) { StableIsNodeWise(rules, t.slots[i].value); }
        assert CleanSlot(rules, t.kind, t.slots[i]);
        SlotStableIff(rules, t.kind, t.slots[i]);
      }
      SettlesIff(rules, t);
      assert Stable(rules, t) <==> forall i :: 0 <= i < |t.slots| ==> StableSlot(rules, t.kind, t.slots[i]);
    }
  }

  // ---- what makes it so in the object graph -------------------------------------------

  /** The cause of an Error, given to its constructor, is an object not met yet. */
  ghost predicate BringsCause(h: Heap, kind: Kind, slots: seq<Slot<Value>>, met: set<Ref>)
    requires kind.ErrorOf?
  {
    && FieldOf(slots, Cause).None? && kind.hiddenCause.Some?
    && Leads(h, kind.hiddenCause.value) && kind.hiddenCause.value.ref !in met
  }

  /** Its name is inherited, and redaction changes it. */
  ghost predicate BringsName(rules: Policy, kind: Kind, slots: seq<Slot<Value>>)
    requires kind.ErrorOf?
  {
    FieldOf(slots, Name).None? && rules.redact(kind.protoName) != kind.protoName
  }

  ghost predicate Unsettles(rules: Policy, h: Heap, r: Ref, met: set<Ref>) {
    && Leads(h, Obj(r)) && h[r].kind.ErrorOf?
    && (BringsCause(h, h[r].kind, h[r].slots, met) || BringsName(rules, h[r].kind, h[r].slots))
  }

  ghost function Unsettling(rules: Policy, h: Heap): (Ref, set<Ref>) -> bool {
    (r: Ref, met: set<Ref>) => Unsettles(rules, h, r, met)
  }

  lemma {:induction false} KidIsNoNode(
      rules: Policy, h: Heap, kind: Kind, all: seq<Slot<Value>>, seen: set<Ref>, i: nat)
    requires i < |all| && !Leads(h, all[i].value)
    ensures !SanSlots(rules, h, kind, all, seen).kids[i].TNode?
  {
    KidAt(rules, h, kind, all, seen, i);
  }

  lemma OwnCauseIs(h: Heap, kind: Kind, slots: seq<Slot<Value>>, i: nat)
    requires kind.ErrorOf? && DistinctLabels(slots) && i < |slots| && slots[i].at == Field(Cause)
    requires Leads(h, slots[i].value)
    ensures CauseOf(kind, slots) == Some(slots[i].value) && |Visited(kind, slots)| == |slots| + 1
  {
    FieldOfAt(slots, Cause);
  }

  /** A cause among the properties is copied a second time, and so never as an object. */
  lemma {:induction false} OwnCauseIsCut(
      rules: Policy, h: Heap, kind: Kind, slots: seq<Slot<Value>>, met: set<Ref>, i: nat)
    requires kind.ErrorOf? && DistinctLabels(slots) && i < |slots| && slots[i].at == Field(Cause)
    requires !rules.sensitive(Cause)
    ensures var kids := SanSlots(rules, h, kind, Visited(kind, slots), met).kids;
            !kids[|kids| - |slots| + i].TNode?
  {
    if Leads(h, slots[i].value) {
      OwnCauseIs(h, kind, slots, i);
      CauseIsReadFirst(rules, h, kind, slots, met, i);
    } else {
      var all := Visited(kind, slots);
      OwnSlots(kind, slots);
      assert all[|all| - |slots| + i] == slots[i];
      KidIsNoNode(rules, h, kind, all, met, |all| - |slots| + i);
    }
  }

  lemma {:induction false} FirstKid(rules: Policy, h: Heap, kind: Kind, slots: seq<Slot<Value>>, met: set<Ref>)
    requires kind.ErrorOf? && CauseOf(kind, slots).Some?
    ensures SanSlots(rules, h, kind, Visited(kind, slots), met).kids[0] ==
            San(rules, h, CauseOf(kind, slots).value, met).tree
  {
    KidAt(rules, h, kind, Visited(kind, slots), met, 0);
    assert Visited(kind, slots)[..0] == [];
  }

  lemma CauseKidIsNode(rules: Policy, h: Heap, v: Value, met: set<Ref>)
    ensures San(rules, h, v, met).tree.TNode? <==> Leads(h, v) && v.ref !in met
  {
  }

  /** An Error that brings neither leaves every slot settled. */
  lemma {:induction false} PropertyIsSettled(
      rules: Policy, h: Heap, kind: Kind, slots: seq<Slot<Value>>, met: set<Ref>, kids: seq<Tree>, i: nat)
    requires WellRedacting(rules) && kind.ErrorOf? && DistinctLabels(slots) && i < |slots|
    requires kids == SanSlots(rules, h, kind, Visited(kind, slots), met).kids
    ensures SettledSlot(rules, Slot(slots[i].at, kids[|kids| - |slots| + i]))
  {
    if slots[i].at == Field(Cause) { OwnCauseIsCut(rules, h, kind, slots, met, i); }
    SanitizedSlotsAreClean(rules, h, kind, Visited(kind, slots), met);
    assert Clean(rules, kids[|kids| - |slots| + i]);
  }

  lemma {:induction false} LeftOverIsSettled(
      rules: Policy, h: Heap, kind: Kind, slots: seq<Slot<Value>>, met: set<Ref>, kids: seq<Tree>, x: Slot<Tree>)
    requires kind.ErrorOf? && !BringsCause(h, kind, slots, met) && !BringsName(rules, kind, slots)
    requires kids == SanSlots(rules, h, kind, Visited(kind, slots), met).kids
    requires || (CauseOf(kind, slots).Some? && FieldOf(slots, Cause).None? && x == Slot(Field(Cause), kids[0]))
             || (FieldOf(slots, Name).None? && x == Slot(Field(Name), TStr(NameOf(kind, slots))))
    ensures SettledSlot(rules, x)
  {
    if CauseOf(kind, slots).Some? {
      FirstKid(rules, h, kind, slots, met);
      CauseKidIsNode(rules, h, CauseOf(kind, slots).value, met);
    }
  }

  lemma {:induction false} NothingBrought(
      rules: Policy, h: Heap, kind: Kind, slots: seq<Slot<Value>>, met: set<Ref>, kids: seq<Tree>, all: seq<Slot<Tree>>,
      x: Slot<Tree>)
    requires WellRedacting(rules) && kind.ErrorOf? && DistinctLabels(slots)
    requires !BringsCause(h, kind, slots, met) && !BringsName(rules, kind, slots)
    requires kids == SanSlots(rules, h, kind, Visited(kind, slots), met).kids
    requires all == AssignAll(ErrorBase(kind, slots, kids), Zip(slots, kids[|kids| - |slots|..])) && x in all
    ensures SettledSlot(rules, x)
  {
    var own := kids[|kids| - |slots|..];
    if x in Zip(slots, own) {
      var i :| 0 <= i < |slots| && Zip(slots, own)[i] == x;
      PropertyIsSettled(rules, h, kind, slots, met, kids, i);
    } else {
      LeftOver(kind, slots, kids, all, x);
      LeftOverIsSettled(rules, h, kind, slots, met, kids, x);
    }
  }

  lemma {:induction false} SomethingBrought(
      rules: Policy, h: Heap, kind: Kind, slots: seq<Slot<Value>>, met: set<Ref>, kids: seq<Tree>, all: seq<Slot<Tree>>)
    requires kind.ErrorOf? && DistinctLabels(slots)
             && (BringsCause(h, kind, slots, met) || BringsName(rules, kind, slots))
    requires kids == SanSlots(rules, h, kind, Visited(kind, slots), met).kids
    requires all == AssignAll(ErrorBase(kind, slots, kids), Zip(slots, kids[|kids| - |slots|..]))
    ensures exists i :: 0 <= i < |all| && !SettledSlot(rules, all[i])
  {
    ErrorCopyHas(kind, slots, kids, all);
    if BringsCause(h, kind, slots, met) {
      FirstKid(rules, h, kind, slots, met);
      CauseKidIsNode(rules, h, CauseOf(kind, slots).value, met);
      var i :| 0 <= i < |all| && all[i] == Slot(Field(Cause), kids[0]);
    } else {
      var i :| 0 <= i < |all| && all[i] == Slot(Field(Name), TStr(kind.protoName));
    }
  }

  lemma UnsettlesIff(rules: Policy, h: Heap, r: Ref, met: set<Ref>)
    requires WellRedacting(rules) && Leads(h, Obj(r)) && (h[r].kind.ErrorOf? ==> DistinctLabels(h[r].slots))
    ensures var copy := CopyAt(rules, h, r, met);
            Unsettles(rules, h, r, met) <==> !Settles(rules, copy.kind, copy.slots)
  {
    var kind, slots, copy := h[r].kind, h[r].slots, CopyAt(rules, h, r, met);
    if kind.ErrorOf? {
      var kids := SanSlots(rules, h, kind, Visited(kind, slots), met).kids;
      if BringsCause(h, kind, slots, met) || BringsName(rules, kind, slots) {
        SomethingBrought(rules, h, kind, slots, met, kids, copy.slots);
      } else {
        forall i | 0 <= i < |copy.slots| ensures SettledSlot(rules, copy.slots[i]) {
          NothingBrought(rules, h, kind, slots, met, kids, copy.slots, copy.slots[i]);
        }
      }
    }
  }

  lemma UnsettlingForetells(rules: Policy, h: Heap)
    requires WellRedacting(rules) && WellFormed(h)
    ensures Foretells(rules, h, Settling(rules), Unsettling(rules, h))
  {
    forall r, met | Leads(h, Obj(r)) && r in met
      ensures ForetoldAt(rules, h, Settling(rules), Unsettling(rules, h), r, met)
    {
      UnsettlesIff(rules, h, r, met);
    }
  }

  // ---- the theorem --------------------------------------------------------------------

  /** A sanitized value is stable if and only if the traversal copies into it no Error that brings an
      object as its cause or a name that redaction changes. */
  lemma StableIff(rules: Policy, h: Heap, v: Value, seen: set<Ref>)
    requires WellRedacting(rules) && WellFormed(h)
    ensures Stable(rules, San(rules, h, v, seen).tree) <==> !SomeCopied(rules, h, Unsettling(rules, h), v, seen)
  {
    SanitizedIsClean(rules, h, v, seen);
    StableIsNodeWise(rules, San(rules, h, v, seen).tree);
    UnsettlingForetells(rules, h);
    AllNodesIff(rules, h, Settling(rules), Unsettling(rules, h), v, seen);
  }

  /** Sanitizing twice is sanitizing once if and only if the same holds. */
  lemma IdempotentIff(rules: Policy, h: Heap, v: Value)
    requires WellRedacting(rules) && WellFormed(h)
    ensures Twice(rules, h, v) == San(rules, h, v, {}).tree <==> !SomeCopied(rules, h, Unsettling(rules, h), v, {})
  {
    StableIff(rules, h, v, {});
    SecondPass(rules, h, v);
  }

  lemma {:induction false} NoneCopied(rules: Policy, h: Heap, bad: (Ref, set<Ref>) -> bool, v: Value, seen: set<Ref>)
    requires forall r, met :: !bad(r, met)
    ensures !SomeCopied(rules, h, bad, v, seen)
    decreases h.Keys - seen, 0
  {
    if Leads(h, v) && v.ref !in seen {
      var kind, slots, met := h[v.ref].kind, h[v.ref].slots, seen + {v.ref};
      assert v.ref in h.Keys - seen && v.ref !in h.Keys - met;
      NoneCopiedIn(rules, h, bad, kind, Kept(kind, slots), Start(rules, h, kind, slots, met));
    }
  }

  lemma {:induction false} NoneCopiedIn(
      rules: Policy, h: Heap, bad: (Ref, set<Ref>) -> bool, kind: Kind, slots: seq<Slot<Value>>, seen: set<Ref>)
    requires forall r, met :: !bad(r, met)
    ensures !SomeCopiedIn(rules, h, bad, kind, slots, seen)
    decreases h.Keys - seen, |slots|
  {
    if slots != [] {
      var init, last := slots[..|slots| - 1], slots[|slots| - 1];
      SlotsSeenIsAfter(rules, h, kind, init, seen);
      assert h.Keys - AfterSlots(rules, h, kind, init, seen) <= h.Keys - seen;
      NoneCopiedIn(rules, h, bad, kind, init, seen);
      NoneCopied(rules, h, bad, last.value, AfterSlots(rules, h, kind, init, seen));
    }
  }

  /** An Error that no traversal can make unsettling: any object among its causes is a property, and
      redaction keeps the name if it is inherited. */
  ghost predicate Quiet(rules: Policy, h: Heap, kind: Kind, slots: seq<Slot<Value>>) {
    kind.ErrorOf? ==>
      && DistinctLabels(slots)
      && (FieldOf(slots, Cause).None? && kind.hiddenCause.Some? ==> !Leads(h, kind.hiddenCause.value))
      && !BringsName(rules, kind, slots)
  }

  /** A graph whose Errors are all quiet, in particular one without Errors, is sanitized once and
      for all, from whatever value the traversal starts. */
  lemma {:induction false} IdempotentIfQuiet(rules: Policy, h: Heap, v: Value)
    requires WellRedacting(rules)
    requires forall r :: r in h && h[r].Node? ==> Quiet(rules, h, h[r].kind, h[r].slots)
    ensures Twice(rules, h, v) == San(rules, h, v, {}).tree
  {
    forall r: Ref, met: set<Ref> ensures !Unsettling(rules, h)(r, met) {
    }
    NoneCopied(rules, h, Unsettling(rules, h), v, {});
    IdempotentIff(rules, h, v);
  }

  // ---- Errors that a second pass changes ----------------------------------------------

  /** Whatever its properties, an Error given an object as its cause, `new Error(message, { cause })`,
      has it in its copy when it was not met before, and so the copy is not stable. */
  lemma {:induction false} CauseIsUnstable(rules: Policy, h: Heap, r: Ref, seen: set<Ref>)
    requires WellRedacting(rules) && WellFormed(h) && Leads(h, Obj(r)) && r !in seen
    requires h[r].kind.ErrorOf? && BringsCause(h, h[r].kind, h[r].slots, seen + {r})
    ensures !Stable(rules, San(rules, h, Obj(r), seen).tree)
  {
    StableIff(rules, h, Obj(r), seen);
    assert Unsettling(rules, h)(r, seen + {r});
  }

  /** The inherited name of an Error is kept as it is; when redaction would change it, the copy is
      not stable, whatever else the Error holds. */
  lemma {:induction false} NameIsUnstable(rules: Policy, h: Heap, r: Ref, seen: set<Ref>)
    requires WellRedacting(rules) && WellFormed(h) && Leads(h, Obj(r)) && r !in seen
    requires h[r].kind.ErrorOf? && BringsName(rules, h[r].kind, h[r].slots)
    ensures !Stable(rules, San(rules, h, Obj(r), seen).tree)
  {
    StableIff(rules, h, Obj(r), seen);
    assert Unsettling(rules, h)(r, seen + {r});
  }

  /** The smallest Error whose cause the second pass loses: the cause is an empty record. */
  lemma SmallestLostCause(rules: Policy, message: string)
    requires WellRedacting(rules)
    ensures var h: Heap := map[0 := Node(ErrorOf(0, message, None, "Error", Some(Obj(1))), []), 1 := Node(Record, [])];
            Twice(rules, h, Obj(0)) != San(rules, h, Obj(0), {}).tree
  {
    var h: Heap := map[0 := Node(ErrorOf(0, message, None, "Error", Some(Obj(1))), []), 1 := Node(Record, [])];
    assert {} + {0} == {0};
    CauseIsUnstable(rules, h, 0, {});
    SecondPass(rules, h, Obj(0));
  }

  /** The smallest Error whose name the second pass redacts. */
  lemma {:induction false} SmallestLateName(rules: Policy, name: string)
    requires WellRedacting(rules) && rules.redact(name) != name
    ensures var h: Heap := map[0 := Node(ErrorOf(0, "", None, name, None), [])];
            Twice(rules, h, Obj(0)) != San(rules, h, Obj(0), {}).tree
  {
    NameIsUnstable(rules, map[0 := Node(ErrorOf(0, "", None, name, None), [])], 0, {});
    SecondPass(rules, map[0 := Node(ErrorOf(0, "", None, name, None), [])], Obj(0));
  }
}
