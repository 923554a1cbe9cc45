// Objects the traversal meets and leaves no copy of: those it meets first through the cause of an
// Error that is also a property, which is copied a second time over the first.
module Losses {
  import opened Options
  import opened Sanitizer
  import opened Resanitizing
  import opened Fidelity
  import opened CopiedNodes

  // ---- counting copies exactly --------------------------------------------------------

  lemma {:induction false} CopiesInSet(kids: seq<Tree>)
    ensures CopiesIn(AddAll(kids)) == CopiesOf(kids)
    decreases |kids|
  {
    if kids != [] {
      var init, last := kids[..|kids| - 1], kids[|kids| - 1];
      CopiesInSet(init);
      CopiesInConcat(AddAll(init), [Slot(Item, last)]);
      CopiesInOne(Slot(Item, last));
    }
  }

  /** The copies under a label, in the first slot that has it. */
  function CopiesAt(slots: seq<Slot<Tree>>, at: Label): nat {
    if slots == [] then 0
    else if slots[0].at == at then Copies(slots[0].value)
    else CopiesAt(slots[1..], at)
  }

  lemma {:induction false} AssignExactly(slots: seq<Slot<Tree>>, slot: Slot<Tree>)
    ensures CopiesIn(Assign(slots, slot)) + CopiesAt(slots, slot.at) == CopiesIn(slots) + Copies(slot.value)
    decreases |slots|
  {
    CopiesInOne(slot);
    if slots != [] {
      var first, rest := [slots[0]], slots[1..];
      assert slots == first + rest;
      CopiesInConcat(first, rest);
      CopiesInOne(slots[0]);
      CopiesInConcat([slot], rest);
      AssignExactly(rest, slot);
      CopiesInConcat(first, Assign(rest, slot));
    }
  }

  lemma {:induction false} CopiesAtAfter(slots: seq<Slot<Tree>>, slot: Slot<Tree>, at: Label)
    requires slot.at != at
    ensures CopiesAt(Assign(slots, slot), at) == CopiesAt(slots, at)
    decreases |slots|
  {
    if slots != [] {
      if slots[0].at != slot.at {
        CopiesAtAfter(slots[1..], slot, at);
        assert Assign(slots, slot)[1..] == Assign(slots[1..], slot);
      } else {
        assert Assign(slots, slot)[1..] == slots[1..];
      }
    }
  }

  lemma {:induction false} CopiesAtAfterAll(slots: seq<Slot<Tree>>, more: seq<Slot<Tree>>, at: Label)
    requires forall i :: 0 <= i < |more| ==> more[i].at != at
    ensures CopiesAt(AssignAll(slots, more), at) == CopiesAt(slots, at)
    decreases |more|
  {
    if more != [] {
      CopiesAtAfterAll(slots, more[..|more| - 1], at);
      CopiesAtAfter(AssignAll(slots, more[..|more| - 1]), more[|more| - 1], at);
    }
  }

  /** The copies in `base` that properties under the same labels replace. */
  function Replaced(base: seq<Slot<Tree>>, more: seq<Slot<Tree>>): nat {
    if more == [] then 0 else Replaced(base, more[..|more| - 1]) + CopiesAt(base, more[|more| - 1].at)
  }

  lemma {:induction false} AssignAllExactly(base: seq<Slot<Tree>>, more: seq<Slot<Tree>>)
    requires DistinctLabels(more)
    ensures CopiesIn(AssignAll(base, more)) + Replaced(base, more) == CopiesIn(base) + CopiesIn(more)
    decreases |more|
  {
    if more != [] {
      var init, last := more[..|more| - 1], more[|more| - 1];
      AssignAllExactly(base, init);
      CopiesAtAfterAll(base, init, last.at);
      AssignExactly(AssignAll(base, init), last);
    }
  }

  /** Of what an Error's copy holds first only the cause can be replaced with copies in it. */
  ghost predicate OnlyCause(base: seq<Slot<Tree>>, copies: nat) {
    forall at :: CopiesAt(base, at) == if at == Field(Cause) then copies else 0
  }

  lemma BaseHoldsOnlyCause(kind: Kind, slots: seq<Slot<Value>>, kids: seq<Tree>)
    requires kind.ErrorOf? && |kids| == |Visited(kind, slots)|
    ensures OnlyCause(ErrorBase(kind, slots, kids), if CauseOf(kind, slots).Some? then Copies(kids[0]) else 0)
  {
    var base := ErrorBase(kind, slots, kids);
    var name := [Slot(Field(Name), TStr(NameOf(kind, slots)))];
    forall at ensures CopiesAt(name, at) == 0 {
      assert name[1..] == [];
    }
    if CauseOf(kind, slots).Some? {
      assert base[1..] == name;
    } else {
      assert base == name;
    }
  }

  lemma {:induction false} ReplacedIs(
      base: seq<Slot<Tree>>, copies: nat, slots: seq<Slot<Value>>, more: seq<Slot<Tree>>)
    requires OnlyCause(base, copies) && DistinctLabels(slots)
    requires |more| == |slots| && forall i :: 0 <= i < |slots| ==> more[i].at == slots[i].at
    ensures Replaced(base, more) == if FieldOf(slots, Cause).Some? then copies else 0
    decreases |more|
  {
    if more != [] {
      var init := slots[..|slots| - 1];
      ReplacedIs(base, copies, init, more[..|more| - 1]);
      if slots[|slots| - 1].at == Field(Cause) {
        FieldOfAt(init, Cause);
      }
    }
  }

  lemma CopiesInError(kind: Kind, slots: seq<Slot<Value>>, kids: seq<Tree>)
    requires kind.ErrorOf? && |kids| == |Visited(kind, slots)| && DistinctLabels(slots)
    ensures CopiesIn(AssignAll(ErrorBase(kind, slots, kids), Zip(slots, kids[|kids| - |slots|..]))) ==
            CopiesOf(KeptKids(kind, slots, kids))
  {
    var base, own := ErrorBase(kind, slots, kids), kids[|kids| - |slots|..];
    ZipLabels(slots, own, Cause);
    AssignAllExactly(base, Zip(slots, own));
    CopiesInBase(kind, slots, kids);
    CopiesInZip(slots, own);
    BaseHoldsOnlyCause(kind, slots, kids);
    ReplacedIs(base, if CauseOf(kind, slots).Some? then Copies(kids[0]) else 0, slots, Zip(slots, own));
    if OwnCause(kind, slots) {
      CopiesOfFirst(kids);
    }
  }

  lemma CopiesInCopyExactly(rules: Policy, kind: Kind, slots: seq<Slot<Value>>, kids: seq<Tree>)
    requires |kids| == |Visited(kind, slots)| && (kind.ErrorOf? ==> DistinctLabels(slots))
    ensures Copies(CopyOf(rules, kind, slots, kids)) == 1 + CopiesOf(KeptKids(kind, slots, kids))
  {
    match kind
    case SetOf => CopiesInSet(kids);
    case ErrorOf(_, _, _, _, _) => CopiesInError(kind, slots, kids);
    case _ => CopiesInZip(slots, kids);
  }

  // ---- the objects lost ---------------------------------------------------------------

  /** How many objects the traversal from `v` meets first where their copy is overwritten. */
  ghost function Lost(rules: Policy, h: Heap, v: Value, seen: set<Ref>): nat
    decreases h.Keys - seen, 0
  {
    if !Leads(h, v) || v.ref in seen then 0
    else
      var kind, slots, met := h[v.ref].kind, h[v.ref].slots, seen + {v.ref};
      var start := Start(rules, h, kind, slots, met);
      assert v.ref in h.Keys - seen && v.ref !in h.Keys - met;
      assert h.Keys - start <= h.Keys - met;
      |start - met| + LostIn(rules, h, kind, Kept(kind, slots), start)
  }

  ghost function LostIn(rules: Policy, h: Heap, kind: Kind, slots: seq<Slot<Value>>, seen: set<Ref>): nat
    decreases h.Keys - seen, |slots|
  {
    if slots == [] then 0
    else
      var init, last := slots[..|slots| - 1], slots[|slots| - 1];
      var so := AfterSlots(rules, h, kind, init, seen);
      SlotsSeenIsAfter(rules, h, kind, init, seen);
      assert h.Keys - so <= h.Keys - seen;
      LostIn(rules, h, kind, init, seen) + if Hidden(rules, kind, last.at) then 0 else Lost(rules, h, last.value, so)
  }

  lemma Apart(a: set<Ref>, b: set<Ref>)
    requires a <= b
    ensures |b - a| == |b| - |a|
  {
    assert b == a + (b - a);
  }

  lemma {:induction false} NodeConserves(rules: Policy, h: Heap, r: Ref, seen: set<Ref>)
    requires Leads(h, Obj(r)) && r !in seen && (h[r].kind.ErrorOf? ==> DistinctLabels(h[r].slots))
    ensures var kind, slots, met := h[r].kind, h[r].slots, seen + {r};
            var kept := SanSlots(rules, h, kind, Kept(kind, slots), Start(rules, h, kind, slots, met));
            var out := San(rules, h, Obj(r), seen);
            Copies(out.tree) == 1 + CopiesOf(kept.kids) && out.seen == kept.seen
  {
    var kind, slots, met := h[r].kind, h[r].slots, seen + {r};
    KeptKidsAre(rules, h, kind, slots, met);
    SanIsCopy(rules, h, r, seen);
    CopiesInCopyExactly(rules, kind, slots, SanSlots(rules, h, kind, Visited(kind, slots), met).kids);
  }

  /** Every object met for the first time is copied once or lost once. */
  lemma {:induction false} CopiesAndLosses(rules: Policy, h: Heap, v: Value, seen: set<Ref>)
    requires WellFormed(h)
    ensures Copies(San(rules, h, v, seen).tree) + Lost(rules, h, v, seen) == |San(rules, h, v, seen).seen| - |seen|
    decreases h.Keys - seen, 0
  {
    if Leads(h, v) && v.ref !in seen {
      var kind, slots, met := h[v.ref].kind, h[v.ref].slots, seen + {v.ref};
      assert v.ref in h.Keys - seen && v.ref !in h.Keys - met;
      var start := Start(rules, h, kind, slots, met);
      NodeConserves(rules, h, v.ref, seen);
      CopiesAndLossesIn(rules, h, kind, Kept(kind, slots), start);
      Apart(met, start);
    }
  }

  lemma CopiesOfLast(kids: seq<Tree>, init: seq<Tree>, last: Tree)
    requires kids == init + [last]
    ensures CopiesOf(kids) == CopiesOf(init) + Copies(last)
  {
    assert kids[..|kids| - 1] == init;
  }

  /** The last child of the traversal, hidden or visited. */
  lemma LastChild(rules: Policy, h: Heap, kind: Kind, slots: seq<Slot<Value>>, seen: set<Ref>)
    requires slots != []
    ensures var init, last := slots[..|slots| - 1], slots[|slots| - 1];
            var so, outs := SanSlots(rules, h, kind, init, seen), SanSlots(rules, h, kind, slots, seen);
            var out := San(rules, h, last.value, so.seen);
            && so.seen == AfterSlots(rules, h, kind, init, seen)
            && outs == (if Hidden(rules, kind, last.at) then Outs(so.kids + [TStr(rules.hidden)], so.seen)
                        else Outs(so.kids + [out.tree], out.seen))
            && LostIn(rules, h, kind, slots, seen) == LostIn(rules, h, kind, init, seen) +
               (if Hidden(rules, kind, last.at) then 0 else Lost(rules, h, last.value, so.seen))
  {
    SlotsSeenIsAfter(rules, h, kind, slots[..|slots| - 1], seen);
  }

  lemma {:induction false} CopiesAndLossesIn(
      rules: Policy, h: Heap, kind: Kind, slots: seq<Slot<Value>>, seen: set<Ref>)
    requires WellFormed(h)
    ensures CopiesOf(SanSlots(rules, h, kind, slots, seen).kids) + LostIn(rules, h, kind, slots, seen) ==
            |SanSlots(rules, h, kind, slots, seen).seen| - |seen|
    decreases h.Keys - seen, |slots|
  {
    if slots != [] {
      var init, last := slots[..|slots| - 1], slots[|slots| - 1];
      var so := SanSlots(rules, h, kind, init, seen);
      assert h.Keys - so.seen <= h.Keys - seen;
      CopiesAndLossesIn(rules, h, kind, init, seen);
      CopiesAndLosses(rules, h, last.value, so.seen);
      LastChild(rules, h, kind, slots, seen);
      var t := if Hidden(rules, kind, last.at) then TStr(rules.hidden) else San(rules, h, last.value, so.seen).tree;
      CopiesOfLast(SanSlots(rules, h, kind, slots, seen).kids, so.kids, t);
    }
  }

  // ---- when nothing is lost -----------------------------------------------------------

  /** An Error among whose properties is its cause, an object not met yet. */
  ghost predicate Overwrites(h: Heap, r: Ref, met: set<Ref>) {
    && Leads(h, Obj(r)) && OwnCause(h[r].kind, h[r].slots)
    && Leads(h, CauseOf(h[r].kind, h[r].slots).value) && CauseOf(h[r].kind, h[r].slots).value.ref !in met
  }

  ghost function Overwriting(h: Heap): (Ref, set<Ref>) -> bool {
    (r: Ref, met: set<Ref>) => Overwrites(h, r, met)
  }

  lemma StartIff(rules: Policy, h: Heap, r: Ref, met: set<Ref>)
    requires Leads(h, Obj(r))
    ensures |Start(rules, h, h[r].kind, h[r].slots, met) - met| == 0 <==> !Overwrites(h, r, met)
  {
    var start := Start(rules, h, h[r].kind, h[r].slots, met);
    if OwnCause(h[r].kind, h[r].slots) {
      var cause := CauseOf(h[r].kind, h[r].slots).value;
      SeenIsAfter(rules, h, cause, met);
      SanCloses(rules, h, cause, met);
      if Overwrites(h, r, met) {
        assert cause.ref in start - met;
      } else {
        assert start == met;
      }
    }
    assert |start - met| == 0 <==> start - met == {};
  }

  lemma {:induction false} NothingLostIff(rules: Policy, h: Heap, v: Value, seen: set<Ref>)
    ensures Lost(rules, h, v, seen) == 0 <==> !SomeCopied(rules, h, Overwriting(h), v, seen)
    decreases h.Keys - seen, 0
  {
    if Leads(h, v) && v.ref !in seen {
      var kind, slots, met := h[v.ref].kind, h[v.ref].slots, seen + {v.ref};
      assert v.ref in h.Keys - seen && v.ref !in h.Keys - met;
      StartIff(rules, h, v.ref, met);
      NothingLostInIff(rules, h, kind, Kept(kind, slots), Start(rules, h, kind, slots, met));
    }
  }

  lemma {:induction false} NothingLostInIff(rules: Policy, h: Heap, kind: Kind, slots: seq<Slot<Value>>, seen: set<Ref>)
    ensures LostIn(rules, h, kind, slots, seen) == 0 <==> !SomeCopiedIn(rules, h, Overwriting(h), kind, slots, seen)
    decreases h.Keys - seen, |slots|
  {
    if slots != [] {
      var init, last := slots[..|slots| - 1], slots[|slots| - 1];
      SlotsSeenIsAfter(rules, h, kind, init, seen);
      assert h.Keys - AfterSlots(rules, h, kind, init, seen) <= h.Keys - seen;
      NothingLostInIff(rules, h, kind, init, seen);
      NothingLostIff(rules, h, last.value, AfterSlots(rules, h, kind, init, seen));
    }
  }

  /** Every object met is copied, and so exactly once, if and only if no Error copied meets an object
      first through a cause that is one of its properties. */
  lemma AllAreCopiedIff(rules: Policy, h: Heap, v: Value, seen: set<Ref>)
    requires WellFormed(h)
    ensures var out := San(rules, h, v, seen);
            Copies(out.tree) == |out.seen| - |seen| <==> !SomeCopied(rules, h, Overwriting(h), v, seen)
  {
    CopiesAndLosses(rules, h, v, seen);
    NothingLostIff(rules, h, v, seen);
  }

  /** Such an Error's copy holds the marker under `cause`, and its cause is copied nowhere. */
  lemma {:induction false} OwnCauseIsLost(rules: Policy, h: Heap, r: Ref, seen: set<Ref>)
    requires WellFormed(h) && !rules.sensitive(Cause) && r !in seen && Overwrites(h, r, seen + {r})
    ensures var out := San(rules, h, Obj(r), seen);
            && out.tree.TNode? && Slot(Field(Cause), TStr(rules.cut)) in out.tree.slots
            && Copies(out.tree) < |out.seen| - |seen|
  {
    var kind, slots, met := h[r].kind, h[r].slots, seen + {r};
    var kids := SanSlots(rules, h, kind, Visited(kind, slots), met).kids;
    FieldOfAt(slots, Cause);
    var i :| 0 <= i < |slots| && slots[i].at == Field(Cause);
    CauseIsReadFirst(rules, h, kind, slots, met, i);
    SanIsCopy(rules, h, r, seen);
    ErrorCopyHas(kind, slots, kids, CopyAt(rules, h, r, met).slots);
    assert Zip(slots, kids[|kids| - |slots|..])[i] == Slot(Field(Cause), TStr(rules.cut));
    AllAreCopiedIff(rules, h, Obj(r), seen);
    assert Overwriting(h)(r, met);
    CopiesAtMostOnce(rules, h, Obj(r), seen);
  }

  /** The smallest one: an Error whose property `cause` is an empty record, which is met and lost. */
  lemma {:induction false} SmallestOverwrittenCause(rules: Policy, message: string)
    requires !rules.sensitive(Cause)
    ensures var h: Heap := map[0 := Node(ErrorOf(0, message, None, "Error", None), [Slot(Field(Cause), Obj(1))]),
                               1 := Node(Record, [])];
            1 in San(rules, h, Obj(0), {}).seen && Copies(San(rules, h, Obj(0), {}).tree) == 1
  {
    var kind, slots := ErrorOf(0, message, None, "Error", None), [Slot(Field(Cause), Obj(1))];
    var h: Heap := map[0 := Node(kind, slots), 1 := Node(Record, [])];
    assert slots[0].at == Field(Cause);
    OwnCauseIsLost(rules, h, 0, {});
    SanCloses(rules, h, Obj(0), {});
    assert Visited(kind, slots)[0].value == Obj(1) && Shows(rules, h, 0, 1);
    var seen := San(rules, h, Obj(0), {}).seen;
    assert seen - {} == seen && {} + {0, 1} == {0, 1};
    SanStaysInside(rules, h, Obj(0), {}, {0, 1});
    assert seen == {0, 1};
  }
}
