// What a second pass of the sanitizer does to a copy the first pass made. It returns the copy
// unchanged except for Errors: a cause is read twice, and an inherited name is redacted late.
module Resanitizing {
  import opened Options
  import opened Sanitizer
  import SensitiveKeys

  // ---- the shape of a copy ------------------------------------------------------------

  ghost predicate DistinctLabels<V>(slots: seq<Slot<V>>) {
    forall i, j :: 0 <= i < j < |slots| ==> slots[i].at != slots[j].at
  }

  /** Property names of an Error are unique, as in any object. */
  ghost predicate WellFormed(h: Heap) {
    forall r :: r in h && h[r].Node? && h[r].kind.ErrorOf? ==> DistinctLabels(h[r].slots)
  }

  function Values(slots: seq<Slot<Tree>>): (values: seq<Tree>)
    ensures |values| == |slots| && forall i :: 0 <= i < |slots| ==> values[i] == slots[i].value
  {
    seq(|slots|, i requires 0 <= i < |slots| => slots[i].value)
  }

  /** The properties of an Error copy: the cause first if there is one, then the name, then the rest. */
  ghost predicate ErrorShape(kind: Kind, slots: seq<Slot<Tree>>) {
    && kind.ErrorOf? && kind.hiddenCause == None && kind.stack != Some("")
    && DistinctLabels(slots)
    && (HasCauseFirst(slots) || HasNameFirst(slots))
  }

  ghost predicate HasCauseFirst(slots: seq<Slot<Tree>>) {
    && |slots| >= 2 && slots[0].at == Field(Cause) && slots[1].at == Field(Name)
    && slots[0].value != TPrim(UNDEFINED)
  }

  ghost predicate HasNameFirst(slots: seq<Slot<Tree>>) {
    && |slots| >= 1 && slots[0].at == Field(Name)
    && forall i :: 0 <= i < |slots| && slots[i].at == Field(Cause) ==> slots[i].value == TPrim(UNDEFINED)
  }

  ghost predicate Shaped(t: Tree) {
    t.TNode? ==>
      && (t.kind.SetOf? ==> AddAll(Values(t.slots)) == t.slots)
      && (t.kind.ErrorOf? ==> ErrorShape(t.kind, t.slots))
      && forall i :: 0 <= i < |t.slots| ==> Shaped(t.slots[i].value)
  }

  lemma {:induction false} AddAllTwice(kids: seq<Tree>)
    ensures AddAll(Values(AddAll(kids))) == AddAll(kids)
    decreases |kids|
  {
    if kids != [] {
      var a := AddAll(kids[..|kids| - 1]);
      AddAllTwice(kids[..|kids| - 1]);
      var b := AddAll(kids);
      if b != a {
        assert Values(b)[..|b| - 1] == Values(a);
      }
    }
  }

  lemma {:induction false} AssignAt(slots: seq<Slot<Tree>>, slot: Slot<Tree>)
    requires DistinctLabels(slots)
    ensures var after := Assign(slots, slot);
            && DistinctLabels(after) && |slots| <= |after| <= |slots| + 1
            && (forall i :: 0 <= i < |slots| ==> after[i] == if slots[i].at == slot.at then slot else slots[i])
            && (|after| > |slots| <==> forall i :: 0 <= i < |slots| ==> slots[i].at != slot.at)
            && (|after| > |slots| ==> after[|slots|] == slot)
    decreases |slots|
  {
    if slots != [] && slots[0].at != slot.at {
      var rest := slots[1..];
      assert forall i :: 0 <= i < |rest| ==> rest[i] == slots[i + 1];
      AssignAt(rest, slot);
      var after := Assign(slots, slot);
      assert forall i :: 1 <= i < |after| ==> after[i] == Assign(rest, slot)[i - 1];
    }
  }

  /** The labels a base starts with stay in front; a slot of the result has a base value or a new one. */
  lemma {:induction false} AssignAllAt(slots: seq<Slot<Tree>>, more: seq<Slot<Tree>>)
    requires DistinctLabels(slots)
    ensures var after := AssignAll(slots, more);
            && DistinctLabels(after) && |slots| <= |after|
            && (forall i :: 0 <= i < |slots| ==> after[i].at == slots[i].at)
    decreases |more|
  {
    if more != [] {
      AssignAllAt(slots, more[..|more| - 1]);
      AssignAt(AssignAll(slots, more[..|more| - 1]), more[|more| - 1]);
    }
  }

  /** `after` is `z` up to `n`, then what is left of the base. */
  ghost predicate Overwritten(base: seq<Slot<Tree>>, z: seq<Slot<Tree>>, n: nat, after: seq<Slot<Tree>>) {
    && n <= |z| && |after| == (if n < |base| then |base| else n)
    && (forall i :: 0 <= i < n ==> after[i] == z[i])
    && (forall i :: n <= i < |base| ==> after[i] == base[i])
  }

  lemma {:induction false} OverwriteNext(base: seq<Slot<Tree>>, z: seq<Slot<Tree>>, n: nat, so: seq<Slot<Tree>>)
    requires DistinctLabels(z) && |base| <= |z| && n < |z| && Overwritten(base, z, n, so)
    requires forall i :: 0 <= i < |base| ==> base[i].at == z[i].at
    ensures Overwritten(base, z, n + 1, Assign(so, z[n]))
  {
    assert forall i :: 0 <= i < |so| ==> so[i].at == z[i].at;
    assert DistinctLabels(so);
    AssignAt(so, z[n]);
    assert forall i :: 0 <= i < |so| ==> (so[i].at == z[n].at <==> i == n);
  }

  /** Assigning properties that start with the base's own, in the base's order, overwrites the base. */
  lemma {:induction false} AssignAllOver(base: seq<Slot<Tree>>, z: seq<Slot<Tree>>, n: nat)
    requires DistinctLabels(z) && |base| <= |z| && n <= |z|
    requires forall i :: 0 <= i < |base| ==> base[i].at == z[i].at
    ensures Overwritten(base, z, n, AssignAll(base, z[..n]))
    decreases n
  {
    if n > 0 {
      AssignAllOver(base, z, n - 1);
      assert z[..n][..n - 1] == z[..n - 1];
      OverwriteNext(base, z, n - 1, AssignAll(base, z[..n - 1]));
    }
  }

  lemma {:induction false} AssignAllReplaces(base: seq<Slot<Tree>>, z: seq<Slot<Tree>>)
    requires DistinctLabels(z) && |base| <= |z|
    requires forall i :: 0 <= i < |base| ==> base[i].at == z[i].at
    ensures AssignAll(base, z) == z
  {
    AssignAllOver(base, z, |z|);
    assert z[..|z|] == z;
  }

  lemma SanIsNeverUndefined(rules: Policy, h: Heap, v: Value, seen: set<Ref>)
    ensures San(rules, h, v, seen).tree == TPrim(UNDEFINED) <==> v == Prim(UNDEFINED)
  {
  }

  lemma {:induction false} FieldOfAt<V>(slots: seq<Slot<V>>, name: Property)
    requires DistinctLabels(slots)
    ensures FieldOf(slots, name).None? <==> forall i :: 0 <= i < |slots| ==> slots[i].at != Field(name)
    ensures forall i :: 0 <= i < |slots| && slots[i].at == Field(name) ==> FieldOf(slots, name) == Some(slots[i].value)
    decreases |slots|
  {
    if slots != [] && slots[|slots| - 1].at != Field(name) {
      var init := slots[..|slots| - 1];
      assert forall i :: 0 <= i < |init| ==> init[i] == slots[i];
      FieldOfAt(init, name);
    }
  }

  ghost predicate GoodKid(rules: Policy, kind: Kind, slot: Slot<Value>, kid: Tree) {
    Shaped(kid) && (kid == TPrim(UNDEFINED) <==> slot.value == Prim(UNDEFINED) && !Hidden(rules, kind, slot.at))
  }

  ghost predicate GoodKids(rules: Policy, kind: Kind, slots: seq<Slot<Value>>, kids: seq<Tree>) {
    |kids| == |slots| && forall i :: 0 <= i < |kids| ==> GoodKid(rules, kind, slots[i], kids[i])
  }

  lemma OwnKidsAreGood(rules: Policy, kind: Kind, slots: seq<Slot<Value>>, kids: seq<Tree>)
    requires GoodKids(rules, kind, Visited(kind, slots), kids)
    ensures GoodKids(rules, kind, slots, kids[|kids| - |slots|..])
  {
  }

  /** Where an Error's copy holds `undefined` as its cause. */
  lemma CauseInCopy(rules: Policy, kind: Kind, slots: seq<Slot<Value>>, kids: seq<Tree>, x: Slot<Tree>)
    requires kind.ErrorOf? && DistinctLabels(slots) && GoodKids(rules, kind, Visited(kind, slots), kids)
    requires x in AssignAll(ErrorBase(kind, slots, kids), Zip(slots, kids[|kids| - |slots|..])) && x.at == Field(Cause)
    requires !rules.sensitive(Cause)
    ensures x.value == TPrim(UNDEFINED) <==> CauseOf(kind, slots).None?
  {
    var base, own := ErrorBase(kind, slots, kids), kids[|kids| - |slots|..];
    OwnKidsAreGood(rules, kind, slots, kids);
    FieldOfAt(slots, Cause);
    AssignAllElements(base, Zip(slots, own), x);
    if x in Zip(slots, own) {
      var k :| 0 <= k < |slots| && x == Zip(slots, own)[k];
      assert FieldOf(slots, Cause) == Some(slots[k].value);
    } else {
      assert x == base[0] && CauseOf(kind, slots).Some?;
      assert Visited(kind, slots)[0] == Slot(Item, CauseOf(kind, slots).value);
    }
  }

  lemma ErrorCopyHasShape(rules: Policy, kind: Kind, slots: seq<Slot<Value>>, kids: seq<Tree>)
    requires WellRedacting(rules) && kind.ErrorOf? && DistinctLabels(slots)
             && GoodKids(rules, kind, Visited(kind, slots), kids)
    ensures ErrorShape(CopyKind(rules, kind), CopyOf(rules, kind, slots, kids).slots)
  {
    var base, own := ErrorBase(kind, slots, kids), kids[|kids| - |slots|..];
    var all := CopyOf(rules, kind, slots, kids).slots;
    AssignAllAt(base, Zip(slots, own));
    forall i | 0 <= i < |all| && all[i].at == Field(Cause)
      ensures all[i].value == TPrim(UNDEFINED) <==> CauseOf(kind, slots).None?
    {
      CauseInCopy(rules, kind, slots, kids, all[i]);
    }
    assert base[0].at == all[0].at;
    if CauseOf(kind, slots).Some? {
      assert base[1].at == all[1].at;
    }
  }

  lemma SetCopyHasShape(kids: seq<Tree>)
    requires forall i :: 0 <= i < |kids| ==> Shaped(kids[i])
    ensures Shaped(TNode(SetOf, AddAll(kids)))
  {
    AddAllTwice(kids);
    forall i | 0 <= i < |AddAll(kids)| ensures Shaped(AddAll(kids)[i].value) {
      AddAllElements(kids, AddAll(kids)[i]);
    }
  }

  lemma ErrorSlotsHaveShape(rules: Policy, kind: Kind, slots: seq<Slot<Value>>, kids: seq<Tree>, x: Slot<Tree>)
    requires kind.ErrorOf? && GoodKids(rules, kind, Visited(kind, slots), kids)
    requires x in AssignAll(ErrorBase(kind, slots, kids), Zip(slots, kids[|kids| - |slots|..]))
    ensures Shaped(x.value)
  {
    OwnKidsAreGood(rules, kind, slots, kids);
    AssignAllElements(ErrorBase(kind, slots, kids), Zip(slots, kids[|kids| - |slots|..]), x);
  }

  lemma CopyHasShape(rules: Policy, kind: Kind, slots: seq<Slot<Value>>, kids: seq<Tree>)
    requires WellRedacting(rules) && (kind.ErrorOf? ==> DistinctLabels(slots))
             && GoodKids(rules, kind, Visited(kind, slots), kids)
    ensures Shaped(CopyOf(rules, kind, slots, kids))
  {
    if kind.SetOf? {
      SetCopyHasShape(kids);
    } else if kind.ErrorOf? {
      var copy := CopyOf(rules, kind, slots, kids);
      ErrorCopyHasShape(rules, kind, slots, kids);
      forall i | 0 <= i < |copy.slots| ensures Shaped(copy.slots[i].value) {
        ErrorSlotsHaveShape(rules, kind, slots, kids, copy.slots[i]);
      }
    }
  }

  lemma {:induction false} SanitizedHasShape(rules: Policy, h: Heap, v: Value, seen: set<Ref>)
    requires WellRedacting(rules) && WellFormed(h)
    ensures Shaped(San(rules, h, v, seen).tree)
    decreases h.Keys - seen, 0
  {
    if Leads(h, v) && v.ref !in seen {
      var kind, slots := h[v.ref].kind, h[v.ref].slots;
      assert v.ref in h.Keys - seen && v.ref !in h.Keys - (seen + {v.ref});
      SanitizedSlotsHaveShape(rules, h, kind, Visited(kind, slots), seen + {v.ref});
      CopyHasShape(rules, kind, slots, SanSlots(rules, h, kind, Visited(kind, slots), seen + {v.ref}).kids);
    }
  }

  lemma {:induction false} SanitizedSlotsHaveShape(
      rules: Policy, h: Heap, kind: Kind, slots: seq<Slot<Value>>, seen: set<Ref>)
    requires WellRedacting(rules) && WellFormed(h)
    ensures GoodKids(rules, kind, slots, SanSlots(rules, h, kind, slots, seen).kids)
    decreases h.Keys - seen, |slots|
  {
    if slots != [] {
      var init, last := slots[..|slots| - 1], slots[|slots| - 1];
      SanitizedSlotsHaveShape(rules, h, kind, init, seen);
      var so := SanSlots(rules, h, kind, init, seen);
      assert h.Keys - so.seen <= h.Keys - seen;
      SanitizedHasShape(rules, h, last.value, so.seen);
      SanIsNeverUndefined(rules, h, last.value, so.seen);
    }
  }

  // ---- sanitizing a copy again --------------------------------------------------------
  // To be sanitized again a copy must lie in the heap as objects: each node at an address, its
  // children after it in order.

  function Size(t: Tree): nat
    decreases t, 1
  {
    match t
    case TDate(_) => 1
    case TNode(_, slots) => 1 + SizeIn(slots)
    case _ => 0
  }

  function SizeIn(slots: seq<Slot<Tree>>): nat
    decreases slots, 0
  {
    if slots == [] then 0
    else
      var last := slots[|slots| - 1];
      assert last.value < last;
      SizeIn(slots[..|slots| - 1]) + Size(last.value)
  }

  function Handle(t: Tree, lo: Ref): Value {
    match t
    case TPrim(code) => Prim(code)
    case TStr(text) => Str(text)
    case _ => Obj(lo)
  }

  function Handles(slots: seq<Slot<Tree>>, lo: Ref): (handles: seq<Slot<Value>>)
    ensures |handles| == |slots|
    ensures forall i :: 0 <= i < |slots| ==> handles[i].at == slots[i].at
  {
    if slots == [] then []
    else
      var init, last := slots[..|slots| - 1], slots[|slots| - 1];
      Handles(init, lo) + [Slot(last.at, Handle(last.value, lo + SizeIn(init)))]
  }

  /** `h` holds the copy `t` at address `lo`. */
  ghost predicate Holds(h: Heap, t: Tree, lo: Ref)
    decreases t, 1
  {
    match t
    case TDate(time) => lo in h && h[lo] == Date(time)
    case TNode(kind, slots) => lo in h && h[lo] == Node(kind, Handles(slots, lo + 1)) && HoldsIn(h, slots, lo + 1)
    case _ => true
  }

  ghost predicate HoldsIn(h: Heap, slots: seq<Slot<Tree>>, lo: Ref)
    decreases slots, 0
  {
    slots == [] ||
    var last := slots[|slots| - 1];
    assert last.value < last;
    HoldsIn(h, slots[..|slots| - 1], lo) && Holds(h, last.value, lo + SizeIn(slots[..|slots| - 1]))
  }

  /** A copy that a second pass returns unchanged: every Error in it has a name the redaction
      keeps and a cause that is not an object with children. */
  ghost predicate Stable(rules: Policy, t: Tree)
    decreases t, 1
  {
    match t
    case TStr(text) => rules.redact(text) == text
    case TNode(kind, slots) => forall i :: 0 <= i < |slots| ==> StableSlot(rules, kind, slots[i])
    case _ => true
  }

  ghost predicate StableSlot(rules: Policy, kind: Kind, slot: Slot<Tree>)
    decreases slot, 0
  {
    Hidden(rules, kind, slot.at) ||
    (Stable(rules, slot.value) && !(kind.ErrorOf? && slot.at == Field(Cause) && slot.value.TNode?))
  }

  ghost predicate Fresh(seen: set<Ref>, lo: Ref, hi: Ref) {
    forall r :: r in seen ==> !(lo <= r < hi)
  }

  ghost predicate Within(after: set<Ref>, before: set<Ref>, lo: Ref, hi: Ref) {
    forall r :: r in after ==> r in before || lo <= r < hi
  }

  lemma {:induction false} AddAllFull(kids: seq<Tree>)
    ensures |AddAll(kids)| <= |kids|
    ensures |AddAll(kids)| == |kids| ==> forall i :: 0 <= i < |kids| ==> AddAll(kids)[i] == Slot(Item, kids[i])
    decreases |kids|
  {
    if kids != [] {
      AddAllFull(kids[..|kids| - 1]);
    }
  }

  /** Whether the second pass returns the kid of slot `i` unchanged. `again` marks an Error whose
      cause, its first property, was already expanded by the reading of `cause`. */
  ghost predicate KidKept(rules: Policy, kind: Kind, slots: seq<Slot<Tree>>, again: bool, i: nat)
    requires i < |slots|
  {
    Hidden(rules, kind, slots[i].at) || (Stable(rules, slots[i].value) && !(again && i == 0))
  }

  ghost predicate ReadyFor(slots: seq<Slot<Tree>>, lo: Ref, seen: set<Ref>, again: bool) {
    if again then |slots| > 0 && slots[0].value.TNode? && lo in seen
        && Fresh(seen, lo + Size(slots[0].value), lo + SizeIn(slots))
    else Fresh(seen, lo, lo + SizeIn(slots))
  }

  lemma FirstFits(slots: seq<Slot<Tree>>)
    requires slots != []
    ensures Size(slots[0].value) <= SizeIn(slots)
  {
  }

  lemma ReadyForInit(slots: seq<Slot<Tree>>, lo: Ref, seen: set<Ref>, again: bool)
    requires slots != [] && ReadyFor(slots, lo, seen, again) && !(again && |slots| == 1)
    ensures var init := slots[..|slots| - 1];
            && ReadyFor(init, lo, seen, again)
            && Fresh(seen, lo + SizeIn(init), lo + SizeIn(slots))
  {
    if again {
      FirstFits(slots[..|slots| - 1]);
    }
  }

  lemma FreshAfter(before: set<Ref>, after: set<Ref>, lo: Ref, mid: Ref, hi: Ref)
    requires Within(after, before, lo, mid) && Fresh(before, mid, hi)
    ensures Fresh(after, mid, hi)
  {
  }

  /** One more slot of the traversal of a copy. */
  lemma NextKid(rules: Policy, h: Heap, kind: Kind, slots: seq<Slot<Tree>>, lo: Ref, seen: set<Ref>)
    requires slots != []
    ensures var init, last := slots[..|slots| - 1], slots[|slots| - 1];
            var so := SanSlots(rules, h, kind, Handles(init, lo), seen);
            var out := San(rules, h, Handle(last.value, lo + SizeIn(init)), so.seen);
            SanSlots(rules, h, kind, Handles(slots, lo), seen) ==
            if Hidden(rules, kind, last.at) then Outs(so.kids + [TStr(rules.hidden)], so.seen)
            else Outs(so.kids + [out.tree], out.seen)
  {
    var handles := Handles(slots, lo);
    assert handles[..|slots| - 1] == Handles(slots[..|slots| - 1], lo);
  }

  ghost predicate KidsKept(rules: Policy, kind: Kind, slots: seq<Slot<Tree>>, again: bool, kids: seq<Tree>) {
    |kids| == |slots| && forall i :: 0 <= i < |slots| ==>
      (kids[i] == slots[i].value <==> KidKept(rules, kind, slots, again, i))
  }

  /** Slots ready to be traversed: held in the heap, shaped, and clean but for an Error's name. */
  ghost predicate Prepared(rules: Policy, h: Heap, kind: Kind, slots: seq<Slot<Tree>>, lo: Ref) {
    HoldsIn(h, slots, lo) && forall i :: 0 <= i < |slots| ==> Shaped(slots[i].value) && CleanSlot(rules, kind, slots[i])
  }

  /** All that a copy must satisfy to be sanitized again. */
  ghost predicate Ready(rules: Policy, h: Heap, t: Tree, lo: Ref, seen: set<Ref>) {
    Holds(h, t, lo) && Shaped(t) && Fresh(seen, lo, lo + Size(t)) && (Clean(rules, t) || t.TStr?)
  }

  ghost predicate Again(rules: Policy, t: Tree, lo: Ref, seen: set<Ref>, out: Out) {
    && Within(out.seen, seen, lo, lo + Size(t)) && (t.TNode? ==> lo in out.seen)
    && (out.tree == t <==> Stable(rules, t))
  }

  ghost predicate SlotsAgain(
      rules: Policy, kind: Kind, slots: seq<Slot<Tree>>, again: bool, lo: Ref, seen: set<Ref>, outs: Outs) {
    Within(outs.seen, seen, lo, lo + SizeIn(slots)) && KidsKept(rules, kind, slots, again, outs.kids)
  }

  lemma PreparedInit(rules: Policy, h: Heap, kind: Kind, slots: seq<Slot<Tree>>, lo: Ref)
    requires slots != [] && Prepared(rules, h, kind, slots, lo)
    ensures Prepared(rules, h, kind, slots[..|slots| - 1], lo)
  {
  }

  lemma PreparedLast(rules: Policy, h: Heap, kind: Kind, slots: seq<Slot<Tree>>, lo: Ref, seen: set<Ref>)
    requires slots != [] && Prepared(rules, h, kind, slots, lo)
             && Fresh(seen, lo + SizeIn(slots[..|slots| - 1]), lo + SizeIn(slots))
    ensures Ready(rules, h, slots[|slots| - 1].value, lo + SizeIn(slots[..|slots| - 1]), seen)
  {
  }

  lemma LastHidden(
      rules: Policy, h: Heap, kind: Kind, slots: seq<Slot<Tree>>, again: bool, lo: Ref, seen: set<Ref>, so: Outs)
    requires slots != [] && Prepared(rules, h, kind, slots, lo) && Hidden(rules, kind, slots[|slots| - 1].at)
    requires SlotsAgain(rules, kind, slots[..|slots| - 1], again, lo, seen, so)
    ensures SlotsAgain(rules, kind, slots, again, lo, seen, Outs(so.kids + [TStr(rules.hidden)], so.seen))
  {
  }

  lemma LastShown(
      rules: Policy, kind: Kind, slots: seq<Slot<Tree>>, again: bool, lo: Ref, seen: set<Ref>, so: Outs, out: Out)
    requires slots != [] && !Hidden(rules, kind, slots[|slots| - 1].at) && !(again && |slots| == 1)
    requires SlotsAgain(rules, kind, slots[..|slots| - 1], again, lo, seen, so)
    requires Again(rules, slots[|slots| - 1].value, lo + SizeIn(slots[..|slots| - 1]), so.seen, out)
    ensures SlotsAgain(rules, kind, slots, again, lo, seen, Outs(so.kids + [out.tree], out.seen))
  {
  }

  lemma {:induction false} ResanitizeSlots(
      rules: Policy, h: Heap, kind: Kind, slots: seq<Slot<Tree>>, lo: Ref, seen: set<Ref>, again: bool)
    requires WellRedacting(rules) && Prepared(rules, h, kind, slots, lo) && ReadyFor(slots, lo, seen, again)
    requires again ==> !Hidden(rules, kind, slots[0].at)
    ensures SlotsAgain(rules, kind, slots, again, lo, seen, SanSlots(rules, h, kind, Handles(slots, lo), seen))
    decreases slots, 2
  {
    if again && |slots| == 1 {
      AgainAlone(rules, h, kind, slots, lo, seen);
    } else if slots != [] {
      ResanitizeLast(rules, h, kind, slots, lo, seen, again);
    }
  }

  lemma {:induction false} ResanitizeLast(
      rules: Policy, h: Heap, kind: Kind, slots: seq<Slot<Tree>>, lo: Ref, seen: set<Ref>, again: bool)
    requires WellRedacting(rules) && Prepared(rules, h, kind, slots, lo) && ReadyFor(slots, lo, seen, again)
    requires slots != [] && (again ==> !Hidden(rules, kind, slots[0].at) && |slots| > 1)
    ensures SlotsAgain(rules, kind, slots, again, lo, seen, SanSlots(rules, h, kind, Handles(slots, lo), seen))
    decreases slots, 1
  {
    var init, last := slots[..|slots| - 1], slots[|slots| - 1];
    NextKid(rules, h, kind, slots, lo, seen);
    ReadyForInit(slots, lo, seen, again);
    PreparedInit(rules, h, kind, slots, lo);
    ResanitizeSlots(rules, h, kind, init, lo, seen, again);
    var so := SanSlots(rules, h, kind, Handles(init, lo), seen);
    if Hidden(rules, kind, last.at) {
      LastHidden(rules, h, kind, slots, again, lo, seen, so);
    } else {
      ResanitizeShown(rules, h, kind, slots, lo, seen, again, so);
    }
  }

  lemma {:induction false} ResanitizeShown(
      rules: Policy, h: Heap, kind: Kind, slots: seq<Slot<Tree>>, lo: Ref, seen: set<Ref>, again: bool, so: Outs)
    requires WellRedacting(rules) && slots != [] && Prepared(rules, h, kind, slots, lo)
    requires Fresh(seen, lo + SizeIn(slots[..|slots| - 1]), lo + SizeIn(slots))
    requires !Hidden(rules, kind, slots[|slots| - 1].at) && !(again && |slots| == 1)
    requires SlotsAgain(rules, kind, slots[..|slots| - 1], again, lo, seen, so)
    ensures var out := San(rules, h, Handle(slots[|slots| - 1].value, lo + SizeIn(slots[..|slots| - 1])), so.seen);
            SlotsAgain(rules, kind, slots, again, lo, seen, Outs(so.kids + [out.tree], out.seen))
    decreases slots, 0
  {
    var last, mid := slots[|slots| - 1], lo + SizeIn(slots[..|slots| - 1]);
    assert last.value < last;
    FreshAfter(seen, so.seen, lo, mid, lo + SizeIn(slots));
    PreparedLast(rules, h, kind, slots, lo, so.seen);
    Resanitize(rules, h, last.value, mid, so.seen);
    LastShown(rules, kind, slots, again, lo, seen, so, San(rules, h, Handle(last.value, mid), so.seen));
  }

  /** The cause alone, read for the second time. */
  lemma {:induction false} AgainAlone(
      rules: Policy, h: Heap, kind: Kind, slots: seq<Slot<Tree>>, lo: Ref, seen: set<Ref>)
    requires |slots| == 1 && ReadyFor(slots, lo, seen, true) && !Hidden(rules, kind, slots[0].at)
    ensures var outs := SanSlots(rules, h, kind, Handles(slots, lo), seen);
            SlotsAgain(rules, kind, slots, true, lo, seen, outs)
  {
  }

  /** A copy of kids is the original exactly when every kid is the original kid. */
  lemma {:induction false} SameCopy(
      rules: Policy, kind: Kind, slots: seq<Slot<Tree>>, handles: seq<Slot<Value>>, kids: seq<Tree>)
    requires !kind.ErrorOf? && |kids| == |handles| == |slots| && Shaped(TNode(kind, slots))
    requires forall i :: 0 <= i < |slots| ==> handles[i].at == slots[i].at
    ensures CopyOf(rules, kind, handles, kids) == TNode(kind, slots) <==>
            forall i :: 0 <= i < |slots| ==> kids[i] == slots[i].value
  {
    AddAllFull(kids);
    AddAllFull(Values(slots));
    if forall i :: 0 <= i < |slots| ==> kids[i] == slots[i].value {
      assert kids == Values(slots);
      assert !kind.SetOf? ==> Zip(handles, kids) == slots;
    }
    if !kind.SetOf? && CopyOf(rules, kind, handles, kids) == TNode(kind, slots) {
      forall i | 0 <= i < |slots| ensures kids[i] == slots[i].value {
        assert Zip(handles, kids)[i] == slots[i];
      }
    }
  }

  lemma {:induction false} Resanitize(rules: Policy, h: Heap, t: Tree, lo: Ref, seen: set<Ref>)
    requires WellRedacting(rules) && Ready(rules, h, t, lo, seen)
    ensures Again(rules, t, lo, seen, San(rules, h, Handle(t, lo), seen))
    decreases t, 3
  {
    if t.TNode? {
      if t.kind.ErrorOf? {
        ResanitizeError(rules, h, t, lo, seen);
      } else {
        ResanitizePlain(rules, h, t, lo, seen);
      }
    }
  }

  lemma StablePlain(rules: Policy, t: Tree)
    requires t.TNode? && !t.kind.ErrorOf?
    ensures Stable(rules, t) <==> forall i :: 0 <= i < |t.slots| ==> KidKept(rules, t.kind, t.slots, false, i)
  {
    assert forall i :: 0 <= i < |t.slots| ==>
             (StableSlot(rules, t.kind, t.slots[i]) <==> KidKept(rules, t.kind, t.slots, false, i));
  }

  lemma {:induction false} ResanitizePlain(rules: Policy, h: Heap, t: Tree, lo: Ref, seen: set<Ref>)
    requires WellRedacting(rules) && Ready(rules, h, t, lo, seen) && t.TNode? && !t.kind.ErrorOf?
    ensures Again(rules, t, lo, seen, San(rules, h, Obj(lo), seen))
    decreases t, 0
  {
    var kind, slots := t.kind, t.slots;
    PreparedNode(rules, h, t, lo, seen);
    ResanitizeSlots(rules, h, kind, slots, lo + 1, seen + {lo}, false);
    var outs := SanSlots(rules, h, kind, Handles(slots, lo + 1), seen + {lo});
    SameCopy(rules, kind, slots, Handles(slots, lo + 1), outs.kids);
    assert San(rules, h, Obj(lo), seen) == Out(CopyOf(rules, kind, Handles(slots, lo + 1), outs.kids), outs.seen);
    StablePlain(rules, t);
  }

  // ---- the Error case: its cause is read twice ----------------------------------------

  lemma {:induction false} FieldOfHandles(slots: seq<Slot<Tree>>, lo: Ref, name: Property)
    ensures FieldOf(Handles(slots, lo), name).None? <==> FieldOf(slots, name).None?
    ensures FieldOf(slots, name) == Some(TPrim(UNDEFINED)) <==>
            FieldOf(Handles(slots, lo), name) == Some(Prim(UNDEFINED))
    decreases |slots|
  {
    if slots != [] {
      var init := slots[..|slots| - 1];
      FieldOfHandles(init, lo, name);
      assert Handles(slots, lo)[..|slots| - 1] == Handles(init, lo);
    }
  }

  lemma {:induction false} FirstHandle(slots: seq<Slot<Tree>>, lo: Ref)
    requires slots != []
    ensures Handles(slots, lo)[0] == Slot(slots[0].at, Handle(slots[0].value, lo))
    decreases |slots|
  {
    if |slots| > 1 {
      var init := slots[..|slots| - 1];
      FirstHandle(init, lo);
    } else {
      assert slots[..0] == [] && SizeIn(slots[..0]) == 0;
    }
  }

  lemma {:induction false} FirstIsHeld(h: Heap, slots: seq<Slot<Tree>>, lo: Ref)
    requires slots != [] && HoldsIn(h, slots, lo)
    ensures Holds(h, slots[0].value, lo)
    decreases |slots|
  {
    if |slots| > 1 {
      FirstIsHeld(h, slots[..|slots| - 1], lo);
    } else {
      assert slots[..0] == [] && SizeIn(slots[..0]) == 0;
    }
  }

  lemma CauseOfHandles(kind: Kind, slots: seq<Slot<Tree>>, lo: Ref)
    requires ErrorShape(kind, slots)
    ensures CauseOf(kind, Handles(slots, lo)) == if HasCauseFirst(slots) then Some(Handle(slots[0].value, lo)) else None
  {
    var handles := Handles(slots, lo);
    assert DistinctLabels(handles);
    FieldOfAt(handles, Cause);
    FieldOfAt(slots, Cause);
    FieldOfHandles(slots, lo, Cause);
    FirstHandle(slots, lo);
    if HasCauseFirst(slots) {
      assert handles[0].at == Field(Cause);
    }
  }

  lemma BaseShape(kind: Kind, slots: seq<Slot<Value>>, kids: seq<Tree>)
    requires kind.ErrorOf? && |kids| == |Visited(kind, slots)|
    ensures var base := ErrorBase(kind, slots, kids);
            if CauseOf(kind, slots).Some? then |base| == 2 && base[0].at == Field(Cause) && base[1].at == Field(Name)
            else |base| == 1 && base[0].at == Field(Name)
  {
  }

  lemma KindAgain(rules: Policy, kind: Kind, slots: seq<Slot<Tree>>)
    requires ErrorShape(kind, slots) && Clean(rules, TNode(kind, slots))
    ensures CopyKind(rules, kind) == kind
  {
  }

  lemma {:induction false} SameLabelsReplace(slots: seq<Slot<Tree>>, base: seq<Slot<Tree>>, z: seq<Slot<Tree>>)
    requires DistinctLabels(slots) && |base| <= |slots| == |z|
    requires forall i :: 0 <= i < |base| ==> base[i].at == slots[i].at
    requires forall i :: 0 <= i < |z| ==> z[i].at == slots[i].at
    ensures AssignAll(base, z) == z
  {
    AssignAllReplaces(base, z);
  }

  lemma BaseFits(kind: Kind, slots: seq<Slot<Tree>>, base: seq<Slot<Tree>>)
    requires ErrorShape(kind, slots)
    requires if HasCauseFirst(slots) then |base| == 2 && base[0].at == Field(Cause) && base[1].at == Field(Name)
             else |base| == 1 && base[0].at == Field(Name)
    ensures |base| <= |slots| && forall i :: 0 <= i < |base| ==> base[i].at == slots[i].at
  {
  }

  lemma HandleLabels(slots: seq<Slot<Tree>>, lo: Ref, own: seq<Tree>)
    requires |own| == |slots|
    ensures |Zip(Handles(slots, lo), own)| == |slots|
    ensures forall i :: 0 <= i < |slots| ==> Zip(Handles(slots, lo), own)[i].at == slots[i].at
  {
  }

  lemma OverwritesBase(kind: Kind, slots: seq<Slot<Tree>>, handles: seq<Slot<Value>>, lo: Ref, kids: seq<Tree>)
    requires ErrorShape(kind, slots) && handles == Handles(slots, lo) && |kids| == |Visited(kind, handles)|
    ensures var z := Zip(handles, kids[|kids| - |handles|..]);
            AssignAll(ErrorBase(kind, handles, kids), z) == z
  {
    var base, own := ErrorBase(kind, handles, kids), kids[|kids| - |handles|..];
    CauseOfHandles(kind, slots, lo);
    BaseShape(kind, handles, kids);
    BaseFits(kind, slots, base);
    HandleLabels(slots, lo, own);
    SameLabelsReplace(slots, base, Zip(handles, own));
  }

  /** The properties read the second time overwrite all that an Error copy starts with. */
  lemma {:induction false} ErrorCopyAgain(rules: Policy, t: Tree, handles: seq<Slot<Value>>, lo: Ref, kids: seq<Tree>)
    requires t.TNode? && t.kind.ErrorOf? && ErrorShape(t.kind, t.slots) && Clean(rules, t)
    requires handles == Handles(t.slots, lo) && |kids| == |Visited(t.kind, handles)|
    ensures CopyOf(rules, t.kind, handles, kids) == TNode(t.kind, Zip(handles, kids[|kids| - |handles|..]))
  {
    OverwritesBase(t.kind, t.slots, handles, lo, kids);
    KindAgain(rules, t.kind, t.slots);
  }

  lemma SameZip(t: Tree, handles: seq<Slot<Value>>, kids: seq<Tree>)
    requires t.TNode? && |kids| == |handles| == |t.slots|
    requires forall i :: 0 <= i < |handles| ==> handles[i].at == t.slots[i].at
    ensures TNode(t.kind, Zip(handles, kids)) == t <==> forall i :: 0 <= i < |kids| ==> kids[i] == t.slots[i].value
  {
  }

  lemma StableErrorSlot(rules: Policy, kind: Kind, slots: seq<Slot<Tree>>, i: nat)
    requires ErrorShape(kind, slots) && i < |slots|
    ensures StableSlot(rules, kind, slots[i]) <==>
            KidKept(rules, kind, slots, HasCauseFirst(slots) && slots[0].value.TNode?, i)
  {
  }

  /** An Error is stable exactly when its kids are kept and its cause is not expanded twice. */
  lemma {:induction false} StableError(rules: Policy, t: Tree)
    requires t.TNode? && t.kind.ErrorOf? && ErrorShape(t.kind, t.slots)
    ensures var again := HasCauseFirst(t.slots) && t.slots[0].value.TNode?;
            Stable(rules, t) <==> forall i :: 0 <= i < |t.slots| ==> KidKept(rules, t.kind, t.slots, again, i)
  {
    assert Stable(rules, t) <==> forall i :: 0 <= i < |t.slots| ==> StableSlot(rules, t.kind, t.slots[i]);
    forall i | 0 <= i < |t.slots|
      ensures StableSlot(rules, t.kind, t.slots[i]) <==>
              KidKept(rules, t.kind, t.slots, HasCauseFirst(t.slots) && t.slots[0].value.TNode?, i)
    {
      StableErrorSlot(rules, t.kind, t.slots, i);
    }
  }

  lemma {:induction false} PreparedNode(rules: Policy, h: Heap, t: Tree, lo: Ref, seen: set<Ref>)
    requires t.TNode? && Ready(rules, h, t, lo, seen)
    ensures Prepared(rules, h, t.kind, t.slots, lo + 1) && ReadyFor(t.slots, lo + 1, seen + {lo}, false)
    ensures lo in h && h[lo] == Node(t.kind, Handles(t.slots, lo + 1)) && lo !in seen
    ensures Size(t) == 1 + SizeIn(t.slots)
  {
  }

  lemma {:induction false} PreparedFirst(
      rules: Policy, h: Heap, kind: Kind, slots: seq<Slot<Tree>>, lo: Ref, seen: set<Ref>)
    requires kind.ErrorOf? && HasCauseFirst(slots) && Prepared(rules, h, kind, slots, lo)
             && ReadyFor(slots, lo, seen, false)
    ensures Ready(rules, h, slots[0].value, lo, seen) && Size(slots[0].value) <= SizeIn(slots)
  {
    FirstIsHeld(h, slots, lo);
    FirstFits(slots);
    assert CleanSlot(rules, kind, slots[0]);
  }

  lemma ReadyAfterCause(rules: Policy, slots: seq<Slot<Tree>>, lo: Ref, s1: set<Ref>, one: Out)
    requires slots != [] && ReadyFor(slots, lo, s1, false) && Again(rules, slots[0].value, lo, s1, one)
    requires slots[0].value.TNode? || one.seen == s1
    ensures ReadyFor(slots, lo, one.seen, slots[0].value.TNode?)
  {
  }

  /** What the traversal of an Error's children gives: the properties are the last of them. */
  ghost predicate PropertiesAgain(rules: Policy, t: Tree, lo: Ref, seen: set<Ref>, outs: Outs)
    requires t.TNode?
  {
    && |outs.kids| >= |t.slots|
    && SlotsAgain(rules, t.kind, t.slots, HasCauseFirst(t.slots) && t.slots[0].value.TNode?, lo, seen,
                  Outs(outs.kids[|outs.kids| - |t.slots|..], outs.seen))
  }

  /** The children visited in an Error copy: its cause, again with the properties, if it has one. */
  lemma VisitedAgain(kind: Kind, slots: seq<Slot<Tree>>, lo: Ref)
    requires ErrorShape(kind, slots)
    ensures Visited(kind, Handles(slots, lo)) == HandlesTwice(slots, lo)
  {
    CauseOfHandles(kind, slots, lo);
  }

  ghost function HandlesTwice(slots: seq<Slot<Tree>>, lo: Ref): seq<Slot<Value>> {
    if HasCauseFirst(slots) then [Slot(Item, Handle(slots[0].value, lo))] + Handles(slots, lo) else Handles(slots, lo)
  }

  lemma {:induction false} ResanitizeProperties(rules: Policy, h: Heap, t: Tree, lo: Ref, s1: set<Ref>)
    requires WellRedacting(rules) && t.TNode? && t.kind.ErrorOf?
    requires Prepared(rules, h, t.kind, t.slots, lo) && ReadyFor(t.slots, lo, s1, false)
    ensures PropertiesAgain(rules, t, lo, s1, SanSlots(rules, h, t.kind, HandlesTwice(t.slots, lo), s1))
    decreases t, 1
  {
    if HasCauseFirst(t.slots) {
      ResanitizeCaused(rules, h, t, lo, s1);
    } else {
      ResanitizeUncaused(rules, h, t, lo, s1);
    }
  }

  lemma {:induction false} ResanitizeUncaused(rules: Policy, h: Heap, t: Tree, lo: Ref, s1: set<Ref>)
    requires WellRedacting(rules) && t.TNode? && t.kind.ErrorOf? && !HasCauseFirst(t.slots)
    requires Prepared(rules, h, t.kind, t.slots, lo) && ReadyFor(t.slots, lo, s1, false)
    ensures PropertiesAgain(rules, t, lo, s1, SanSlots(rules, h, t.kind, Handles(t.slots, lo), s1))
    decreases t, 0
  {
    ResanitizeSlots(rules, h, t.kind, t.slots, lo, s1, false);
    var outs := SanSlots(rules, h, t.kind, Handles(t.slots, lo), s1);
    assert outs.kids[|outs.kids| - |t.slots|..] == outs.kids;
  }

  lemma {:induction false} ResanitizeCaused(rules: Policy, h: Heap, t: Tree, lo: Ref, s1: set<Ref>)
    requires WellRedacting(rules) && t.TNode? && t.kind.ErrorOf? && HasCauseFirst(t.slots)
    requires Prepared(rules, h, t.kind, t.slots, lo) && ReadyFor(t.slots, lo, s1, false)
    ensures PropertiesAgain(rules, t, lo, s1,
              SanSlots(rules, h, t.kind, [Slot(Item, Handle(t.slots[0].value, lo))] + Handles(t.slots, lo), s1))
    decreases t, 0
  {
    var kind, slots, cause := t.kind, t.slots, t.slots[0].value;
    var handles := Handles(slots, lo);
    assert cause < slots[0];
    PreparedFirst(rules, h, kind, slots, lo, s1);
    Resanitize(rules, h, cause, lo, s1);
    var one := San(rules, h, Handle(cause, lo), s1);
    SanSlotsFirst(rules, h, kind, Slot(Item, Handle(cause, lo)), handles, s1);
    ReadyAfterCause(rules, slots, lo, s1, one);
    ResanitizeSlots(rules, h, kind, slots, lo, one.seen, cause.TNode?);
    var rest := SanSlots(rules, h, kind, handles, one.seen);
    WithinOnce(s1, one.seen, rest.seen, lo, lo + Size(cause), lo + SizeIn(slots));
    assert ([one.tree] + rest.kids)[1..] == rest.kids;
  }

  lemma WithinOnce(a: set<Ref>, b: set<Ref>, c: set<Ref>, lo: Ref, mid: Ref, hi: Ref)
    requires Within(b, a, lo, mid) && Within(c, b, lo, hi) && mid <= hi
    ensures Within(c, a, lo, hi)
  {
  }

  lemma {:induction false} ErrorOut(rules: Policy, h: Heap, t: Tree, lo: Ref, seen: set<Ref>)
    requires t.TNode? && lo in h && h[lo] == Node(t.kind, Handles(t.slots, lo + 1)) && lo !in seen
    ensures var handles := Handles(t.slots, lo + 1);
            var outs := SanSlots(rules, h, t.kind, Visited(t.kind, handles), seen + {lo});
            San(rules, h, Obj(lo), seen) == Out(CopyOf(rules, t.kind, handles, outs.kids), outs.seen)
  {
  }

  lemma {:induction false} SameErrorIff(
      rules: Policy, t: Tree, handles: seq<Slot<Value>>, lo: Ref, kids: seq<Tree>, own: seq<Tree>)
    requires t.TNode? && t.kind.ErrorOf? && ErrorShape(t.kind, t.slots) && Clean(rules, t)
    requires handles == Handles(t.slots, lo) && |kids| == |Visited(t.kind, handles)|
             && own == kids[|kids| - |handles|..]
    ensures CopyOf(rules, t.kind, handles, kids) == t <==> forall i :: 0 <= i < |own| ==> own[i] == t.slots[i].value
  {
    ErrorCopyAgain(rules, t, handles, lo, kids);
    SameZip(t, handles, own);
  }

  lemma {:induction false} KeptIffStable(rules: Policy, t: Tree, own: seq<Tree>)
    requires t.TNode? && t.kind.ErrorOf? && ErrorShape(t.kind, t.slots)
    requires KidsKept(rules, t.kind, t.slots, HasCauseFirst(t.slots) && t.slots[0].value.TNode?, own)
    ensures (forall i :: 0 <= i < |own| ==> own[i] == t.slots[i].value) <==> Stable(rules, t)
  {
    StableError(rules, t);
  }

  lemma {:induction false} SameErrorIffStable(
      rules: Policy, t: Tree, handles: seq<Slot<Value>>, lo: Ref, kids: seq<Tree>, own: seq<Tree>)
    requires t.TNode? && t.kind.ErrorOf? && ErrorShape(t.kind, t.slots) && Clean(rules, t)
    requires handles == Handles(t.slots, lo) && |kids| == |Visited(t.kind, handles)|
             && own == kids[|kids| - |handles|..]
    requires KidsKept(rules, t.kind, t.slots, HasCauseFirst(t.slots) && t.slots[0].value.TNode?, own)
    ensures CopyOf(rules, t.kind, handles, kids) == t <==> Stable(rules, t)
  {
    SameErrorIff(rules, t, handles, lo, kids, own);
    KeptIffStable(rules, t, own);
  }

  lemma {:induction false} ErrorFinished(
      rules: Policy, t: Tree, handles: seq<Slot<Value>>, lo: Ref, seen: set<Ref>, outs: Outs, out: Out)
    requires t.TNode? && t.kind.ErrorOf? && ErrorShape(t.kind, t.slots) && Clean(rules, t)
    requires handles == Handles(t.slots, lo + 1) && |outs.kids| == |Visited(t.kind, handles)|
    requires PropertiesAgain(rules, t, lo + 1, seen + {lo}, outs) && lo in outs.seen
    requires out == Out(CopyOf(rules, t.kind, handles, outs.kids), outs.seen)
    ensures Again(rules, t, lo, seen, out)
  {
    SameErrorIffStable(rules, t, handles, lo + 1, outs.kids, outs.kids[|outs.kids| - |handles|..]);
    NodeAgain(rules, t, lo, seen, out);
  }

  lemma {:induction false} NodeAgain(rules: Policy, t: Tree, lo: Ref, seen: set<Ref>, out: Out)
    requires t.TNode? && Within(out.seen, seen + {lo}, lo + 1, lo + 1 + SizeIn(t.slots)) && lo in out.seen
    requires out.tree == t <==> Stable(rules, t)
    ensures Again(rules, t, lo, seen, out)
  {
  }

  lemma {:induction false} ResanitizeError(rules: Policy, h: Heap, t: Tree, lo: Ref, seen: set<Ref>)
    requires WellRedacting(rules) && Ready(rules, h, t, lo, seen) && t.TNode? && t.kind.ErrorOf?
    ensures Again(rules, t, lo, seen, San(rules, h, Obj(lo), seen))
    decreases t, 2
  {
    PreparedNode(rules, h, t, lo, seen);
    ResanitizeProperties(rules, h, t, lo + 1, seen + {lo});
    VisitedAgain(t.kind, t.slots, lo + 1);
    var handles := Handles(t.slots, lo + 1);
    var outs := SanSlots(rules, h, t.kind, Visited(t.kind, handles), seen + {lo});
    ErrorOut(rules, h, t, lo, seen);
    ErrorFinished(rules, t, handles, lo, seen, outs, San(rules, h, Obj(lo), seen));
  }

  // ---- a heap that holds a copy -------------------------------------------------------

  function Cells(t: Tree, lo: Ref): Heap
    decreases t, 1
  {
    match t
    case TDate(time) => map[lo := Date(time)]
    case TNode(kind, slots) => CellsIn(slots, lo + 1)[lo := Node(kind, Handles(slots, lo + 1))]
    case _ => map[]
  }

  function CellsIn(slots: seq<Slot<Tree>>, lo: Ref): Heap
    decreases slots, 0
  {
    if slots == [] then map[]
    else
      var init, last := slots[..|slots| - 1], slots[|slots| - 1];
      assert last.value < last;
      CellsIn(init, lo) + Cells(last.value, lo + SizeIn(init))
  }

  ghost predicate Agrees(h: Heap, g: Heap, lo: Ref, hi: Ref) {
    forall r :: lo <= r < hi && r in h ==> r in g && g[r] == h[r]
  }

  lemma {:induction false} HoldsToo(h: Heap, g: Heap, t: Tree, lo: Ref)
    requires Holds(h, t, lo) && Agrees(h, g, lo, lo + Size(t))
    ensures Holds(g, t, lo)
    decreases t, 1
  {
    if t.TNode? {
      HoldsInToo(h, g, t.slots, lo + 1);
    }
  }

  lemma {:induction false} HoldsInToo(h: Heap, g: Heap, slots: seq<Slot<Tree>>, lo: Ref)
    requires HoldsIn(h, slots, lo) && Agrees(h, g, lo, lo + SizeIn(slots))
    ensures HoldsIn(g, slots, lo)
    decreases slots, 0
  {
    if slots != [] {
      var init, last := slots[..|slots| - 1], slots[|slots| - 1];
      assert last.value < last;
      HoldsInToo(h, g, init, lo);
      HoldsToo(h, g, last.value, lo + SizeIn(init));
    }
  }

  lemma {:induction false} CellsHold(t: Tree, lo: Ref)
    ensures Holds(Cells(t, lo), t, lo)
    ensures forall r :: r in Cells(t, lo) ==> lo <= r < lo + Size(t)
    decreases t, 1
  {
    if t.TNode? {
      CellsInHold(t.slots, lo + 1);
      HoldsInToo(CellsIn(t.slots, lo + 1), Cells(t, lo), t.slots, lo + 1);
    }
  }

  lemma {:induction false} CellsInHold(slots: seq<Slot<Tree>>, lo: Ref)
    ensures HoldsIn(CellsIn(slots, lo), slots, lo)
    ensures forall r :: r in CellsIn(slots, lo) ==> lo <= r < lo + SizeIn(slots)
    decreases slots, 0
  {
    if slots != [] {
      var init, last := slots[..|slots| - 1], slots[|slots| - 1];
      var mid := lo + SizeIn(init);
      assert last.value < last;
      CellsInHold(init, lo);
      CellsHold(last.value, mid);
      HoldsInToo(CellsIn(init, lo), CellsIn(slots, lo), init, lo);
      HoldsToo(Cells(last.value, mid), CellsIn(slots, lo), last.value, mid);
    }
  }

  // ---- the theorem --------------------------------------------------------------------

  function Twice(rules: Policy, h: Heap, v: Value): Tree {
    var t := San(rules, h, v, {}).tree;
    San(rules, Cells(t, 0), Handle(t, 0), {}).tree
  }

  /** Sanitizing a sanitized value changes nothing, exactly when no Error copy in it has a cause
      with children or a name that redaction changes. */
  lemma SecondPass(rules: Policy, h: Heap, v: Value)
    requires WellRedacting(rules) && WellFormed(h)
    ensures Twice(rules, h, v) == San(rules, h, v, {}).tree <==> Stable(rules, San(rules, h, v, {}).tree)
  {
    var t := San(rules, h, v, {}).tree;
    SanitizedIsClean(rules, h, v, {});
    SanitizedHasShape(rules, h, v, {});
    CellsHold(t, 0);
    Resanitize(rules, Cells(t, 0), t, 0, {});
  }

  // ---- the policy the code runs with --------------------------------------------------

  predicate IsSensitive(name: Property) {
    SensitiveKeys.IsSensitiveKey(TextOf(name))
  }

  /** The policy the traversal runs with: the keys are the concrete ones, only the text redaction is
      left open. */
  function Standard(redact: string -> string): Policy {
    Policy(redact, IsSensitive, REDACTED, CIRCULAR)
  }

  lemma ErrorNamesAreKept()
    ensures !IsSensitive(Cause) && !IsSensitive(Name)
  {
    SensitiveKeys.ErrorKeysAreKept();
  }

  lemma TheKeysAreWellBehaved(redact: string -> string)
    requires forall s :: redact(redact(s)) == redact(s)
    requires forall s :: redact(s) == "" ==> s == ""
    requires redact(REDACTED) == REDACTED && redact(CIRCULAR) == CIRCULAR
    ensures WellRedacting(Standard(redact))
  {
    ErrorNamesAreKept();
  }
}
