// When nothing at all leaks: not a text value, not the name of a field or of an Error, not a Map's key.
// The sanitizer redacts values and keeps labels, and a Map's keys hide nothing.
module Spotless {
  import opened Options
  import opened Sanitizer
  import opened Resanitizing
  import opened Fidelity
  import opened CopiedNodes
  import opened Idempotence

  /** A Map key that sanitizing would not leave as it is, a text that redaction changes or an object, of
      which it would make a copy; or one that would hide its value in a record. */
  predicate LeakyKey(rules: Policy, key: Value) {
    key.Obj? || (key.Str? && (rules.redact(key.text) != key.text || rules.sensitive(Other(key.text))))
  }

  /** A label that shows in the copy what a text value would not. The words `cause` and `name`, which the
      code itself writes, do not count. */
  predicate Leaks(rules: Policy, kind: Kind, at: Label) {
    match at
    case MapKey(key) => kind.MapOf? && LeakyKey(rules, key)
    case Field(Other(text)) => !kind.SetOf? && rules.redact(text) != text
    case _ => false
  }

  /** Every text in the copy is redacted, wherever it stands, and every sensitive field is hidden. */
  ghost predicate Spotless(rules: Policy, t: Tree) {
    match t
    case TStr(text) => rules.redact(text) == text
    case TNode(kind, slots) =>
      && (kind.ErrorOf? ==> rules.redact(kind.message) == kind.message)
      && (kind.ErrorOf? && kind.stack.Some? ==> rules.redact(kind.stack.value) == kind.stack.value)
      && forall i :: 0 <= i < |slots| ==>
           && !Leaks(rules, kind, slots[i].at)
           && (Hidden(rules, kind, slots[i].at) ==> slots[i].value == TStr(rules.hidden))
           && Spotless(rules, slots[i].value)
    case _ => true
  }

  // ---- one object at a time -----------------------------------------------------------

  ghost predicate SpotlessSlot(rules: Policy, kind: Kind, slot: Slot<Tree>) {
    !Leaks(rules, kind, slot.at) && (kind.ErrorOf? ==> NameIsRedacted(rules, slot))
  }

  ghost predicate NameIsRedacted(rules: Policy, slot: Slot<Tree>) {
    slot.at == Field(Name) && slot.value.TStr? ==> rules.redact(slot.value.text) == slot.value.text
  }

  ghost predicate SpotlessNode(rules: Policy, kind: Kind, slots: seq<Slot<Tree>>) {
    forall i :: 0 <= i < |slots| ==> SpotlessSlot(rules, kind, slots[i])
  }

  ghost function Spots(rules: Policy): NodeTest {
    (kind, slots) => SpotlessNode(rules, kind, slots)
  }

  lemma SpotsIff(rules: Policy, t: Tree)
    requires t.TNode?
    ensures AllNodes(Spots(rules), t) <==>
            forall i :: 0 <= i < |t.slots| ==>
              SpotlessSlot(rules, t.kind, t.slots[i]) && AllNodes(Spots(rules), t.slots[i].value)
  {
    assert Spots(rules)(t.kind, t.slots) <==> SpotlessNode(rules, t.kind, t.slots);
  }

  /** For a clean copy it is a matter of labels and of the names of Errors, object by object. */
  lemma {:induction false} SpotlessIsNodeWise(rules: Policy, t: Tree)
    requires WellRedacting(rules) && Clean(rules, t)
    ensures Spotless(rules, t) <==> AllNodes(Spots(rules), t)
    decreases t
  {
    if t.TNode? {
      forall i | 0 <= i < |t.slots|
        ensures !Leaks(rules, t.kind, t.slots[i].at) && Spotless(rules, t.slots[i].value) <==>
                SpotlessSlot(rules, t.kind, t.slots[i]) && AllNodes(Spots(rules), t.slots[i].value)
      {
        assert CleanSlot(rules, t.kind, t.slots[i]);
        if Clean(rules, t.slots[i].value) { SpotlessIsNodeWise(rules, t.slots[i].value); }
      }
      SpotsIff(rules, t);
      assert forall i :: 0 <= i < |t.slots| ==> CleanSlot(rules, t.kind, t.slots[i]);
    }
  }

  // ---- read off the object graph ------------------------------------------------------

  ghost predicate LabelLeaks<V>(rules: Policy, kind: Kind, slots: seq<Slot<V>>) {
    exists i :: 0 <= i < |slots| && Leaks(rules, kind, slots[i].at)
  }

  /** An object whose copy leaks: through a label, or through a name an Error inherits. */
  ghost predicate Leaky(rules: Policy, h: Heap, r: Ref) {
    && Leads(h, Obj(r))
    && (LabelLeaks(rules, h[r].kind, h[r].slots) || (h[r].kind.ErrorOf? && BringsName(rules, h[r].kind, h[r].slots)))
  }

  ghost function Leaking(rules: Policy, h: Heap): (Ref, set<Ref>) -> bool {
    (r: Ref, met: set<Ref>) => Leaky(rules, h, r)
  }

  lemma SetsDoNotLeak(rules: Policy, kids: seq<Tree>)
    ensures SpotlessNode(rules, SetOf, AddAll(kids))
  {
    forall i | 0 <= i < |AddAll(kids)| ensures SpotlessSlot(rules, SetOf, AddAll(kids)[i]) {
      AddAllElements(kids, AddAll(kids)[i]);
    }
  }

  lemma PlainLeaksIff(rules: Policy, kind: Kind, slots: seq<Slot<Value>>, kids: seq<Tree>)
    requires !kind.ErrorOf? && |slots| == |kids|
    ensures SpotlessNode(rules, kind, Zip(slots, kids)) <==> !LabelLeaks(rules, kind, slots)
  {
    var copied := Zip(slots, kids);
    assert forall i :: 0 <= i < |slots| ==> copied[i].at == slots[i].at;
  }

  lemma {:induction false} ErrorSlotIsSpotless(
      rules: Policy, h: Heap, kind: Kind, slots: seq<Slot<Value>>, met: set<Ref>, kids: seq<Tree>, all: seq<Slot<Tree>>,
      x: Slot<Tree>)
    requires WellRedacting(rules) && kind.ErrorOf? && DistinctLabels(slots)
    requires !LabelLeaks(rules, kind, slots) && !BringsName(rules, kind, slots)
    requires kids == SanSlots(rules, h, kind, Visited(kind, slots), met).kids
    requires all == AssignAll(ErrorBase(kind, slots, kids), Zip(slots, kids[|kids| - |slots|..])) && x in all
    ensures SpotlessSlot(rules, kind, x)
  {
    var own := kids[|kids| - |slots|..];
    if x in Zip(slots, own) {
      var i :| 0 <= i < |slots| && Zip(slots, own)[i] == x;
      SanitizedSlotsAreClean(rules, h, kind, Visited(kind, slots), met);
      assert Clean(rules, kids[|kids| - |slots| + i]) && !Leaks(rules, kind, slots[i].at);
    } else {
      LeftOver(kind, slots, kids, all, x);
    }
  }

  lemma OneLeaks(rules: Policy, kind: Kind, all: seq<Slot<Tree>>, x: Slot<Tree>)
    requires x in all && !SpotlessSlot(rules, kind, x)
    ensures !SpotlessNode(rules, kind, all)
  {
    var j :| 0 <= j < |all| && all[j] == x;
  }

  lemma PropertyLeaks(rules: Policy, kind: Kind, slots: seq<Slot<Value>>, z: seq<Slot<Tree>>, all: seq<Slot<Tree>>)
    requires LabelLeaks(rules, kind, slots) && |z| == |slots|
    requires forall i :: 0 <= i < |slots| ==> z[i].at == slots[i].at && z[i] in all
    ensures !SpotlessNode(rules, kind, all)
  {
    var i :| 0 <= i < |slots| && Leaks(rules, kind, slots[i].at);
    OneLeaks(rules, kind, all, z[i]);
  }

  lemma ErrorLeaks(
      rules: Policy, kind: Kind, slots: seq<Slot<Value>>, kids: seq<Tree>, all: seq<Slot<Tree>>)
    requires kind.ErrorOf? && DistinctLabels(slots) && |kids| == |Visited(kind, slots)|
    requires LabelLeaks(rules, kind, slots) || BringsName(rules, kind, slots)
    requires all == AssignAll(ErrorBase(kind, slots, kids), Zip(slots, kids[|kids| - |slots|..]))
    ensures !SpotlessNode(rules, kind, all)
  {
    var z := Zip(slots, kids[|kids| - |slots|..]);
    ErrorCopyHas(kind, slots, kids, all);
    if LabelLeaks(rules, kind, slots) {
      forall i | 0 <= i < |slots| ensures z[i].at == slots[i].at && z[i] in all {
        assert z[i] in z;
      }
      PropertyLeaks(rules, kind, slots, z, all);
    } else {
      OneLeaks(rules, kind, all, Slot(Field(Name), TStr(kind.protoName)));
    }
  }

  lemma ErrorsLeakAlike(rules: Policy, k1: Kind, k2: Kind, slots: seq<Slot<Tree>>)
    requires k1.ErrorOf? && k2.ErrorOf?
    ensures SpotlessNode(rules, k1, slots) <==> SpotlessNode(rules, k2, slots)
  {
    assert forall i :: 0 <= i < |slots| ==> (SpotlessSlot(rules, k1, slots[i]) <==> SpotlessSlot(rules, k2, slots[i]));
  }

  lemma LeakyIff(rules: Policy, h: Heap, r: Ref, met: set<Ref>)
    requires WellRedacting(rules) && Leads(h, Obj(r)) && (h[r].kind.ErrorOf? ==> DistinctLabels(h[r].slots))
    ensures var copy := CopyAt(rules, h, r, met); Leaky(rules, h, r) <==> !SpotlessNode(rules, copy.kind, copy.slots)
  {
    var kind, slots, copy := h[r].kind, h[r].slots, CopyAt(rules, h, r, met);
    var kids := SanSlots(rules, h, kind, Visited(kind, slots), met).kids;
    if kind.SetOf? {
      SetsDoNotLeak(rules, kids);
    } else if !kind.ErrorOf? {
      PlainLeaksIff(rules, kind, slots, kids);
    } else {
      ErrorsLeakAlike(rules, kind, copy.kind, copy.slots);
      if Leaky(rules, h, r) {
        ErrorLeaks(rules, kind, slots, kids, copy.slots);
      } else {
        forall i | 0 <= i < |copy.slots| ensures SpotlessSlot(rules, kind, copy.slots[i]) {
          ErrorSlotIsSpotless(rules, h, kind, slots, met, kids, copy.slots, copy.slots[i]);
        }
      }
    }
  }

  /** A sanitized value is spotless if and only if the traversal copies into it no object with a label
      that leaks, a Map's key or the name of a field, and no Error whose inherited name does. */
  lemma SpotlessIff(rules: Policy, h: Heap, v: Value, seen: set<Ref>)
    requires WellRedacting(rules) && WellFormed(h)
    ensures Spotless(rules, San(rules, h, v, seen).tree) <==> !SomeCopied(rules, h, Leaking(rules, h), v, seen)
  {
    SanitizedIsClean(rules, h, v, seen);
    SpotlessIsNodeWise(rules, San(rules, h, v, seen).tree);
    forall r, met | Leads(h, Obj(r)) && r in met ensures ForetoldAt(rules, h, Spots(rules), Leaking(rules, h), r, met) {
      LeakyIff(rules, h, r, met);
    }
    AllNodesIff(rules, h, Spots(rules), Leaking(rules, h), v, seen);
  }

  // ---- what comes out -----------------------------------------------------------------

  /** In the copy of a record or a Map every label is the original one; and in a Map's every text value is
      redacted and no more, whatever its key says. */
  lemma LabelsAreKept(rules: Policy, h: Heap, r: Ref, seen: set<Ref>, i: nat)
    requires WellFormed(h) && Leads(h, Obj(r)) && (h[r].kind.MapOf? || h[r].kind.Record?)
    requires r !in seen && i < |h[r].slots|
    ensures var t, slot := San(rules, h, Obj(r), seen).tree, h[r].slots[i];
            && t.TNode? && |t.slots| == |h[r].slots| && t.slots[i].at == slot.at
            && (h[r].kind.MapOf? && slot.value.Str? ==> t.slots[i].value == TStr(rules.redact(slot.value.text)))
  {
    var kind, slots, t := h[r].kind, h[r].slots, San(rules, h, Obj(r), seen).tree;
    SanitizedFits(rules, h, Obj(r), seen);
    var moment := Moment(rules, h, kind, slots, i, seen + {r});
    assert KidFits(rules, h, kind, slots[i], t.slots[i].value, moment);
    assert kind.MapOf? ==> Fits(rules, h, slots[i].value, t.slots[i].value, moment);
  }

  /** The smallest leaks: a Map with one entry, or a record with one field, under a text that redaction
      changes. The text comes out as it was; and the Map's value too, whatever the policy says of a field
      of that name. */
  lemma {:induction false} SmallestLeaks(rules: Policy, key: string, value: string)
    requires WellRedacting(rules) && rules.redact(key) != key && rules.redact(value) == value
    ensures var h: Heap := map[0 := Node(MapOf, [Slot(MapKey(Str(key)), Str(value))])];
            San(rules, h, Obj(0), {}).tree == TNode(MapOf, [Slot(MapKey(Str(key)), TStr(value))])
    ensures var h: Heap := map[0 := Node(Record, [Slot(Field(Other(key)), Prim(7))])];
            var t := San(rules, h, Obj(0), {}).tree;
            t.TNode? && |t.slots| == 1 && t.slots[0].at == Field(Other(key)) && !Spotless(rules, t)
  {
    var h: Heap := map[0 := Node(MapOf, [Slot(MapKey(Str(key)), Str(value))])];
    LabelsAreKept(rules, h, 0, {}, 0);
    SanitizedFits(rules, h, Obj(0), {});
    LabelsAreKept(rules, map[0 := Node(Record, [Slot(Field(Other(key)), Prim(7))])], 0, {}, 0);
  }
}
