// Which objects leave their copy in the output, and a way to read a property of all copies off the
// input: it fails somewhere in the output exactly when the traversal copies an object that breaks it.
module CopiedNodes {
  import opened Options
  import opened Sanitizer
  import opened Resanitizing
  import opened Fidelity

  /** An Error with a cause among its enumerable properties: what the reading of `cause` copies is
      overwritten when the property is copied in its turn. */
  predicate OwnCause(kind: Kind, slots: seq<Slot<Value>>) {
    kind.ErrorOf? && CauseOf(kind, slots).Some? && FieldOf(slots, Cause).Some?
  }

  /** The children whose copies the output keeps. */
  function Kept(kind: Kind, slots: seq<Slot<Value>>): seq<Slot<Value>> {
    if OwnCause(kind, slots) then slots else Visited(kind, slots)
  }

  /** What has been met when the first of them is visited. */
  ghost function Start(rules: Policy, h: Heap, kind: Kind, slots: seq<Slot<Value>>, seen: set<Ref>): (start: set<Ref>)
    ensures seen <= start
  {
    if OwnCause(kind, slots) then After(rules, h, CauseOf(kind, slots).value, seen) else seen
  }

  /** The traversal from `v` copies into the output an object that is bad at its moment: `bad` is asked
      of an object and of the set met when it is copied, itself among them. */
  ghost predicate SomeCopied(rules: Policy, h: Heap, bad: (Ref, set<Ref>) -> bool, v: Value, seen: set<Ref>)
    decreases h.Keys - seen, 0
  {
    Leads(h, v) && v.ref !in seen &&
    var kind, slots, met := h[v.ref].kind, h[v.ref].slots, seen + {v.ref};
    assert v.ref in h.Keys - seen && v.ref !in h.Keys - met;
    assert h.Keys - Start(rules, h, kind, slots, met) <= h.Keys - met;
    bad(v.ref, met) || SomeCopiedIn(rules, h, bad, kind, Kept(kind, slots), Start(rules, h, kind, slots, met))
  }

  ghost predicate SomeCopiedIn(
      rules: Policy, h: Heap, bad: (Ref, set<Ref>) -> bool, kind: Kind, slots: seq<Slot<Value>>, seen: set<Ref>)
    decreases h.Keys - seen, |slots|
  {
    slots != [] &&
    var init, last := slots[..|slots| - 1], slots[|slots| - 1];
    var so := AfterSlots(rules, h, kind, init, seen);
    SlotsSeenIsAfter(rules, h, kind, init, seen);
    assert h.Keys - so <= h.Keys - seen;
    SomeCopiedIn(rules, h, bad, kind, init, seen)
      || (!Hidden(rules, kind, last.at) && SomeCopied(rules, h, bad, last.value, so))
  }

  // ---- all copies ---------------------------------------------------------------------

  type NodeTest = (Kind, seq<Slot<Tree>>) -> bool

  /** Every object in the copy passes. */
  ghost predicate AllNodes(ok: NodeTest, t: Tree) {
    t.TNode? ==> ok(t.kind, t.slots) && forall i :: 0 <= i < |t.slots| ==> AllNodes(ok, t.slots[i].value)
  }

  ghost predicate AllIn(ok: NodeTest, slots: seq<Slot<Tree>>) {
    forall i :: 0 <= i < |slots| ==> AllNodes(ok, slots[i].value)
  }

  ghost predicate AllOf(ok: NodeTest, kids: seq<Tree>) {
    forall i :: 0 <= i < |kids| ==> AllNodes(ok, kids[i])
  }

  /** The copy made of the object `r` when `met` has been met. */
  ghost function CopyAt(rules: Policy, h: Heap, r: Ref, met: set<Ref>): (copy: Tree)
    requires Leads(h, Obj(r))
    ensures copy.TNode?
  {
    CopyOf(rules, h[r].kind, h[r].slots, SanSlots(rules, h, h[r].kind, Visited(h[r].kind, h[r].slots), met).kids)
  }

  /** `bad` says on the input which copies fail `ok`. */
  ghost predicate Foretells(rules: Policy, h: Heap, ok: NodeTest, bad: (Ref, set<Ref>) -> bool) {
    forall r, met :: Leads(h, Obj(r)) && r in met ==> ForetoldAt(rules, h, ok, bad, r, met)
  }

  ghost predicate ForetoldAt(rules: Policy, h: Heap, ok: NodeTest, bad: (Ref, set<Ref>) -> bool, r: Ref, met: set<Ref>)
    requires Leads(h, Obj(r))
  {
    bad(r, met) <==> !ok(CopyAt(rules, h, r, met).kind, CopyAt(rules, h, r, met).slots)
  }

  lemma {:induction false} AllInSet(ok: NodeTest, kids: seq<Tree>)
    ensures AllIn(ok, AddAll(kids)) <==> AllOf(ok, kids)
  {
    forall i | 0 <= i < |kids| && AllIn(ok, AddAll(kids)) ensures AllNodes(ok, kids[i]) {
      AddAllHas(kids, i);
    }
    forall j | 0 <= j < |AddAll(kids)| && AllOf(ok, kids) ensures AllNodes(ok, AddAll(kids)[j].value) {
      AddAllElements(kids, AddAll(kids)[j]);
    }
  }

  lemma AllInZip(ok: NodeTest, slots: seq<Slot<Value>>, kids: seq<Tree>)
    requires |slots| == |kids|
    ensures AllIn(ok, Zip(slots, kids)) <==> AllOf(ok, kids)
  {
    forall i | 0 <= i < |kids| ensures AllNodes(ok, kids[i]) <==> AllNodes(ok, Zip(slots, kids)[i].value) {
    }
  }

  /** The copies that stay when the children's copies are assembled. */
  function KeptKids(kind: Kind, slots: seq<Slot<Value>>, kids: seq<Tree>): seq<Tree>
    requires |kids| == |Visited(kind, slots)|
  {
    if OwnCause(kind, slots) then kids[1..] else kids
  }

  lemma NoPropertyHasLabel(slots: seq<Slot<Value>>, own: seq<Tree>, all: seq<Slot<Tree>>, x: Slot<Tree>)
    requires |own| == |slots| && DistinctLabels(all) && x in all && x !in Zip(slots, own)
    requires forall y :: y in Zip(slots, own) ==> y in all
    ensures forall i :: 0 <= i < |slots| ==> slots[i].at != x.at
  {
    forall i | 0 <= i < |slots| ensures slots[i].at != x.at {
      assert Zip(slots, own)[i] in Zip(slots, own) && Zip(slots, own)[i] in all;
    }
  }

  /** A slot of an Error's copy that none of its properties wrote: the hidden cause or the name. */
  lemma {:induction false} LeftOver(
      kind: Kind, slots: seq<Slot<Value>>, kids: seq<Tree>, all: seq<Slot<Tree>>, x: Slot<Tree>)
    requires kind.ErrorOf? && DistinctLabels(slots) && |kids| == |Visited(kind, slots)|
    requires all == AssignAll(ErrorBase(kind, slots, kids), Zip(slots, kids[|kids| - |slots|..]))
    requires x in all && x !in Zip(slots, kids[|kids| - |slots|..])
    ensures || (CauseOf(kind, slots).Some? && FieldOf(slots, Cause).None? && x == Slot(Field(Cause), kids[0]))
            || (FieldOf(slots, Name).None? && x == Slot(Field(Name), TStr(NameOf(kind, slots))))
  {
    var base, own := ErrorBase(kind, slots, kids), kids[|kids| - |slots|..];
    assert DistinctLabels(base);
    AssignAllElements(base, Zip(slots, own), x);
    AssignAllAt(base, Zip(slots, own));
    ErrorCopyHas(kind, slots, kids, all);
    NoPropertyHasLabel(slots, own, all, x);
    FieldOfAt(slots, Cause);
    FieldOfAt(slots, Name);
  }

  lemma OwnKidsStay(ok: NodeTest, kind: Kind, slots: seq<Slot<Value>>, kids: seq<Tree>, all: seq<Slot<Tree>>)
    requires kind.ErrorOf? && DistinctLabels(slots) && |kids| == |Visited(kind, slots)|
    requires all == AssignAll(ErrorBase(kind, slots, kids), Zip(slots, kids[|kids| - |slots|..])) && AllIn(ok, all)
    ensures AllOf(ok, KeptKids(kind, slots, kids))
  {
    var own := kids[|kids| - |slots|..];
    var z := Zip(slots, own);
    ErrorCopyHas(kind, slots, kids, all);
    forall i | 0 <= i < |own| ensures AllNodes(ok, own[i]) {
      assert z[i] in z && z[i] in all;
      var j :| 0 <= j < |all| && all[j] == z[i];
    }
    if kids != own && !OwnCause(kind, slots) {
      var j :| 0 <= j < |all| && all[j] == Slot(Field(Cause), kids[0]);
      assert forall i :: 1 <= i < |kids| ==> kids[i] == own[i - 1];
    }
  }

  lemma StayingKidsSuffice(ok: NodeTest, kind: Kind, slots: seq<Slot<Value>>, kids: seq<Tree>, all: seq<Slot<Tree>>)
    requires kind.ErrorOf? && DistinctLabels(slots) && |kids| == |Visited(kind, slots)|
    requires all == AssignAll(ErrorBase(kind, slots, kids), Zip(slots, kids[|kids| - |slots|..]))
    requires AllOf(ok, KeptKids(kind, slots, kids))
    ensures AllIn(ok, all)
  {
    var own := kids[|kids| - |slots|..];
    var z := Zip(slots, own);
    assert forall i :: 0 <= i < |own| ==> own[i] in KeptKids(kind, slots, kids);
    forall j | 0 <= j < |all| ensures AllNodes(ok, all[j].value) {
      var x := all[j];
      if x in z {
        var i :| 0 <= i < |z| && z[i] == x;
        assert x.value == own[i];
      } else {
        LeftOver(kind, slots, kids, all, x);
      }
    }
  }

  lemma AllInCopy(ok: NodeTest, rules: Policy, kind: Kind, slots: seq<Slot<Value>>, kids: seq<Tree>)
    requires |kids| == |Visited(kind, slots)| && (kind.ErrorOf? ==> DistinctLabels(slots))
    ensures AllIn(ok, CopyOf(rules, kind, slots, kids).slots) <==> AllOf(ok, KeptKids(kind, slots, kids))
  {
    if kind.SetOf? {
      AllInSet(ok, kids);
    } else if kind.ErrorOf? {
      var all := CopyOf(rules, kind, slots, kids).slots;
      if AllIn(ok, all) { OwnKidsStay(ok, kind, slots, kids, all); }
      if AllOf(ok, KeptKids(kind, slots, kids)) { StayingKidsSuffice(ok, kind, slots, kids, all); }
    } else {
      AllInZip(ok, slots, kids);
    }
  }

  // ---- the theorem --------------------------------------------------------------------

  /** The copies kept are those of the kept children, visited one after the other. */
  lemma KeptKidsAre(rules: Policy, h: Heap, kind: Kind, slots: seq<Slot<Value>>, seen: set<Ref>)
    ensures KeptKids(kind, slots, SanSlots(rules, h, kind, Visited(kind, slots), seen).kids) ==
            SanSlots(rules, h, kind, Kept(kind, slots), Start(rules, h, kind, slots, seen)).kids
    ensures SanSlots(rules, h, kind, Visited(kind, slots), seen).seen ==
            SanSlots(rules, h, kind, Kept(kind, slots), Start(rules, h, kind, slots, seen)).seen
  {
    if OwnCause(kind, slots) {
      var cause := Slot(Item, CauseOf(kind, slots).value);
      SanSlotsFirst(rules, h, kind, cause, slots, seen);
      SeenIsAfter(rules, h, cause.value, seen);
    }
  }

  lemma CopyPasses(ok: NodeTest, rules: Policy, kind: Kind, slots: seq<Slot<Value>>, kids: seq<Tree>)
    requires |kids| == |Visited(kind, slots)| && (kind.ErrorOf? ==> DistinctLabels(slots))
    ensures var copy := CopyOf(rules, kind, slots, kids);
            AllNodes(ok, copy) <==> ok(copy.kind, copy.slots) && AllOf(ok, KeptKids(kind, slots, kids))
  {
    AllInCopy(ok, rules, kind, slots, kids);
    var copy := CopyOf(rules, kind, slots, kids);
    assert AllNodes(ok, copy) <==> ok(copy.kind, copy.slots) && AllIn(ok, copy.slots);
  }

  lemma SanIsCopy(rules: Policy, h: Heap, r: Ref, seen: set<Ref>)
    requires Leads(h, Obj(r)) && r !in seen
    ensures San(rules, h, Obj(r), seen).tree == CopyAt(rules, h, r, seen + {r})
  {
  }

  lemma {:induction false} NodePasses(
      rules: Policy, h: Heap, ok: NodeTest, bad: (Ref, set<Ref>) -> bool, r: Ref, seen: set<Ref>)
    requires Leads(h, Obj(r)) && r !in seen && Foretells(rules, h, ok, bad)
             && (h[r].kind.ErrorOf? ==> DistinctLabels(h[r].slots))
    ensures var kept :=
              KeptKids(h[r].kind, h[r].slots,
                       SanSlots(rules, h, h[r].kind, Visited(h[r].kind, h[r].slots), seen + {r}).kids);
            AllNodes(ok, San(rules, h, Obj(r), seen).tree) <==> !bad(r, seen + {r}) && AllOf(ok, kept)
  {
    assert ForetoldAt(rules, h, ok, bad, r, seen + {r});
    SanIsCopy(rules, h, r, seen);
    CopyPasses(ok, rules, h[r].kind, h[r].slots,
               SanSlots(rules, h, h[r].kind, Visited(h[r].kind, h[r].slots), seen + {r}).kids);
  }

  /** Every copy in the output passes if and only if the traversal copies no object that is bad. */
  lemma {:induction false} AllNodesIff(
      rules: Policy, h: Heap, ok: NodeTest, bad: (Ref, set<Ref>) -> bool, v: Value, seen: set<Ref>)
    requires WellFormed(h) && Foretells(rules, h, ok, bad)
    ensures AllNodes(ok, San(rules, h, v, seen).tree) <==> !SomeCopied(rules, h, bad, v, seen)
    decreases h.Keys - seen, 0
  {
    if Leads(h, v) && v.ref !in seen {
      var kind, slots, met := h[v.ref].kind, h[v.ref].slots, seen + {v.ref};
      assert v.ref in h.Keys - seen && v.ref !in h.Keys - met;
      NodePasses(rules, h, ok, bad, v.ref, seen);
      KeptKidsAre(rules, h, kind, slots, met);
      AllKidsIff(rules, h, ok, bad, kind, Kept(kind, slots), Start(rules, h, kind, slots, met));
    }
  }

  lemma {:induction false} AllKidsIff(
      rules: Policy, h: Heap, ok: NodeTest, bad: (Ref, set<Ref>) -> bool, kind: Kind, slots: seq<Slot<Value>>,
      seen: set<Ref>)
    requires WellFormed(h) && Foretells(rules, h, ok, bad)
    ensures AllOf(ok, SanSlots(rules, h, kind, slots, seen).kids) <==> !SomeCopiedIn(rules, h, bad, kind, slots, seen)
    decreases h.Keys - seen, |slots|
  {
    if slots != [] {
      var init, last := slots[..|slots| - 1], slots[|slots| - 1];
      var so := SanSlots(rules, h, kind, init, seen);
      SlotsSeenIsAfter(rules, h, kind, init, seen);
      assert h.Keys - so.seen <= h.Keys - seen;
      AllKidsIff(rules, h, ok, bad, kind, init, seen);
      AllNodesIff(rules, h, ok, bad, last.value, so.seen);
      AllOfMore(ok, so.kids, SanSlots(rules, h, kind, slots, seen).kids);
    }
  }

  lemma AllOfMore(ok: NodeTest, init: seq<Tree>, kids: seq<Tree>)
    requires kids != [] && init == kids[..|kids| - 1]
    ensures AllOf(ok, kids) <==> AllOf(ok, init) && AllNodes(ok, kids[|kids| - 1])
  {
  }

  // ---- single children ----------------------------------------------------------------

  /** The copy of child `i` is made when the children before it have been visited. */
  lemma {:induction false} KidAt(rules: Policy, h: Heap, kind: Kind, slots: seq<Slot<Value>>, seen: set<Ref>, i: nat)
    requires i < |slots|
    ensures SanSlots(rules, h, kind, slots, seen).kids[i] ==
            if Hidden(rules, kind, slots[i].at) then TStr(rules.hidden)
            else San(rules, h, slots[i].value, SanSlots(rules, h, kind, slots[..i], seen).seen).tree
    decreases |slots|
  {
    var init := slots[..|slots| - 1];
    if i < |init| {
      KidAt(rules, h, kind, init, seen, i);
      assert init[..i] == slots[..i];
    }
  }

  /** A cause among the properties is read first and copied second, when its object has been met. */
  lemma {:induction false} CauseIsReadFirst(
      rules: Policy, h: Heap, kind: Kind, slots: seq<Slot<Value>>, met: set<Ref>, i: nat)
    requires kind.ErrorOf? && i < |slots| && slots[i].at == Field(Cause) && !rules.sensitive(Cause)
    requires CauseOf(kind, slots) == Some(slots[i].value) && Leads(h, slots[i].value)
    ensures SanSlots(rules, h, kind, Visited(kind, slots), met).kids[1 + i] == TStr(rules.cut)
  {
    var cause := Slot(Item, slots[i].value);
    var one := San(rules, h, cause.value, met);
    SanSlotsFirst(rules, h, kind, cause, slots, met);
    SanCloses(rules, h, cause.value, met);
    KidAt(rules, h, kind, slots, one.seen, i);
    assert slots[i].value.ref in SanSlots(rules, h, kind, slots[..i], one.seen).seen;
  }
}
