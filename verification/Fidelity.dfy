// What the sanitizer keeps, and where. Besides redacting texts, hiding sensitive fields and cutting
// objects already met, a copy has at every place what the original has there.
module Fidelity {
  import opened Sanitizer
  import opened Resanitizing

  // ---- which objects are met when -----------------------------------------------------

  ghost predicate Avoids(p: seq<Ref>, seen: set<Ref>) {
    forall i :: 0 <= i < |p| ==> p[i] !in seen
  }

  /** A path leads from `v` to `q` through objects not met yet, past no sensitive key. */
  ghost predicate ReachesAnew(rules: Policy, h: Heap, v: Value, q: Ref, seen: set<Ref>) {
    Leads(h, v) && exists p :: |p| > 0 && p[0] == v.ref && p[|p| - 1] == q && Path(rules, h, p) && Avoids(p, seen)
  }

  /** The objects met once `v` has been visited: those met before, and those such a path leads to. */
  ghost function After(rules: Policy, h: Heap, v: Value, seen: set<Ref>): set<Ref> {
    seen + set q | q in h.Keys && ReachesAnew(rules, h, v, q, seen)
  }

  ghost function AfterSlots(rules: Policy, h: Heap, kind: Kind, slots: seq<Slot<Value>>, seen: set<Ref>): set<Ref> {
    if slots == [] then seen
    else
      var so, last := AfterSlots(rules, h, kind, slots[..|slots| - 1], seen), slots[|slots| - 1];
      if Hidden(rules, kind, last.at) then so else After(rules, h, last.value, so)
  }

  lemma ReachesAnewNext(rules: Policy, h: Heap, v: Value, r: Ref, q: Ref, seen: set<Ref>)
    requires ReachesAnew(rules, h, v, r, seen) && Shows(rules, h, r, q) && q !in seen
    ensures ReachesAnew(rules, h, v, q, seen)
  {
    var p :| |p| > 0 && p[0] == v.ref && p[|p| - 1] == r && Path(rules, h, p) && Avoids(p, seen);
    var longer := p + [q];
    assert Path(rules, h, longer) by {
      forall i | 0 <= i < |longer| - 1 ensures Shows(rules, h, longer[i], longer[i + 1]) {
        if i < |p| - 1 { assert Shows(rules, h, p[i], p[i + 1]); }
      }
    }
    assert longer[|longer| - 1] == q;
  }

  lemma {:induction false} NewPathIsMet(rules: Policy, h: Heap, p: seq<Ref>, seen: set<Ref>, all: set<Ref>)
    requires |p| > 0 && Path(rules, h, p) && Avoids(p, seen) && p[0] in all && ClosedBut(rules, h, all - seen, all)
    ensures p[|p| - 1] in all
    decreases |p|
  {
    if |p| > 1 {
      var init := p[..|p| - 1];
      assert Path(rules, h, init) by {
        forall i | 0 <= i < |init| - 1 ensures Shows(rules, h, init[i], init[i + 1]) {
          assert Shows(rules, h, p[i], p[i + 1]);
        }
      }
      NewPathIsMet(rules, h, init, seen, all);
      assert Shows(rules, h, p[|p| - 2], p[|p| - 1]);
    }
  }

  /** The set the traversal threads is exactly that. */
  lemma SeenIsAfter(rules: Policy, h: Heap, v: Value, seen: set<Ref>)
    ensures San(rules, h, v, seen).seen == After(rules, h, v, seen)
  {
    var all := San(rules, h, v, seen).seen;
    var c := set q | q in h.Keys && ReachesAnew(rules, h, v, q, seen);
    SanCloses(rules, h, v, seen);
    forall q | q in c ensures q in all {
      var p :| |p| > 0 && p[0] == v.ref && p[|p| - 1] == q && Path(rules, h, p) && Avoids(p, seen);
      NewPathIsMet(rules, h, p, seen, all);
    }
    forall a, b | a in c && Shows(rules, h, a, b) ensures b in seen + c {
      if b !in seen { ReachesAnewNext(rules, h, v, a, b, seen); }
    }
    if Leads(h, v) && v.ref !in seen {
      assert Path(rules, h, [v.ref]) && Avoids([v.ref], seen);
    }
    SanStaysInside(rules, h, v, seen, c);
  }

  lemma {:induction false} SlotsSeenIsAfter(rules: Policy, h: Heap, kind: Kind, slots: seq<Slot<Value>>, seen: set<Ref>)
    ensures SanSlots(rules, h, kind, slots, seen).seen == AfterSlots(rules, h, kind, slots, seen)
    decreases |slots|
  {
    if slots != [] {
      var init, last := slots[..|slots| - 1], slots[|slots| - 1];
      SlotsSeenIsAfter(rules, h, kind, init, seen);
      SeenIsAfter(rules, h, last.value, SanSlots(rules, h, kind, init, seen).seen);
    }
  }

  // ---- copies -------------------------------------------------------------------------

  /** `t` is a copy of `v` made when the objects of `seen` had been met: the same primitives, texts
      redacted, an object met before cut, and any other copied with all its children. */
  ghost predicate Fits(rules: Policy, h: Heap, v: Value, t: Tree, seen: set<Ref>)
    decreases t, 2
  {
    match v
    case Prim(code) => t == TPrim(code)
    case Str(text) => t == TStr(rules.redact(text))
    case Obj(r) =>
      if r in seen || r !in h then t == TStr(rules.cut)
      else match h[r]
        case Date(time) => t == TDate(time)
        case Node(kind, slots) =>
          && t.TNode? && t.kind == CopyKind(rules, kind)
          && match kind
             case SetOf => MembersFit(rules, h, slots, t, seen + {r})
             case ErrorOf(_, _, _, _, _) => ErrorFits(rules, h, kind, slots, t, seen + {r})
             case _ => InOrderFits(rules, h, kind, slots, t, seen + {r})
  }

  ghost predicate KidFits(rules: Policy, h: Heap, kind: Kind, slot: Slot<Value>, kid: Tree, seen: set<Ref>)
    decreases kid, 3
  {
    if Hidden(rules, kind, slot.at) then kid == TStr(rules.hidden) else Fits(rules, h, slot.value, kid, seen)
  }

  /** What has been met when child `i` is visited. */
  ghost function Moment(rules: Policy, h: Heap, kind: Kind, slots: seq<Slot<Value>>, i: nat, seen: set<Ref>): set<Ref>
    requires i <= |slots|
  {
    AfterSlots(rules, h, kind, slots[..i], seen)
  }

  /** What has been met when property `i` of an Error is visited: its cause was read before. */
  ghost function PropertyMoment(
      rules: Policy, h: Heap, kind: Kind, slots: seq<Slot<Value>>, i: nat, seen: set<Ref>): set<Ref>
    requires i <= |slots|
  {
    Moment(rules, h, kind, Visited(kind, slots), |Visited(kind, slots)| - |slots| + i, seen)
  }

  /** Records, arrays and Maps: the same labels in the same order, each over a copy of its value. */
  ghost predicate InOrderFits(rules: Policy, h: Heap, kind: Kind, slots: seq<Slot<Value>>, t: Tree, seen: set<Ref>)
    requires t.TNode?
    decreases t, 0
  {
    && |t.slots| == |slots|
    && forall i :: 0 <= i < |slots| ==>
         && t.slots[i].at == slots[i].at
         && KidFits(rules, h, kind, slots[i], t.slots[i].value, Moment(rules, h, kind, slots, i, seen))
  }

  function Picked(slots: seq<Slot<Tree>>, places: seq<nat>): seq<Tree>
    requires forall i :: 0 <= i < |places| ==> places[i] < |slots|
  {
    seq(|places|, i requires 0 <= i < |places| => slots[places[i]].value)
  }

  /** Sets: every member has its copy at some place, and the copy holds them as insertion one by one
      leaves them, equal texts and primitives once and each object's copy on its own; so it holds
      nothing else. */
  ghost predicate MembersFit(rules: Policy, h: Heap, slots: seq<Slot<Value>>, t: Tree, seen: set<Ref>)
    requires t.TNode?
    decreases t, 1
  {
    exists places: seq<nat> :: MembersAt(rules, h, slots, t, places, seen)
  }

  ghost predicate MembersAt(
      rules: Policy, h: Heap, slots: seq<Slot<Value>>, t: Tree, places: seq<nat>, seen: set<Ref>)
    requires t.TNode?
    decreases t, 0
  {
    && |places| == |slots| && (forall i :: 0 <= i < |places| ==> places[i] < |t.slots|)
    && (forall i :: 0 <= i < |slots| ==>
          Fits(rules, h, slots[i].value, t.slots[places[i]].value, Moment(rules, h, SetOf, slots, i, seen)))
    && t.slots == AddAll(Picked(t.slots, places))
  }

  function Labels<V>(slots: seq<Slot<V>>): (labels: seq<Label>)
    ensures |labels| == |slots|
  {
    seq(|slots|, i requires 0 <= i < |slots| => slots[i].at)
  }

  /** Labels in the order they were first written. */
  function WrittenAfter(labels: seq<Label>, more: seq<Label>): seq<Label> {
    if more == [] then labels
    else
      var so, last := WrittenAfter(labels, more[..|more| - 1]), more[|more| - 1];
      if last in so then so else so + [last]
  }

  /** The properties an Error's copy has, in order: the cause if it has one, the name, and the rest. */
  function ErrorLabels(kind: Kind, slots: seq<Slot<Value>>): seq<Label>
    requires kind.ErrorOf?
  {
    WrittenAfter((if CauseOf(kind, slots).Some? then [Field(Cause)] else []) + [Field(Name)], Labels(slots))
  }

  /** Errors: every property is there under its name, copied after the cause was read, and so are the
      cause and the name if they are not among the properties; and nothing else is. */
  ghost predicate ErrorFits(rules: Policy, h: Heap, kind: Kind, slots: seq<Slot<Value>>, t: Tree, seen: set<Ref>)
    requires t.TNode? && kind.ErrorOf?
    decreases t, 1
  {
    && Labels(t.slots) == ErrorLabels(kind, slots)
    && PropertiesFit(rules, h, kind, slots, t, seen)
    && (CauseOf(kind, slots).Some? && FieldOf(slots, Cause).None? ==> HiddenCauseFits(rules, h, kind, slots, t, seen))
    && (FieldOf(slots, Name).None? ==> Slot(Field(Name), TStr(NameOf(kind, slots))) in t.slots)
  }

  ghost predicate PropertiesFit(rules: Policy, h: Heap, kind: Kind, slots: seq<Slot<Value>>, t: Tree, seen: set<Ref>)
    requires t.TNode?
    decreases t, 0
  {
    forall i :: 0 <= i < |slots| ==>
      exists j :: 0 <= j < |t.slots| && t.slots[j].at == slots[i].at
                  && KidFits(rules, h, kind, slots[i], t.slots[j].value, PropertyMoment(rules, h, kind, slots, i, seen))
  }

  ghost predicate HiddenCauseFits(rules: Policy, h: Heap, kind: Kind, slots: seq<Slot<Value>>, t: Tree, seen: set<Ref>)
    requires t.TNode? && kind.ErrorOf? && CauseOf(kind, slots).Some?
    decreases t, 0
  {
    exists j :: 0 <= j < |t.slots| && t.slots[j].at == Field(Cause)
                && Fits(rules, h, CauseOf(kind, slots).value, t.slots[j].value, seen)
  }

  /** Child by child, each at its moment; the first child is at place `from` of `all`. */
  ghost predicate FittingKids(
      rules: Policy, h: Heap, kind: Kind, all: seq<Slot<Value>>, from: nat, kids: seq<Tree>, seen: set<Ref>) {
    && from + |kids| == |all|
    && forall i :: 0 <= i < |kids| ==>
         KidFits(rules, h, kind, all[from + i], kids[i], Moment(rules, h, kind, all, from + i, seen))
  }

  // ---- sets ---------------------------------------------------------------------------

  lemma {:induction false} AddAllHas(kids: seq<Tree>, i: nat)
    requires i < |kids|
    ensures Slot(Item, kids[i]) in AddAll(kids)
    decreases |kids|
  {
    if i < |kids| - 1 {
      AddAllHas(kids[..|kids| - 1], i);
    }
  }

  ghost function PlaceOf(slots: seq<Slot<Tree>>, kid: Tree): (place: nat)
    requires Slot(Item, kid) in slots
    ensures place < |slots| && slots[place] == Slot(Item, kid)
  {
    var place :| 0 <= place < |slots| && slots[place] == Slot(Item, kid);
    place
  }

  lemma SetCopyFits(rules: Policy, h: Heap, slots: seq<Slot<Value>>, kids: seq<Tree>, t: Tree, seen: set<Ref>)
    requires FittingKids(rules, h, SetOf, slots, 0, kids, seen) && t == TNode(SetOf, AddAll(kids))
    ensures MembersFit(rules, h, slots, t, seen)
  {
    forall i | 0 <= i < |kids| ensures Slot(Item, kids[i]) in t.slots {
      AddAllHas(kids, i);
    }
    var places := seq(|kids|, i requires 0 <= i < |kids| => PlaceOf(t.slots, kids[i]));
    assert Picked(t.slots, places) == kids;
    forall i | 0 <= i < |slots|
      ensures Fits(rules, h, slots[i].value, t.slots[places[i]].value, Moment(rules, h, SetOf, slots, i, seen))
    {
      assert KidFits(rules, h, SetOf, slots[0 + i], kids[i], Moment(rules, h, SetOf, slots, 0 + i, seen));
    }
    assert MembersAt(rules, h, slots, t, places, seen);
  }

  // ---- Errors -------------------------------------------------------------------------

  lemma AssignHas(slots: seq<Slot<Tree>>, slot: Slot<Tree>)
    requires DistinctLabels(slots)
    ensures slot in Assign(slots, slot)
    ensures forall x :: x in slots && x.at != slot.at ==> x in Assign(slots, slot)
  {
    AssignAt(slots, slot);
    var after := Assign(slots, slot);
    forall x | x in slots && x.at != slot.at ensures x in after {
      var i :| 0 <= i < |slots| && slots[i] == x;
      assert after[i] == x;
    }
    if |after| == |slots| {
      var i :| 0 <= i < |slots| && slots[i].at == slot.at;
      assert after[i] == slot;
    } else {
      assert after[|slots|] == slot;
    }
  }

  lemma {:induction false} AssignAllHas(base: seq<Slot<Tree>>, more: seq<Slot<Tree>>, x: Slot<Tree>)
    requires DistinctLabels(base) && DistinctLabels(more)
    requires x in more || (x in base && forall y :: y in more ==> y.at != x.at)
    ensures x in AssignAll(base, more)
    decreases |more|
  {
    if more != [] {
      var init, last := more[..|more| - 1], more[|more| - 1];
      AssignAllAt(base, init);
      AssignHas(AssignAll(base, init), last);
      if x != last {
        LabelsBeforeLast(more, x);
        AssignAllHas(base, init, x);
      }
    }
  }

  lemma LabelsBeforeLast(more: seq<Slot<Tree>>, x: Slot<Tree>)
    requires more != [] && DistinctLabels(more) && x != more[|more| - 1]
    ensures DistinctLabels(more[..|more| - 1])
    ensures x in more ==> x in more[..|more| - 1] && x.at != more[|more| - 1].at
    ensures (forall y :: y in more ==> y.at != x.at) ==>
              x.at != more[|more| - 1].at && forall y :: y in more[..|more| - 1] ==> y.at != x.at
  {
    assert more == more[..|more| - 1] + [more[|more| - 1]];
  }

  lemma {:induction false} PropertyFits(
      rules: Policy, h: Heap, kind: Kind, slots: seq<Slot<Value>>, own: seq<Tree>, all: seq<Slot<Tree>>, i: nat,
      seen: set<Ref>)
    requires kind.ErrorOf? && i < |slots| && |own| == |slots|
    requires FittingKids(rules, h, kind, Visited(kind, slots), |Visited(kind, slots)| - |slots|, own, seen)
    requires forall x :: x in Zip(slots, own) ==> x in all
    ensures exists j :: 0 <= j < |all| && all[j].at == slots[i].at
                        && KidFits(rules, h, kind, slots[i], all[j].value,
                                   PropertyMoment(rules, h, kind, slots, i, seen))
  {
    OwnSlots(kind, slots);
    assert Zip(slots, own)[i] in Zip(slots, own);
    var j :| 0 <= j < |all| && all[j] == Slot(slots[i].at, own[i]);
    assert Visited(kind, slots)[|Visited(kind, slots)| - |slots| + i] == slots[i];
  }

  lemma ZipLabels(slots: seq<Slot<Value>>, own: seq<Tree>, name: Property)
    requires |slots| == |own| && DistinctLabels(slots)
    ensures DistinctLabels(Zip(slots, own))
    ensures FieldOf(slots, name).None? ==> forall y :: y in Zip(slots, own) ==> y.at != Field(name)
  {
    FieldOfAt(slots, name);
  }

  lemma LastKidsFit(rules: Policy, h: Heap, kind: Kind, all: seq<Slot<Value>>, kids: seq<Tree>, n: nat, seen: set<Ref>)
    requires FittingKids(rules, h, kind, all, 0, kids, seen) && n <= |kids|
    ensures FittingKids(rules, h, kind, all, n, kids[n..], seen)
  {
    forall i | 0 <= i < |kids| - n
      ensures KidFits(rules, h, kind, all[n + i], kids[n..][i], Moment(rules, h, kind, all, n + i, seen))
    {
      assert KidFits(rules, h, kind, all[0 + (n + i)], kids[n + i], Moment(rules, h, kind, all, 0 + (n + i), seen));
    }
  }

  lemma {:induction false} CauseFits(
      rules: Policy, h: Heap, kind: Kind, slots: seq<Slot<Value>>, kids: seq<Tree>, t: Tree, seen: set<Ref>)
    requires kind.ErrorOf? && FittingKids(rules, h, kind, Visited(kind, slots), 0, kids, seen)
             && CauseOf(kind, slots).Some?
    requires t.TNode? && Slot(Field(Cause), kids[0]) in t.slots
    ensures HiddenCauseFits(rules, h, kind, slots, t, seen)
  {
    var all := Visited(kind, slots);
    assert KidFits(rules, h, kind, all[0 + 0], kids[0], Moment(rules, h, kind, all, 0 + 0, seen));
    assert all[..0] == [];
    var j :| 0 <= j < |t.slots| && t.slots[j] == Slot(Field(Cause), kids[0]);
  }

  lemma {:induction false} ErrorPropertiesFit(
      rules: Policy, h: Heap, kind: Kind, slots: seq<Slot<Value>>, kids: seq<Tree>, t: Tree, seen: set<Ref>)
    requires kind.ErrorOf? && t.TNode? && FittingKids(rules, h, kind, Visited(kind, slots), 0, kids, seen)
    requires forall x :: x in Zip(slots, kids[|kids| - |slots|..]) ==> x in t.slots
    ensures PropertiesFit(rules, h, kind, slots, t, seen)
  {
    LastKidsFit(rules, h, kind, Visited(kind, slots), kids, |kids| - |slots|, seen);
    forall i | 0 <= i < |slots|
      ensures exists j :: 0 <= j < |t.slots| && t.slots[j].at == slots[i].at
                          && KidFits(rules, h, kind, slots[i], t.slots[j].value,
                                     PropertyMoment(rules, h, kind, slots, i, seen))
    {
      PropertyFits(rules, h, kind, slots, kids[|kids| - |slots|..], t.slots, i, seen);
    }
  }

  lemma {:induction false} LabelsOfAssign(slots: seq<Slot<Tree>>, slot: Slot<Tree>)
    ensures Labels(Assign(slots, slot)) ==
            if slot.at in Labels(slots) then Labels(slots) else Labels(slots) + [slot.at]
    decreases |slots|
  {
    if slots != [] {
      assert Labels(slots) == [slots[0].at] + Labels(slots[1..]);
      if slots[0].at != slot.at {
        LabelsOfAssign(slots[1..], slot);
        assert Labels(Assign(slots, slot)) == [slots[0].at] + Labels(Assign(slots[1..], slot));
      } else {
        assert Labels(Assign(slots, slot)) == Labels(slots);
      }
    }
  }

  lemma {:induction false} LabelsOfAssignAll(base: seq<Slot<Tree>>, more: seq<Slot<Tree>>)
    ensures Labels(AssignAll(base, more)) == WrittenAfter(Labels(base), Labels(more))
    decreases |more|
  {
    if more != [] {
      var init := more[..|more| - 1];
      LabelsOfAssignAll(base, init);
      LabelsOfAssign(AssignAll(base, init), more[|more| - 1]);
      assert Labels(more)[..|more| - 1] == Labels(init);
    }
  }

  lemma LabelsOfError(kind: Kind, slots: seq<Slot<Value>>, kids: seq<Tree>)
    requires kind.ErrorOf? && |kids| == |Visited(kind, slots)|
    ensures Labels(AssignAll(ErrorBase(kind, slots, kids), Zip(slots, kids[|kids| - |slots|..]))) ==
            ErrorLabels(kind, slots)
  {
    var base, z := ErrorBase(kind, slots, kids), Zip(slots, kids[|kids| - |slots|..]);
    LabelsOfAssignAll(base, z);
    assert Labels(z) == Labels(slots);
    assert Labels(base) == (if CauseOf(kind, slots).Some? then [Field(Cause)] else []) + [Field(Name)];
  }

  /** What an Error's copy holds: its properties, and of what was there first only what none of them
      has replaced. */
  lemma {:induction false} ErrorCopyHas(kind: Kind, slots: seq<Slot<Value>>, kids: seq<Tree>, all: seq<Slot<Tree>>)
    requires kind.ErrorOf? && DistinctLabels(slots) && |kids| == |Visited(kind, slots)|
    requires all == AssignAll(ErrorBase(kind, slots, kids), Zip(slots, kids[|kids| - |slots|..]))
    ensures forall x :: x in Zip(slots, kids[|kids| - |slots|..]) ==> x in all
    ensures CauseOf(kind, slots).Some? && FieldOf(slots, Cause).None? ==>
            |kids| > 0 && Slot(Field(Cause), kids[0]) in all
    ensures FieldOf(slots, Name).None? ==> Slot(Field(Name), TStr(NameOf(kind, slots))) in all
  {
    var base, z := ErrorBase(kind, slots, kids), Zip(slots, kids[|kids| - |slots|..]);
    ZipLabels(slots, kids[|kids| - |slots|..], Cause);
    ZipLabels(slots, kids[|kids| - |slots|..], Name);
    assert DistinctLabels(base);
    forall x | x in z ensures x in all {
      AssignAllHas(base, z, x);
    }
    if CauseOf(kind, slots).Some? && FieldOf(slots, Cause).None? {
      AssignAllHas(base, z, base[0]);
    }
    if FieldOf(slots, Name).None? {
      AssignAllHas(base, z, Slot(Field(Name), TStr(NameOf(kind, slots))));
    }
  }

  lemma {:induction false} ErrorCopyFits(
      rules: Policy, h: Heap, kind: Kind, slots: seq<Slot<Value>>, kids: seq<Tree>, t: Tree, seen: set<Ref>)
    requires kind.ErrorOf? && DistinctLabels(slots) && FittingKids(rules, h, kind, Visited(kind, slots), 0, kids, seen)
    requires t == CopyOf(rules, kind, slots, kids)
    ensures ErrorFits(rules, h, kind, slots, t, seen)
  {
    LabelsOfError(kind, slots, kids);
    ErrorCopyHas(kind, slots, kids, t.slots);
    ErrorPropertiesFit(rules, h, kind, slots, kids, t, seen);
    if CauseOf(kind, slots).Some? && FieldOf(slots, Cause).None? {
      CauseFits(rules, h, kind, slots, kids, t, seen);
    }
  }

  // ---- the theorem --------------------------------------------------------------------

  lemma InOrderCopyFits(
      rules: Policy, h: Heap, kind: Kind, slots: seq<Slot<Value>>, kids: seq<Tree>, t: Tree, seen: set<Ref>)
    requires FittingKids(rules, h, kind, slots, 0, kids, seen) && t == TNode(kind, Zip(slots, kids))
    ensures InOrderFits(rules, h, kind, slots, t, seen)
  {
    forall i | 0 <= i < |slots|
      ensures KidFits(rules, h, kind, slots[i], t.slots[i].value, Moment(rules, h, kind, slots, i, seen))
    {
      assert KidFits(rules, h, kind, slots[0 + i], kids[i], Moment(rules, h, kind, slots, 0 + i, seen));
    }
  }

  lemma {:induction false} CopyFits(rules: Policy, h: Heap, r: Ref, kids: seq<Tree>, seen: set<Ref>)
    requires r in h && h[r].Node? && (h[r].kind.ErrorOf? ==> DistinctLabels(h[r].slots)) && r !in seen
    requires FittingKids(rules, h, h[r].kind, Visited(h[r].kind, h[r].slots), 0, kids, seen + {r})
    ensures Fits(rules, h, Obj(r), CopyOf(rules, h[r].kind, h[r].slots, kids), seen)
  {
    var kind, slots := h[r].kind, h[r].slots;
    var t := CopyOf(rules, kind, slots, kids);
    match kind
    case SetOf => SetCopyFits(rules, h, slots, kids, t, seen + {r});
    case ErrorOf(_, _, _, _, _) => ErrorCopyFits(rules, h, kind, slots, kids, t, seen + {r});
    case _ => InOrderCopyFits(rules, h, kind, slots, kids, t, seen + {r});
  }

  lemma OneMoreFits(
      rules: Policy, h: Heap, kind: Kind, slots: seq<Slot<Value>>, kids: seq<Tree>, kid: Tree, seen: set<Ref>)
    requires slots != [] && FittingKids(rules, h, kind, slots[..|slots| - 1], 0, kids, seen)
    requires KidFits(rules, h, kind, slots[|slots| - 1], kid, Moment(rules, h, kind, slots, |slots| - 1, seen))
    ensures FittingKids(rules, h, kind, slots, 0, kids + [kid], seen)
  {
    var init := slots[..|slots| - 1];
    forall i | 0 <= i < |kids|
      ensures KidFits(rules, h, kind, slots[0 + i], (kids + [kid])[i], Moment(rules, h, kind, slots, 0 + i, seen))
    {
      assert KidFits(rules, h, kind, init[0 + i], kids[i], Moment(rules, h, kind, init, 0 + i, seen));
      assert init[..i] == slots[..i];
    }
  }

  /** Every output is a copy of its input in this sense, with the sharing exactly the source's: an
      object is cut if and only if a place visited earlier, at its own moment, had met it. */
  lemma {:induction false} SanitizedFits(rules: Policy, h: Heap, v: Value, seen: set<Ref>)
    requires WellFormed(h)
    ensures Fits(rules, h, v, San(rules, h, v, seen).tree, seen)
    decreases h.Keys - seen, 0
  {
    if Leads(h, v) && v.ref !in seen {
      var kind, slots := h[v.ref].kind, h[v.ref].slots;
      assert v.ref in h.Keys - seen && v.ref !in h.Keys - (seen + {v.ref});
      SanitizedSlotsFit(rules, h, kind, Visited(kind, slots), seen + {v.ref});
      CopyFits(rules, h, v.ref, SanSlots(rules, h, kind, Visited(kind, slots), seen + {v.ref}).kids, seen);
    }
  }

  lemma {:induction false} SanitizedSlotsFit(
      rules: Policy, h: Heap, kind: Kind, slots: seq<Slot<Value>>, seen: set<Ref>)
    requires WellFormed(h)
    ensures FittingKids(rules, h, kind, slots, 0, SanSlots(rules, h, kind, slots, seen).kids, seen)
    decreases h.Keys - seen, |slots|
  {
    if slots != [] {
      var init, last := slots[..|slots| - 1], slots[|slots| - 1];
      SanitizedSlotsFit(rules, h, kind, init, seen);
      var so := SanSlots(rules, h, kind, init, seen);
      assert h.Keys - so.seen <= h.Keys - seen;
      SlotsSeenIsAfter(rules, h, kind, init, seen);
      SanitizedFits(rules, h, last.value, so.seen);
      OneMoreFits(rules, h, kind, slots, so.kids,
                  if Hidden(rules, kind, last.at) then TStr(rules.hidden)
                  else San(rules, h, last.value, so.seen).tree, seen);
    }
  }

  // ---- nothing else fits --------------------------------------------------------------

  ghost predicate Distinct(labels: seq<Label>) {
    forall i, j :: 0 <= i < j < |labels| ==> labels[i] != labels[j]
  }

  lemma {:induction false} WrittenOnce(labels: seq<Label>, more: seq<Label>)
    requires Distinct(labels)
    ensures Distinct(WrittenAfter(labels, more))
    ensures forall x :: x in WrittenAfter(labels, more) ==> x in labels || x in more
    decreases |more|
  {
    if more != [] {
      WrittenOnce(labels, more[..|more| - 1]);
    }
  }

  lemma NoLabelOf(slots: seq<Slot<Value>>, x: Label)
    requires forall i :: 0 <= i < |slots| ==> slots[i].at != x
    ensures x !in Labels(slots)
  {
  }

  lemma {:induction false} NoFieldOf(slots: seq<Slot<Value>>, name: Property)
    requires DistinctLabels(slots) && forall i :: 0 <= i < |slots| ==> slots[i].at != Field(name)
    ensures FieldOf(slots, name).None?
  {
    FieldOfAt(slots, name);
  }

  lemma ErrorLabelsAreDistinct(kind: Kind, slots: seq<Slot<Value>>)
    requires kind.ErrorOf?
    ensures Distinct(ErrorLabels(kind, slots))
  {
    WrittenOnce((if CauseOf(kind, slots).Some? then [Field(Cause)] else []) + [Field(Name)], Labels(slots));
  }

  /** A property of an Error's copy that none of the original's is: the hidden cause, or the name. */
  lemma {:induction false} OtherErrorLabel(kind: Kind, slots: seq<Slot<Value>>, x: Label)
    requires kind.ErrorOf? && DistinctLabels(slots)
    requires forall i :: 0 <= i < |slots| ==> slots[i].at != x
    ensures x in ErrorLabels(kind, slots) ==>
              || (x == Field(Cause) && CauseOf(kind, slots).Some? && FieldOf(slots, Cause).None?)
              || (x == Field(Name) && FieldOf(slots, Name).None?)
  {
    var base := (if CauseOf(kind, slots).Some? then [Field(Cause)] else []) + [Field(Name)];
    WrittenOnce(base, Labels(slots));
    NoLabelOf(slots, x);
    if x == Field(Name) {
      NoFieldOf(slots, Name);
    } else if x == Field(Cause) {
      NoFieldOf(slots, Cause);
    }
  }

  lemma OneOfALabel(t: Tree, labels: seq<Label>, i: nat, j: nat)
    requires t.TNode? && Labels(t.slots) == labels && Distinct(labels) && i < |labels| && j < |labels|
    requires t.slots[i].at == t.slots[j].at
    ensures i == j
  {
    assert Labels(t.slots)[i] == labels[i] && Labels(t.slots)[j] == labels[j];
  }

  lemma {:induction false} OneKidFits(
      rules: Policy, h: Heap, kind: Kind, slot: Slot<Value>, t: Tree, u: Tree, seen: set<Ref>)
    requires WellFormed(h) && KidFits(rules, h, kind, slot, t, seen) && KidFits(rules, h, kind, slot, u, seen)
    ensures t == u
    decreases t, 3
  {
    if !Hidden(rules, kind, slot.at) {
      OneFits(rules, h, slot.value, t, u, seen);
    }
  }

  /** Of one value, at one moment, there is one copy. */
  lemma {:induction false} OneFits(rules: Policy, h: Heap, v: Value, t: Tree, u: Tree, seen: set<Ref>)
    requires WellFormed(h) && Fits(rules, h, v, t, seen) && Fits(rules, h, v, u, seen)
    ensures t == u
    decreases t, 2
  {
    if Leads(h, v) && v.ref !in seen {
      var kind, slots := h[v.ref].kind, h[v.ref].slots;
      match kind
      case SetOf => OneSetFits(rules, h, slots, t, u, seen + {v.ref});
      case ErrorOf(_, _, _, _, _) => OneErrorFits(rules, h, kind, slots, t, u, seen + {v.ref});
      case _ => OneInOrderFits(rules, h, kind, slots, t, u, seen + {v.ref});
    }
  }

  lemma {:induction false} OneInOrderFits(
      rules: Policy, h: Heap, kind: Kind, slots: seq<Slot<Value>>, t: Tree, u: Tree, seen: set<Ref>)
    requires WellFormed(h) && t.TNode? && u.TNode?
    requires InOrderFits(rules, h, kind, slots, t, seen) && InOrderFits(rules, h, kind, slots, u, seen)
    ensures t.slots == u.slots
    decreases t, 1
  {
    forall i | 0 <= i < |slots| ensures t.slots[i] == u.slots[i] {
      OneKidFits(rules, h, kind, slots[i], t.slots[i].value, u.slots[i].value, Moment(rules, h, kind, slots, i, seen));
    }
  }

  lemma {:induction false} OneSetFits(rules: Policy, h: Heap, slots: seq<Slot<Value>>, t: Tree, u: Tree, seen: set<Ref>)
    requires WellFormed(h) && t.TNode? && u.TNode?
    requires MembersFit(rules, h, slots, t, seen) && MembersFit(rules, h, slots, u, seen)
    ensures t.slots == u.slots
    decreases t, 1
  {
    var p: seq<nat> :| MembersAt(rules, h, slots, t, p, seen);
    var q: seq<nat> :| MembersAt(rules, h, slots, u, q, seen);
    forall i | 0 <= i < |slots| ensures t.slots[p[i]].value == u.slots[q[i]].value {
      OneFits(rules, h, slots[i].value, t.slots[p[i]].value, u.slots[q[i]].value,
              Moment(rules, h, SetOf, slots, i, seen));
    }
    assert Picked(t.slots, p) == Picked(u.slots, q);
  }

  lemma {:induction false} OnePropertyFits(
      rules: Policy, h: Heap, kind: Kind, slots: seq<Slot<Value>>, t: Tree, u: Tree, seen: set<Ref>, i: nat, j: nat)
    requires WellFormed(h) && kind.ErrorOf? && DistinctLabels(slots) && t.TNode? && u.TNode?
    requires ErrorFits(rules, h, kind, slots, t, seen) && ErrorFits(rules, h, kind, slots, u, seen)
    requires i < |slots| && j < |t.slots| && |u.slots| == |t.slots|
    requires t.slots[j].at == slots[i].at && u.slots[j].at == slots[i].at
    ensures t.slots[j] == u.slots[j]
    decreases t, 0
  {
    var labels, moment := ErrorLabels(kind, slots), PropertyMoment(rules, h, kind, slots, i, seen);
    ErrorLabelsAreDistinct(kind, slots);
    var a :| 0 <= a < |t.slots| && t.slots[a].at == slots[i].at
             && KidFits(rules, h, kind, slots[i], t.slots[a].value, moment);
    var b :| 0 <= b < |u.slots| && u.slots[b].at == slots[i].at
             && KidFits(rules, h, kind, slots[i], u.slots[b].value, moment);
    OneOfALabel(t, labels, a, j);
    OneOfALabel(u, labels, b, j);
    OneKidFits(rules, h, kind, slots[i], t.slots[j].value, u.slots[j].value, moment);
  }

  lemma {:induction false} OneCauseFits(
      rules: Policy, h: Heap, kind: Kind, slots: seq<Slot<Value>>, t: Tree, u: Tree, seen: set<Ref>, j: nat)
    requires WellFormed(h) && kind.ErrorOf? && DistinctLabels(slots) && t.TNode? && u.TNode?
    requires ErrorFits(rules, h, kind, slots, t, seen) && ErrorFits(rules, h, kind, slots, u, seen)
    requires CauseOf(kind, slots).Some? && FieldOf(slots, Cause).None?
    requires j < |t.slots| && |u.slots| == |t.slots| && t.slots[j].at == u.slots[j].at == Field(Cause)
    ensures t.slots[j] == u.slots[j]
    decreases t, 0
  {
    var labels, cause := ErrorLabels(kind, slots), CauseOf(kind, slots).value;
    ErrorLabelsAreDistinct(kind, slots);
    var a :| 0 <= a < |t.slots| && t.slots[a].at == Field(Cause) && Fits(rules, h, cause, t.slots[a].value, seen);
    var b :| 0 <= b < |u.slots| && u.slots[b].at == Field(Cause) && Fits(rules, h, cause, u.slots[b].value, seen);
    OneOfALabel(t, labels, a, j);
    OneOfALabel(u, labels, b, j);
    OneFits(rules, h, cause, t.slots[j].value, u.slots[j].value, seen);
  }

  lemma OneNameFits(kind: Kind, slots: seq<Slot<Value>>, t: Tree, j: nat)
    requires kind.ErrorOf? && DistinctLabels(slots) && t.TNode? && Labels(t.slots) == ErrorLabels(kind, slots)
    requires Slot(Field(Name), TStr(NameOf(kind, slots))) in t.slots
    requires j < |t.slots| && t.slots[j].at == Field(Name)
    ensures t.slots[j] == Slot(Field(Name), TStr(NameOf(kind, slots)))
  {
    ErrorLabelsAreDistinct(kind, slots);
    var a :| 0 <= a < |t.slots| && t.slots[a] == Slot(Field(Name), TStr(NameOf(kind, slots)));
    OneOfALabel(t, ErrorLabels(kind, slots), a, j);
  }

  lemma {:induction false} OneErrorFits(
      rules: Policy, h: Heap, kind: Kind, slots: seq<Slot<Value>>, t: Tree, u: Tree, seen: set<Ref>)
    requires WellFormed(h) && kind.ErrorOf? && DistinctLabels(slots) && t.TNode? && u.TNode?
    requires ErrorFits(rules, h, kind, slots, t, seen) && ErrorFits(rules, h, kind, slots, u, seen)
    ensures t.slots == u.slots
    decreases t, 1
  {
    var labels := ErrorLabels(kind, slots);
    assert |Labels(t.slots)| == |Labels(u.slots)|;
    forall j | 0 <= j < |t.slots| ensures t.slots[j] == u.slots[j] {
      assert t.slots[j].at == labels[j] == u.slots[j].at && labels[j] in labels;
      if i :| 0 <= i < |slots| && slots[i].at == labels[j] {
        OnePropertyFits(rules, h, kind, slots, t, u, seen, i, j);
      } else {
        OtherErrorLabel(kind, slots, labels[j]);
        if labels[j] == Field(Name) {
          OneNameFits(kind, slots, t, j);
          OneNameFits(kind, slots, u, j);
        } else {
          OneCauseFits(rules, h, kind, slots, t, u, seen, j);
        }
      }
    }
  }

  /** The traversal's output is the only copy there is: a tree is a copy of the value at that moment if
      and only if it is what the traversal returns. */
  lemma FitsIff(rules: Policy, h: Heap, v: Value, t: Tree, seen: set<Ref>)
    requires WellFormed(h)
    ensures Fits(rules, h, v, t, seen) <==> t == San(rules, h, v, seen).tree
  {
    SanitizedFits(rules, h, v, seen);
    if Fits(rules, h, v, t, seen) {
      OneFits(rules, h, v, t, San(rules, h, v, seen).tree, seen);
    }
  }
}
