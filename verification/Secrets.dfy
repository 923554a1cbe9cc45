// What the sanitizer makes of a record and of an Error under the policy the code runs with, field by
// field: the names of secrets, the two markers, and the parts of an Error.
module Secrets {
  import opened Options
  import opened Sanitizer
  import opened Resanitizing
  import opened Fidelity
  import opened SensitiveKeys

  /** The name of the field is the name of a secret. */
  ghost predicate Secret(name: Property) {
    match name
    case Cause => false
    case Name => false
    case Other(text) => NamesASecret(Normalized(text))
  }

  lemma SecretIff(name: Property)
    ensures IsSensitive(name) <==> Secret(name)
  {
    match name
    case Cause => ErrorNamesAreKept();
    case Name => ErrorNamesAreKept();
    case Other(text) => SensitiveIff(text);
  }

  /** What stands where the field was: the marker if it is a secret, and otherwise a text redacted. */
  ghost predicate ShownAs(redact: string -> string, slot: Slot<Value>, name: Property, kid: Tree) {
    && (Secret(name) ==> kid == TStr("[REDACTED]"))
    && (!Secret(name) && slot.value.Str? ==> kid == TStr(redact(slot.value.text)))
    && (!Secret(name) && slot.value.Prim? ==> kid == TPrim(slot.value.code))
  }

  lemma {:induction false} KidShows(
      redact: string -> string, h: Heap, kind: Kind, slot: Slot<Value>, name: Property, kid: Tree, seen: set<Ref>)
    requires (kind.Record? || kind.ErrorOf?) && slot.at == Field(name)
    requires KidFits(Standard(redact), h, kind, slot, kid, seen)
    ensures ShownAs(redact, slot, name, kid)
  {
    SecretIff(name);
  }

  /** In a record's copy every field that names a secret holds the marker, wherever the record was found
      and whatever the field held, and every other text or primitive is shown. */
  lemma {:induction false} RecordShows(
      redact: string -> string, h: Heap, r: Ref, seen: set<Ref>, i: nat, name: Property)
    requires WellFormed(h) && r !in seen && r in h && h[r].Node? && h[r].kind == Record
    requires i < |h[r].slots| && h[r].slots[i].at == Field(name)
    ensures var t := San(Standard(redact), h, Obj(r), seen).tree;
            && t.TNode? && t.kind == Record && |t.slots| == |h[r].slots|
            && t.slots[i].at == Field(name) && ShownAs(redact, h[r].slots[i], name, t.slots[i].value)
  {
    var slots, t := h[r].slots, San(Standard(redact), h, Obj(r), seen).tree;
    SanitizedFits(Standard(redact), h, Obj(r), seen);
    var moment := Moment(Standard(redact), h, Record, slots, i, seen + {r});
    assert KidFits(Standard(redact), h, Record, slots[i], t.slots[i].value, moment);
    KidShows(redact, h, Record, slots[i], name, t.slots[i].value, moment);
  }

  lemma PropertyPlace(rules: Policy, h: Heap, r: Ref, seen: set<Ref>, i: nat) returns (j: nat)
    requires WellFormed(h) && r !in seen && r in h && h[r].Node? && h[r].kind.ErrorOf? && i < |h[r].slots|
    ensures var t := San(rules, h, Obj(r), seen).tree;
            && t.TNode? && j < |t.slots| && t.slots[j].at == h[r].slots[i].at
            && KidFits(rules, h, h[r].kind, h[r].slots[i], t.slots[j].value,
                       PropertyMoment(rules, h, h[r].kind, h[r].slots, i, seen + {r}))
  {
    SanitizedFits(rules, h, Obj(r), seen);
    var t := San(rules, h, Obj(r), seen).tree;
    assert PropertiesFit(rules, h, h[r].kind, h[r].slots, t, seen + {r});
    j :| 0 <= j < |t.slots| && t.slots[j].at == h[r].slots[i].at
         && KidFits(rules, h, h[r].kind, h[r].slots[i], t.slots[j].value,
                    PropertyMoment(rules, h, h[r].kind, h[r].slots, i, seen + {r}));
  }

  /** So it is with the properties of an Error. */
  lemma ErrorShows(redact: string -> string, h: Heap, r: Ref, seen: set<Ref>, i: nat, name: Property)
    returns (j: nat)
    requires WellFormed(h) && r !in seen && r in h && h[r].Node? && h[r].kind.ErrorOf?
    requires i < |h[r].slots| && h[r].slots[i].at == Field(name)
    ensures var t := San(Standard(redact), h, Obj(r), seen).tree;
            && t.TNode? && j < |t.slots| && t.slots[j].at == Field(name)
            && ShownAs(redact, h[r].slots[i], name, t.slots[j].value)
  {
    j := PropertyPlace(Standard(redact), h, r, seen, i);
    var t := San(Standard(redact), h, Obj(r), seen).tree;
    var moment := PropertyMoment(Standard(redact), h, h[r].kind, h[r].slots, i, seen + {r});
    KidShows(redact, h, h[r].kind, h[r].slots[i], name, t.slots[j].value, moment);
  }

  /** What an Error's copy has besides its properties: its class, its message and its stack redacted, no
      stack when it had none or an empty one, and no cause hidden from enumeration. */
  lemma ErrorPartsAre(redact: string -> string, h: Heap, r: Ref, seen: set<Ref>)
    requires r !in seen && r in h && h[r].Node? && h[r].kind.ErrorOf?
    ensures var kind, t := h[r].kind, San(Standard(redact), h, Obj(r), seen).tree;
            && t.TNode? && t.kind.ErrorOf?
            && t.kind.cls == kind.cls && t.kind.protoName == kind.protoName
            && t.kind.message == redact(kind.message) && t.kind.hiddenCause == None
            && (kind.stack == None || kind.stack == Some("") ==> t.kind.stack == None)
            && (kind.stack != None && kind.stack != Some("") ==> t.kind.stack == Some(redact(kind.stack.value)))
  {
  }

  /** An object met before is the marker, in whatever place it stands. */
  lemma RepeatIsMarked(redact: string -> string, h: Heap, r: Ref, seen: set<Ref>)
    requires r in seen
    ensures San(Standard(redact), h, Obj(r), seen) == Out(TStr("[Circular]"), seen)
  {
  }

  // ---- Sets ---------------------------------------------------------------------------

  ghost predicate IsPlain(t: Tree) {
    t.TStr? || t.TPrim?
  }

  lemma AddedIff(kids: seq<Tree>, t: Tree)
    ensures Slot(Item, t) in AddAll(kids) <==> t in kids
  {
    if Slot(Item, t) in AddAll(kids) {
      AddAllElements(kids, Slot(Item, t));
    }
    if t in kids {
      var i :| 0 <= i < |kids| && kids[i] == t;
      AddAllHas(kids, i);
    }
  }

  /** A Set's copy takes each member's copy behind the ones before, but for a text or a primitive that is
      among them already. */
  lemma AddedUnlessThere(kids: seq<Tree>, t: Tree)
    ensures AddAll(kids + [t]) ==
            if IsPlain(t) && t in kids then AddAll(kids) else AddAll(kids) + [Slot(Item, t)]
  {
    AddedIff(kids, t);
    assert (kids + [t])[..|kids|] == kids;
  }

  ghost predicate NoTwins(slots: seq<Slot<Tree>>) {
    forall i, j :: 0 <= i < j < |slots| && IsPlain(slots[i].value) ==> slots[i].value != slots[j].value
  }

  lemma {:induction false} AddedHaveNoTwins(kids: seq<Tree>)
    ensures NoTwins(AddAll(kids)) && forall x :: x in AddAll(kids) ==> x.at == Item
    decreases |kids|
  {
    if kids != [] {
      AddedHaveNoTwins(kids[..|kids| - 1]);
    }
  }

  /** So no text and no primitive stands twice in it. */
  lemma {:induction false} SetHasNoTwins(rules: Policy, h: Heap, r: Ref, seen: set<Ref>)
    requires r !in seen && r in h && h[r].Node? && h[r].kind == SetOf
    ensures var t := San(rules, h, Obj(r), seen).tree;
            t.TNode? && t.kind == SetOf && NoTwins(t.slots)
  {
    AddedHaveNoTwins(SanSlots(rules, h, SetOf, h[r].slots, seen + {r}).kids);
  }

  // ---- the whole output ---------------------------------------------------------------

  /** Wherever in a copy a record or an Error has a field that names a secret, the field holds the marker. */
  ghost predicate Hides(t: Tree)
    decreases t, 1
  {
    match t
    case TNode(kind, slots) => forall i :: 0 <= i < |slots| ==> SlotHides(kind, slots[i])
    case _ => true
  }

  ghost predicate SlotHides(kind: Kind, slot: Slot<Tree>)
    decreases slot, 0
  {
    && (kind.Record? || kind.ErrorOf? ==>
        slot.at.Field? && slot.at.name.Other? && NamesASecret(Normalized(slot.at.name.text)) ==>
        slot.value == TStr("[REDACTED]"))
    && Hides(slot.value)
  }

  lemma {:induction false} CleanHides(redact: string -> string, t: Tree)
    requires Clean(Standard(redact), t)
    ensures Hides(t)
    decreases t
  {
    if t.TNode? {
      forall i | 0 <= i < |t.slots| ensures SlotHides(t.kind, t.slots[i]) {
        var slot := t.slots[i];
        assert CleanSlot(Standard(redact), t.kind, slot);
        if slot.at.Field? {
          SecretIff(slot.at.name);
        }
        if !slot.value.TStr? {
          CleanHides(redact, slot.value);
        }
      }
    }
  }

  /** So it is in the whole output, at every depth, whatever the objects and whatever was met before. */
  lemma OutputHides(redact: string -> string, h: Heap, v: Value, seen: set<Ref>)
    requires WellRedacting(Standard(redact))
    ensures Hides(San(Standard(redact), h, v, seen).tree)
  {
    SanitizedIsClean(Standard(redact), h, v, seen);
    CleanHides(redact, San(Standard(redact), h, v, seen).tree);
  }
}
