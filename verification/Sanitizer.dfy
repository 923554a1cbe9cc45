// The sanitizer of log and audit data: a traversal of a heap that may share objects and contain
// cycles, threading the set of objects already met. Its output is a tree: an object met before
// becomes a string, never a reference to an earlier copy.
module Sanitizer {
  import opened Options
  import SensitiveKeys

  type Ref = nat

  // What the traversal looks up: how a text is redacted, which keys are sensitive, and the two
  // markers, for a hidden field and for an object met before.
  datatype Policy = Policy(redact: string -> string, sensitive: Property -> bool, hidden: string, cut: string)

  const REDACTED := "[REDACTED]"
  const CIRCULAR := "[Circular]"
  const UNDEFINED := 0

  // Values of the source heap. A Prim is any value that is neither a string nor an object
  // (number, boolean, null, undefined, symbol, function), told apart by a code.
  datatype Value = Prim(code: int) | Str(text: string) | Obj(ref: Ref)

  // A property's name. The two an Error is read by stand apart: `Other` is any other name.
  datatype Property = Cause | Name | Other(text: string)

  function TextOf(name: Property): string {
    match name
    case Cause => SensitiveKeys.CAUSE
    case Name => SensitiveKeys.NAME
    case Other(text) => text
  }

  // How a child hangs in its parent: under a property name, at a position, or under a map key
  // (which the copy keeps as it is).
  datatype Label = Field(name: Property) | Item | MapKey(key: Value)

  // An Error keeps its message, stack and inherited name outside its enumerable properties, and
  // its cause there too when it was given to the constructor.
  datatype Kind =
    | Record
    | Array
    | SetOf
    | MapOf
    | ErrorOf(cls: int, message: string, stack: Option<string>, protoName: string, hiddenCause: Option<Value>)

  datatype Slot<V> = Slot(at: Label, value: V)

  datatype Cell = Date(time: int) | Node(kind: Kind, slots: seq<Slot<Value>>)

  type Heap = map<Ref, Cell>

  // Copies.
  datatype Tree = TPrim(code: int) | TStr(text: string) | TDate(time: int) | TNode(kind: Kind, slots: seq<Slot<Tree>>)

  datatype Out = Out(tree: Tree, seen: set<Ref>)
  datatype Outs = Outs(kids: seq<Tree>, seen: set<Ref>)

  // ---- reading an Error ---------------------------------------------------------------

  /** The value of an enumerable property, the last one written under that name. */
  function FieldOf<V>(slots: seq<Slot<V>>, name: Property): Option<V> {
    if slots == [] then None
    else if slots[|slots| - 1].at == Field(name) then Some(slots[|slots| - 1].value)
    else FieldOf(slots[..|slots| - 1], name)
  }

  function CauseOf(kind: Kind, slots: seq<Slot<Value>>): Option<Value>
    requires kind.ErrorOf?
  {
    var own := FieldOf(slots, Cause);
    var cause := if own.Some? then own else kind.hiddenCause;
    if cause == Some(Prim(UNDEFINED)) then None else cause
  }

  function NameOf(kind: Kind, slots: seq<Slot<Value>>): string
    requires kind.ErrorOf?
  {
    var own := FieldOf(slots, Name);
    if own.Some? && own.value.Str? then own.value.text else kind.protoName
  }

  /** The children a copy is made of, in the order they are visited: an Error's cause comes first,
      and is visited again if it is an enumerable property. */
  function Visited(kind: Kind, slots: seq<Slot<Value>>): seq<Slot<Value>> {
    if kind.ErrorOf? && CauseOf(kind, slots).Some? then [Slot(Item, CauseOf(kind, slots).value)] + slots else slots
  }

  predicate Hidden(rules: Policy, kind: Kind, at: Label) {
    (kind.Record? || kind.ErrorOf?) && at.Field? && rules.sensitive(at.name)
  }

  // ---- building a copy ----------------------------------------------------------------

  /** Property assignment: in place when the property exists, otherwise at the end. */
  function Assign(slots: seq<Slot<Tree>>, slot: Slot<Tree>): seq<Slot<Tree>> {
    if slots == [] then [slot]
    else if slots[0].at == slot.at then [slot] + slots[1..]
    else [slots[0]] + Assign(slots[1..], slot)
  }

  function AssignAll(slots: seq<Slot<Tree>>, more: seq<Slot<Tree>>): seq<Slot<Tree>> {
    if more == [] then slots else Assign(AssignAll(slots, more[..|more| - 1]), more[|more| - 1])
  }

  /** Set insertion: equal strings and primitives are one element; every object copy is its own. */
  function AddTo(elements: seq<Slot<Tree>>, t: Tree): seq<Slot<Tree>> {
    if (t.TPrim? || t.TStr?) && Slot(Item, t) in elements then elements else elements + [Slot(Item, t)]
  }

  function AddAll(kids: seq<Tree>): seq<Slot<Tree>> {
    if kids == [] then [] else AddTo(AddAll(kids[..|kids| - 1]), kids[|kids| - 1])
  }

  function Zip(slots: seq<Slot<Value>>, kids: seq<Tree>): (zipped: seq<Slot<Tree>>)
    requires |slots| == |kids|
    ensures |zipped| == |slots|
  {
    seq(|slots|, i requires 0 <= i < |slots| => Slot(slots[i].at, kids[i]))
  }

  function CopyKind(rules: Policy, kind: Kind): Kind {
    match kind
    case ErrorOf(cls, message, stack, protoName, _) =>
      var shown := if stack.Some? && stack.value != "" then Some(rules.redact(stack.value)) else None;
      ErrorOf(cls, rules.redact(message), shown, protoName, None)
    case _ => kind
  }

  /** What an Error copy holds before its enumerable properties are copied: the cause, if there
      is one, and the name, which is not redacted. */
  function ErrorBase(kind: Kind, slots: seq<Slot<Value>>, kids: seq<Tree>): seq<Slot<Tree>>
    requires kind.ErrorOf? && |kids| == |Visited(kind, slots)|
  {
    (if CauseOf(kind, slots).Some? then [Slot(Field(Cause), kids[0])] else [])
    + [Slot(Field(Name), TStr(NameOf(kind, slots)))]
  }

  function CopyOf(rules: Policy, kind: Kind, slots: seq<Slot<Value>>, kids: seq<Tree>): Tree
    requires |kids| == |Visited(kind, slots)|
  {
    match kind
    case SetOf => TNode(SetOf, AddAll(kids))
    case ErrorOf(_, _, _, _, _) =>
      TNode(CopyKind(rules, kind), AssignAll(ErrorBase(kind, slots, kids), Zip(slots, kids[|kids| - |slots|..])))
    case _ => TNode(kind, Zip(slots, kids))
  }

  // ---- the traversal ------------------------------------------------------------------

  /** A dangling reference does not exist in a real heap; it reads like one met before. */
  function San(rules: Policy, h: Heap, v: Value, seen: set<Ref>): (out: Out)
    ensures seen <= out.seen
    decreases h.Keys - seen, 0
  {
    match v
    case Prim(code) => Out(TPrim(code), seen)
    case Str(text) => Out(TStr(rules.redact(text)), seen)
    case Obj(r) =>
      if r in seen || r !in h then Out(TStr(rules.cut), seen)
      else match h[r]
        case Date(time) => Out(TDate(time), seen)
        case Node(kind, slots) =>
          assert r in h.Keys - seen && r !in h.Keys - (seen + {r});
          var outs := SanSlots(rules, h, kind, Visited(kind, slots), seen + {r});
          Out(CopyOf(rules, kind, slots, outs.kids), outs.seen)
  }

  function SanSlots(rules: Policy, h: Heap, kind: Kind, slots: seq<Slot<Value>>, seen: set<Ref>): (outs: Outs)
    ensures seen <= outs.seen && |outs.kids| == |slots|
    decreases h.Keys - seen, |slots|
  {
    if slots == [] then Outs([], seen)
    else
      var last := slots[|slots| - 1];
      var so := SanSlots(rules, h, kind, slots[..|slots| - 1], seen);
      if Hidden(rules, kind, last.at) then Outs(so.kids + [TStr(rules.hidden)], so.seen)
      else
        assert h.Keys - so.seen <= h.Keys - seen;
        var out := San(rules, h, last.value, so.seen);
        Outs(so.kids + [out.tree], out.seen)
  }

  /** Reading the cause and then the properties: two consecutive traversals. */
  lemma {:induction false} SanSlotsFirst(
      rules: Policy, h: Heap, kind: Kind, first: Slot<Value>, slots: seq<Slot<Value>>, seen: set<Ref>)
    requires !Hidden(rules, kind, first.at)
    ensures var one := San(rules, h, first.value, seen);
            var rest := SanSlots(rules, h, kind, slots, one.seen);
            SanSlots(rules, h, kind, [first] + slots, seen) == Outs([one.tree] + rest.kids, rest.seen)
    decreases |slots|
  {
    if slots == [] {
      assert [first] + slots == [first] && [first][..0] == [];
      assert SanSlots(rules, h, kind, [first][..0], seen) == Outs([], seen);
    } else {
      var n := |slots| - 1;
      SanSlotsFirst(rules, h, kind, first, slots[..n], seen);
      assert ([first] + slots)[..n + 1] == [first] + slots[..n];
    }
  }

  // ---- the traversal as it runs: copies filled in loops, `seen` updated in place --------

  class Sanitizing {
    const rules: Policy
    const heap: Heap
    var seen: set<Ref>

    constructor (rules: Policy, heap: Heap)
      ensures this.rules == rules && this.heap == heap && seen == {}
    {
      this.rules, this.heap, seen := rules, heap, {};
    }

    method Sanitize(v: Value) returns (t: Tree)
      modifies this
      ensures Out(t, seen) == San(rules, heap, v, old(seen))
      decreases heap.Keys - seen, 1
    {
      match v {
        case Prim(code) => t := TPrim(code);
        case Str(text) => t := TStr(rules.redact(text));
        case Obj(r) =>
          if r in seen || r !in heap {
            t := TStr(rules.cut);
          } else if heap[r].Date? {
            t := TDate(heap[r].time);
          } else {
            t := SanitizeNode(r);
          }
      }
    }

    method SanitizeNode(r: Ref) returns (t: Tree)
      requires r in heap && r !in seen && heap[r].Node?
      modifies this
      ensures Out(t, seen) == San(rules, heap, Obj(r), old(seen))
      decreases heap.Keys - seen, 0
    {
      var kind, slots := heap[r].kind, heap[r].slots;
      assert r in heap.Keys - seen && r !in heap.Keys - (seen + {r});
      seen := seen + {r};
      var copy;
      match kind {
        case SetOf => copy := FillSet(slots);
        case ErrorOf(_, _, _, _, _) => copy := FillError(kind, slots);
        case _ => copy := FillInOrder(kind, slots);
      }
      t := TNode(CopyKind(rules, kind), copy);
    }

    method FillInOrder(kind: Kind, slots: seq<Slot<Value>>) returns (copy: seq<Slot<Tree>>)
      requires !kind.ErrorOf? && !kind.SetOf?
      modifies this
      ensures var outs := SanSlots(rules, heap, kind, slots, old(seen));
              copy == Zip(slots, outs.kids) && seen == outs.seen
      decreases heap.Keys - seen, 3
    {
      copy := [];
      ghost var start := seen;
      var i := 0;
      while i < |slots|
        invariant i <= |slots| && start <= seen
        invariant var outs := SanSlots(rules, heap, kind, slots[..i], start);
                  copy == Zip(slots[..i], outs.kids) && seen == outs.seen
      {
        assert slots[..i + 1][..i] == slots[..i];
        var t := SanitizeEntry(kind, slots[i]);
        copy := copy + [Slot(slots[i].at, t)];
        ZipLast(slots[..i + 1], SanSlots(rules, heap, kind, slots[..i + 1], start).kids);
        i := i + 1;
      }
      assert slots[..i] == slots;
    }

    method SanitizeEntry(kind: Kind, slot: Slot<Value>) returns (t: Tree)
      modifies this
      ensures if Hidden(rules, kind, slot.at) then t == TStr(rules.hidden) && seen == old(seen)
              else Out(t, seen) == San(rules, heap, slot.value, old(seen))
      decreases heap.Keys - seen, 2
    {
      if Hidden(rules, kind, slot.at) {
        t := TStr(rules.hidden);
      } else {
        t := Sanitize(slot.value);
      }
    }

    method FillSet(slots: seq<Slot<Value>>) returns (copy: seq<Slot<Tree>>)
      modifies this
      ensures var outs := SanSlots(rules, heap, SetOf, slots, old(seen));
              copy == AddAll(outs.kids) && seen == outs.seen
      decreases heap.Keys - seen, 3
    {
      copy := [];
      ghost var start := seen;
      var i := 0;
      while i < |slots|
        invariant i <= |slots| && start <= seen
        invariant var outs := SanSlots(rules, heap, SetOf, slots[..i], start);
                  copy == AddAll(outs.kids) && seen == outs.seen
      {
        assert slots[..i + 1][..i] == slots[..i];
        var t := Sanitize(slots[i].value);
        copy := AddTo(copy, t);
        i := i + 1;
      }
      assert slots[..i] == slots;
    }

    method FillError(kind: Kind, slots: seq<Slot<Value>>) returns (copy: seq<Slot<Tree>>)
      requires kind.ErrorOf?
      modifies this
      ensures var outs := SanSlots(rules, heap, kind, Visited(kind, slots), old(seen));
              && copy == AssignAll(ErrorBase(kind, slots, outs.kids), Zip(slots, outs.kids[|outs.kids| - |slots|..]))
              && seen == outs.seen
      decreases heap.Keys - seen, 4
    {
      copy := [];
      ghost var cause := [];
      if CauseOf(kind, slots).Some? {
        var t := Sanitize(CauseOf(kind, slots).value);
        copy, cause := [Slot(Field(Cause), t)], [t];
        SanSlotsFirst(rules, heap, kind, Slot(Item, CauseOf(kind, slots).value), slots, old(seen));
      }
      copy := copy + [Slot(Field(Name), TStr(NameOf(kind, slots)))];
      ghost var rest := SanSlots(rules, heap, kind, slots, seen);
      assert (cause + rest.kids)[|cause|..] == rest.kids;
      copy := AssignProperties(kind, slots, copy);
    }

    method AssignProperties(kind: Kind, slots: seq<Slot<Value>>, base: seq<Slot<Tree>>) returns (copy: seq<Slot<Tree>>)
      modifies this
      ensures var outs := SanSlots(rules, heap, kind, slots, old(seen));
              copy == AssignAll(base, Zip(slots, outs.kids)) && seen == outs.seen
      decreases heap.Keys - seen, 3
    {
      copy := base;
      ghost var start := seen;
      var i := 0;
      while i < |slots|
        invariant i <= |slots| && start <= seen
        invariant var outs := SanSlots(rules, heap, kind, slots[..i], start);
                  copy == AssignAll(base, Zip(slots[..i], outs.kids)) && seen == outs.seen
      {
        assert slots[..i + 1][..i] == slots[..i];
        var t := SanitizeEntry(kind, slots[i]);
        copy := Assign(copy, Slot(slots[i].at, t));
        ZipLast(slots[..i + 1], SanSlots(rules, heap, kind, slots[..i + 1], start).kids);
        i := i + 1;
      }
      assert slots[..i] == slots;
    }
  }

  lemma ZipLast(slots: seq<Slot<Value>>, kids: seq<Tree>)
    requires |slots| == |kids| > 0
    ensures var n := |slots| - 1;
            Zip(slots, kids)[..n] == Zip(slots[..n], kids[..n]) && Zip(slots, kids)[n] == Slot(slots[n].at, kids[n])
  {
  }

  // ---- which objects are expanded -----------------------------------------------------

  ghost predicate Leads(h: Heap, v: Value) {
    v.Obj? && v.ref in h && h[v.ref].Node?
  }

  /** `r` shows `q`: a child of `r` that no sensitive key hides is the object `q`. Dates are leaves. */
  ghost predicate Shows(rules: Policy, h: Heap, r: Ref, q: Ref) {
    && r in h && h[r].Node? && Leads(h, Obj(q))
    && SlotsShow(rules, h, h[r].kind, Visited(h[r].kind, h[r].slots), q)
  }

  ghost predicate SlotsShow(rules: Policy, h: Heap, kind: Kind, slots: seq<Slot<Value>>, q: Ref) {
    exists i :: 0 <= i < |slots| && !Hidden(rules, kind, slots[i].at) && slots[i].value == Obj(q)
  }

  ghost predicate Path(rules: Policy, h: Heap, p: seq<Ref>) {
    forall i :: 0 <= i < |p| - 1 ==> Shows(rules, h, p[i], p[i + 1])
  }

  ghost predicate Reaches(rules: Policy, h: Heap, a: Ref, b: Ref) {
    exists p :: |p| > 0 && p[0] == a && p[|p| - 1] == b && Path(rules, h, p)
  }

  ghost predicate ClosedBut(rules: Policy, h: Heap, added: set<Ref>, all: set<Ref>) {
    forall r, q :: r in added && Shows(rules, h, r, q) ==> q in all
  }

  lemma {:induction false} SanCloses(rules: Policy, h: Heap, v: Value, seen: set<Ref>)
    ensures var out := San(rules, h, v, seen);
            && (Leads(h, v) ==> v.ref in out.seen)
            && ClosedBut(rules, h, out.seen - seen, out.seen)
    decreases h.Keys - seen, 0
  {
    if Leads(h, v) && v.ref !in seen {
      var kind, slots := h[v.ref].kind, h[v.ref].slots;
      assert v.ref in h.Keys - seen && v.ref !in h.Keys - (seen + {v.ref});
      SanSlotsCloses(rules, h, kind, Visited(kind, slots), seen + {v.ref});
    }
  }

  lemma {:induction false} SanSlotsCloses(rules: Policy, h: Heap, kind: Kind, slots: seq<Slot<Value>>, seen: set<Ref>)
    ensures var outs := SanSlots(rules, h, kind, slots, seen);
            && (forall q :: Leads(h, Obj(q)) && SlotsShow(rules, h, kind, slots, q) ==> q in outs.seen)
            && ClosedBut(rules, h, outs.seen - seen, outs.seen)
    decreases h.Keys - seen, |slots|
  {
    if slots != [] {
      var init, last := slots[..|slots| - 1], slots[|slots| - 1];
      SanSlotsCloses(rules, h, kind, init, seen);
      var so := SanSlots(rules, h, kind, init, seen);
      assert h.Keys - so.seen <= h.Keys - seen;
      SanCloses(rules, h, last.value, so.seen);
      var outs := SanSlots(rules, h, kind, slots, seen);
      forall q | Leads(h, Obj(q)) && SlotsShow(rules, h, kind, slots, q) ensures q in outs.seen {
        if !SlotsShow(rules, h, kind, init, q) {
          assert last.value == Obj(q) && !Hidden(rules, kind, last.at);
        }
      }
    }
  }

  lemma {:induction false} SanStaysInside(rules: Policy, h: Heap, v: Value, seen: set<Ref>, c: set<Ref>)
    requires ClosedBut(rules, h, c, seen + c) && (Leads(h, v) ==> v.ref in seen + c)
    ensures San(rules, h, v, seen).seen <= seen + c
    decreases h.Keys - seen, 0
  {
    if Leads(h, v) && v.ref !in seen {
      var kind, slots := h[v.ref].kind, h[v.ref].slots;
      assert v.ref in h.Keys - seen && v.ref !in h.Keys - (seen + {v.ref});
      forall q | Leads(h, Obj(q)) && SlotsShow(rules, h, kind, Visited(kind, slots), q) ensures q in seen + c {
        assert Shows(rules, h, v.ref, q);
      }
      SanSlotsStayInside(rules, h, kind, Visited(kind, slots), seen + {v.ref}, c);
    }
  }

  lemma {:induction false} SanSlotsStayInside(
      rules: Policy, h: Heap, kind: Kind, slots: seq<Slot<Value>>, seen: set<Ref>, c: set<Ref>)
    requires ClosedBut(rules, h, c, seen + c)
    requires forall q :: Leads(h, Obj(q)) && SlotsShow(rules, h, kind, slots, q) ==> q in seen + c
    ensures SanSlots(rules, h, kind, slots, seen).seen <= seen + c
    decreases h.Keys - seen, |slots|
  {
    if slots != [] {
      var init, last := slots[..|slots| - 1], slots[|slots| - 1];
      forall q | SlotsShow(rules, h, kind, init, q) ensures SlotsShow(rules, h, kind, slots, q) {
        var i :| 0 <= i < |init| && !Hidden(rules, kind, init[i].at) && init[i].value == Obj(q);
        assert slots[i] == init[i];
      }
      SanSlotsStayInside(rules, h, kind, init, seen, c);
      var so := SanSlots(rules, h, kind, init, seen);
      assert h.Keys - so.seen <= h.Keys - seen;
      if !Hidden(rules, kind, last.at) {
        assert Leads(h, last.value) ==> SlotsShow(rules, h, kind, slots, last.value.ref);
        SanStaysInside(rules, h, last.value, so.seen, c);
      }
    }
  }

  lemma {:induction false} PathStaysInside(rules: Policy, h: Heap, p: seq<Ref>, c: set<Ref>)
    requires |p| > 0 && Path(rules, h, p) && p[0] in c && ClosedBut(rules, h, c, c)
    ensures p[|p| - 1] in c
    decreases |p|
  {
    if |p| > 1 {
      assert Shows(rules, h, p[0], p[1]);
      assert Path(rules, h, p[1..]) by {
        forall i | 0 <= i < |p[1..]| - 1 ensures Shows(rules, h, p[1..][i], p[1..][i + 1]) {
          assert Shows(rules, h, p[i + 1], p[i + 2]);
        }
      }
      PathStaysInside(rules, h, p[1..], c);
    }
  }

  lemma ReachesNext(rules: Policy, h: Heap, a: Ref, r: Ref, q: Ref)
    requires Reaches(rules, h, a, r) && Shows(rules, h, r, q)
    ensures Reaches(rules, h, a, q)
  {
    var p :| |p| > 0 && p[0] == a && p[|p| - 1] == r && Path(rules, h, p);
    var p' := p + [q];
    assert Path(rules, h, p') by {
      forall i | 0 <= i < |p'| - 1 ensures Shows(rules, h, p'[i], p'[i + 1]) {
        if i < |p| - 1 { assert Shows(rules, h, p[i], p[i + 1]); }
      }
    }
    assert p'[|p'| - 1] == q;
  }

  /** Whatever the sharing and the cycles, the objects expanded are exactly those reachable from
      the root without passing a sensitive key. */
  lemma ExpandsExactlyTheReachable(rules: Policy, h: Heap, root: Ref, r: Ref)
    requires root in h && h[root].Node?
    ensures r in San(rules, h, Obj(root), {}).seen <==> Reaches(rules, h, root, r)
  {
    var seen := San(rules, h, Obj(root), {}).seen;
    SanCloses(rules, h, Obj(root), {});
    assert seen - {} == seen;
    if Reaches(rules, h, root, r) {
      var p :| |p| > 0 && p[0] == root && p[|p| - 1] == r && Path(rules, h, p);
      PathStaysInside(rules, h, p, seen);
    }
    var c := set q | q in h.Keys && Reaches(rules, h, root, q);
    assert Reaches(rules, h, root, root) by { assert Path(rules, h, [root]); }
    forall a, b | a in c && Shows(rules, h, a, b) ensures b in c {
      ReachesNext(rules, h, root, a, b);
    }
    assert {} + c == c;
    SanStaysInside(rules, h, Obj(root), {}, c);
  }

  // ---- each object is copied at most once ---------------------------------------------

  function Copies(t: Tree): nat
    decreases t, 1
  {
    if t.TNode? then 1 + CopiesIn(t.slots) else 0
  }

  function CopiesIn(slots: seq<Slot<Tree>>): nat
    decreases slots, 0
  {
    if slots == [] then 0
    else
      var last := slots[|slots| - 1];
      assert last.value < last;
      CopiesIn(slots[..|slots| - 1]) + Copies(last.value)
  }

  function CopiesOf(kids: seq<Tree>): nat {
    if kids == [] then 0 else CopiesOf(kids[..|kids| - 1]) + Copies(kids[|kids| - 1])
  }

  lemma {:induction false} CopiesInConcat(a: seq<Slot<Tree>>, b: seq<Slot<Tree>>)
    ensures CopiesIn(a + b) == CopiesIn(a) + CopiesIn(b)
    decreases |b|
  {
    if b == [] {
      assert a + b == a;
    } else {
      assert (a + b)[..|a + b| - 1] == a + b[..|b| - 1];
      CopiesInConcat(a, b[..|b| - 1]);
    }
  }

  lemma {:induction false} CopiesOfFirst(kids: seq<Tree>)
    requires kids != []
    ensures CopiesOf(kids) == Copies(kids[0]) + CopiesOf(kids[1..])
    decreases |kids|
  {
    if |kids| == 1 {
      assert kids[..0] == [] && kids[1..] == [];
    } else {
      var init := kids[..|kids| - 1];
      CopiesOfFirst(init);
      assert init[0] == kids[0] && kids[1..][..|kids| - 2] == init[1..];
    }
  }

  lemma CopiesInOne(slot: Slot<Tree>)
    ensures CopiesIn([slot]) == Copies(slot.value)
  {
  }

  lemma {:induction false} CopiesInAssign(slots: seq<Slot<Tree>>, slot: Slot<Tree>)
    ensures CopiesIn(Assign(slots, slot)) <= CopiesIn(slots) + Copies(slot.value)
    decreases |slots|
  {
    CopiesInOne(slot);
    if slots != [] {
      var first, rest := [slots[0]], slots[1..];
      assert slots == first + rest;
      CopiesInConcat(first, rest);
      CopiesInConcat([slot], rest);
      CopiesInAssign(rest, slot);
      CopiesInConcat(first, Assign(rest, slot));
    }
  }

  lemma {:induction false} CopiesInAssignAll(slots: seq<Slot<Tree>>, more: seq<Slot<Tree>>)
    ensures CopiesIn(AssignAll(slots, more)) <= CopiesIn(slots) + CopiesIn(more)
    decreases |more|
  {
    if more != [] {
      CopiesInAssignAll(slots, more[..|more| - 1]);
      CopiesInAssign(AssignAll(slots, more[..|more| - 1]), more[|more| - 1]);
    }
  }

  lemma {:induction false} CopiesInAddAll(kids: seq<Tree>)
    ensures CopiesIn(AddAll(kids)) <= CopiesOf(kids)
    decreases |kids|
  {
    if kids != [] {
      var init, last := kids[..|kids| - 1], kids[|kids| - 1];
      CopiesInAddAll(init);
      CopiesInConcat(AddAll(init), [Slot(Item, last)]);
      CopiesInOne(Slot(Item, last));
    }
  }

  lemma {:induction false} CopiesInZip(slots: seq<Slot<Value>>, kids: seq<Tree>)
    requires |slots| == |kids|
    ensures CopiesIn(Zip(slots, kids)) == CopiesOf(kids)
    decreases |kids|
  {
    if kids != [] {
      var n := |kids| - 1;
      CopiesInZip(slots[..n], kids[..n]);
      assert Zip(slots, kids)[..n] == Zip(slots[..n], kids[..n]);
    }
  }

  lemma {:induction false} CopiesInBase(kind: Kind, slots: seq<Slot<Value>>, kids: seq<Tree>)
    requires kind.ErrorOf? && |kids| == |Visited(kind, slots)|
    ensures CopiesIn(ErrorBase(kind, slots, kids)) + CopiesOf(kids[|kids| - |slots|..]) == CopiesOf(kids)
  {
    var name := Slot(Field(Name), TStr(NameOf(kind, slots)));
    CopiesInOne(name);
    if CauseOf(kind, slots).Some? {
      var cause := Slot(Field(Cause), kids[0]);
      CopiesInOne(cause);
      CopiesInConcat([cause], [name]);
      CopiesOfFirst(kids);
    } else {
      assert kids[|kids| - |slots|..] == kids;
    }
  }

  lemma CopiesInCopy(rules: Policy, kind: Kind, slots: seq<Slot<Value>>, kids: seq<Tree>)
    requires |kids| == |Visited(kind, slots)|
    ensures Copies(CopyOf(rules, kind, slots, kids)) <= 1 + CopiesOf(kids)
  {
    match kind
    case SetOf => CopiesInAddAll(kids);
    case ErrorOf(_, _, _, _, _) =>
      var own := kids[|kids| - |slots|..];
      CopiesInBase(kind, slots, kids);
      CopiesInAssignAll(ErrorBase(kind, slots, kids), Zip(slots, own));
      CopiesInZip(slots, own);
    case _ => CopiesInZip(slots, kids);
  }

  /** A copy has no more objects than the traversal met for the first time: sharing is never
      duplicated and cycles end. */
  lemma {:induction false} CopiesAtMostOnce(rules: Policy, h: Heap, v: Value, seen: set<Ref>)
    ensures var out := San(rules, h, v, seen);
            Copies(out.tree) <= |out.seen - seen| && |out.seen - seen| == |out.seen| - |seen|
    decreases h.Keys - seen, 0
  {
    if Leads(h, v) && v.ref !in seen {
      var kind, slots := h[v.ref].kind, h[v.ref].slots;
      assert v.ref in h.Keys - seen && v.ref !in h.Keys - (seen + {v.ref});
      SlotsCopiedAtMostOnce(rules, h, kind, Visited(kind, slots), seen + {v.ref});
      CopiesInCopy(rules, kind, slots, SanSlots(rules, h, kind, Visited(kind, slots), seen + {v.ref}).kids);
      assert |seen + {v.ref}| == |seen| + 1;
    }
  }

  lemma {:induction false} SlotsCopiedAtMostOnce(
      rules: Policy, h: Heap, kind: Kind, slots: seq<Slot<Value>>, seen: set<Ref>)
    ensures var outs := SanSlots(rules, h, kind, slots, seen);
            CopiesOf(outs.kids) <= |outs.seen| - |seen|
    decreases h.Keys - seen, |slots|
  {
    if slots != [] {
      var init, last := slots[..|slots| - 1], slots[|slots| - 1];
      SlotsCopiedAtMostOnce(rules, h, kind, init, seen);
      var so := SanSlots(rules, h, kind, init, seen);
      assert h.Keys - so.seen <= h.Keys - seen;
      CopiesAtMostOnce(rules, h, last.value, so.seen);
      var kids := SanSlots(rules, h, kind, slots, seen).kids;
      assert kids[..|kids| - 1] == so.kids;
    }
  }

  // ---- what a copy shows --------------------------------------------------------------

  /** All that is assumed of the text redaction. */
  ghost predicate WellRedacting(rules: Policy) {
    && (forall s :: rules.redact(rules.redact(s)) == rules.redact(s))
    && (forall s :: rules.redact(s) == "" ==> s == "")
    && rules.redact(rules.hidden) == rules.hidden && rules.redact(rules.cut) == rules.cut
    && !rules.sensitive(Cause) && !rules.sensitive(Name)
  }

  /** Every text value is redacted, every sensitive field of a record or an Error holds the marker. The
      one text value that may not be redacted is an Error's name. Labels, Map keys among them, are not
      looked at. */
  ghost predicate Clean(rules: Policy, t: Tree)
    decreases t, 1
  {
    match t
    case TStr(text) => rules.redact(text) == text
    case TNode(kind, slots) =>
      && (kind.ErrorOf? ==> rules.redact(kind.message) == kind.message)
      && (kind.ErrorOf? && kind.stack.Some? ==> rules.redact(kind.stack.value) == kind.stack.value)
      && forall i :: 0 <= i < |slots| ==> CleanSlot(rules, kind, slots[i])
    case _ => true
  }

  ghost predicate CleanSlot(rules: Policy, kind: Kind, slot: Slot<Tree>)
    decreases slot, 0
  {
    && (Hidden(rules, kind, slot.at) ==> slot.value == TStr(rules.hidden))
    && ((kind.ErrorOf? && slot.at == Field(Name) && slot.value.TStr?) || Clean(rules, slot.value))
  }

  lemma {:induction false} AssignElements(slots: seq<Slot<Tree>>, slot: Slot<Tree>, x: Slot<Tree>)
    requires x in Assign(slots, slot)
    ensures x in slots || x == slot
    decreases |slots|
  {
    if slots != [] && slots[0].at != slot.at && x != slots[0] {
      AssignElements(slots[1..], slot, x);
    }
  }

  lemma {:induction false} AssignAllElements(slots: seq<Slot<Tree>>, more: seq<Slot<Tree>>, x: Slot<Tree>)
    requires x in AssignAll(slots, more)
    ensures x in slots || x in more
    decreases |more|
  {
    if more != [] {
      AssignElements(AssignAll(slots, more[..|more| - 1]), more[|more| - 1], x);
      if x != more[|more| - 1] {
        AssignAllElements(slots, more[..|more| - 1], x);
      }
    }
  }

  lemma {:induction false} AddAllElements(kids: seq<Tree>, x: Slot<Tree>)
    requires x in AddAll(kids)
    ensures x.at == Item && x.value in kids
    decreases |kids|
  {
    if kids != [] && x in AddAll(kids[..|kids| - 1]) {
      AddAllElements(kids[..|kids| - 1], x);
    }
  }

  /** Each child is clean, and the child of a sensitive key is the marker. */
  ghost predicate CleanKids(rules: Policy, kind: Kind, slots: seq<Slot<Value>>, kids: seq<Tree>) {
    |kids| == |slots| && forall i :: 0 <= i < |kids| ==>
      Clean(rules, kids[i]) && (Hidden(rules, kind, slots[i].at) ==> kids[i] == TStr(rules.hidden))
  }

  lemma SetElementIsClean(rules: Policy, slots: seq<Slot<Value>>, kids: seq<Tree>, x: Slot<Tree>)
    requires CleanKids(rules, SetOf, slots, kids) && x in AddAll(kids)
    ensures CleanSlot(rules, SetOf, x)
  {
    AddAllElements(kids, x);
  }

  lemma ZippedIsClean(rules: Policy, kind: Kind, slots: seq<Slot<Value>>, kids: seq<Tree>, x: Slot<Tree>)
    requires CleanKids(rules, kind, slots, kids) && x in Zip(slots, kids)
    ensures CleanSlot(rules, kind, x)
  {
  }

  lemma {:induction false} ErrorBaseIsClean(
      rules: Policy, kind: Kind, slots: seq<Slot<Value>>, kids: seq<Tree>, x: Slot<Tree>)
    requires WellRedacting(rules) && kind.ErrorOf? && CleanKids(rules, kind, Visited(kind, slots), kids)
             && x in ErrorBase(kind, slots, kids)
    ensures CleanSlot(rules, kind, x)
  {
  }

  lemma LastKidsAreClean(rules: Policy, kind: Kind, slots: seq<Slot<Value>>, kids: seq<Tree>, n: nat)
    requires CleanKids(rules, kind, slots, kids) && n <= |kids|
    ensures CleanKids(rules, kind, slots[n..], kids[n..])
  {
  }

  lemma OwnSlots(kind: Kind, slots: seq<Slot<Value>>)
    ensures |slots| <= |Visited(kind, slots)| && Visited(kind, slots)[|Visited(kind, slots)| - |slots|..] == slots
  {
  }

  lemma {:induction false} ErrorPropertyIsClean(
      rules: Policy, kind: Kind, slots: seq<Slot<Value>>, kids: seq<Tree>, x: Slot<Tree>)
    requires WellRedacting(rules) && kind.ErrorOf? && CleanKids(rules, kind, Visited(kind, slots), kids)
    requires x in AssignAll(ErrorBase(kind, slots, kids), Zip(slots, kids[|kids| - |slots|..]))
    ensures CleanSlot(rules, kind, x)
  {
    var base, own := ErrorBase(kind, slots, kids), kids[|kids| - |slots|..];
    AssignAllElements(base, Zip(slots, own), x);
    if x in base {
      ErrorBaseIsClean(rules, kind, slots, kids, x);
    } else {
      OwnSlots(kind, slots);
      LastKidsAreClean(rules, kind, Visited(kind, slots), kids, |kids| - |slots|);
      ZippedIsClean(rules, kind, slots, own, x);
    }
  }

  lemma CopyIsClean(rules: Policy, kind: Kind, slots: seq<Slot<Value>>, kids: seq<Tree>)
    requires WellRedacting(rules) && CleanKids(rules, kind, Visited(kind, slots), kids)
    ensures Clean(rules, CopyOf(rules, kind, slots, kids))
  {
    var copy := CopyOf(rules, kind, slots, kids);
    forall i | 0 <= i < |copy.slots| ensures CleanSlot(rules, copy.kind, copy.slots[i]) {
      var x := copy.slots[i];
      match kind
      case SetOf => SetElementIsClean(rules, slots, kids, x);
      case ErrorOf(_, _, _, _, _) =>
        ErrorPropertyIsClean(rules, kind, slots, kids, x);
      case _ => ZippedIsClean(rules, kind, slots, kids, x);
    }
  }

  /** Every sanitized value is clean in this sense, whatever the object graph. */
  lemma {:induction false} SanitizedIsClean(rules: Policy, h: Heap, v: Value, seen: set<Ref>)
    requires WellRedacting(rules)
    ensures Clean(rules, San(rules, h, v, seen).tree)
    decreases h.Keys - seen, 0
  {
    if Leads(h, v) && v.ref !in seen {
      var kind, slots := h[v.ref].kind, h[v.ref].slots;
      assert v.ref in h.Keys - seen && v.ref !in h.Keys - (seen + {v.ref});
      SanitizedSlotsAreClean(rules, h, kind, Visited(kind, slots), seen + {v.ref});
      CopyIsClean(rules, kind, slots, SanSlots(rules, h, kind, Visited(kind, slots), seen + {v.ref}).kids);
    }
  }

  lemma {:induction false} SanitizedSlotsAreClean(
      rules: Policy, h: Heap, kind: Kind, slots: seq<Slot<Value>>, seen: set<Ref>)
    requires WellRedacting(rules)
    ensures CleanKids(rules, kind, slots, SanSlots(rules, h, kind, slots, seen).kids)
    decreases h.Keys - seen, |slots|
  {
    if slots != [] {
      var init, last := slots[..|slots| - 1], slots[|slots| - 1];
      SanitizedSlotsAreClean(rules, h, kind, init, seen);
      var so := SanSlots(rules, h, kind, init, seen);
      assert h.Keys - so.seen <= h.Keys - seen;
      SanitizedIsClean(rules, h, last.value, so.seen);
    }
  }
}
