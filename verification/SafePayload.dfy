// Which payloads the browser may keep: no property at any depth may have a name that looks like
// a credential or a card number.
module SafePayload {
  import opened Ascii
  import opened Options

  datatype Json =
    | Null | Bool(on: bool) | Number(units: int) | Text(text: string)
    | List(items: seq<Json>) | Record(fields: seq<Field>)

  datatype Field = Field(name: string, value: Json)

  const WORDS: seq<string> := ["authorization", "cookie", "password", "secret", "token", "cvv", "cardnumber", "pan"]

  /** `word` stands in `name` at position `i`, whatever the case of the letters. */
  predicate StandsAt(name: string, word: string, i: nat) {
    i + |word| <= |name| && forall k :: 0 <= k < |word| ==> Lower(name[i + k]) == word[k]
  }

  predicate Mentions(name: string, word: string) {
    exists i :: 0 <= i <= |name| && StandsAt(name, word, i)
  }

  predicate IsSensitiveName(name: string) {
    exists w :: 0 <= w < |WORDS| && Mentions(name, WORDS[w])
  }

  /** The first offending name, in the order the value is walked: a name before what it holds. */
  function FirstUnsafe(sensitive: string -> bool, value: Json): Option<string>
    decreases value, 0
  {
    match value
    case List(items) => FirstUnsafeItem(sensitive, items)
    case Record(fields) => FirstUnsafeField(sensitive, fields)
    case _ => None
  }

  function FirstUnsafeItem(sensitive: string -> bool, items: seq<Json>): Option<string>
    decreases items, 1
  {
    if items == [] then None
    else
      var first := FirstUnsafe(sensitive, items[0]);
      if first.Some? then first else FirstUnsafeItem(sensitive, items[1..])
  }

  function FirstUnsafeField(sensitive: string -> bool, fields: seq<Field>): Option<string>
    decreases fields, 1
  {
    if fields == [] then None
    else if sensitive(fields[0].name) then Some(fields[0].name)
    else
      assert fields[0].value < fields[0];
      var first := FirstUnsafe(sensitive, fields[0].value);
      if first.Some? then first else FirstUnsafeField(sensitive, fields[1..])
  }

  // ---- what the walk decides ----------------------------------------------------------

  /** Every name in a value, at any depth. */
  ghost predicate Occurs(name: string, value: Json)
    decreases value, 1
  {
    match value
    case List(items) => exists i :: 0 <= i < |items| && Occurs(name, items[i])
    case Record(fields) => exists i :: 0 <= i < |fields| && OccursIn(name, fields[i])
    case _ => false
  }

  ghost predicate OccursIn(name: string, field: Field)
    decreases field, 0
  {
    field.name == name || Occurs(name, field.value)
  }

  lemma {:induction false} ItemsAreWalked(sensitive: string -> bool, items: seq<Json>)
    ensures var r := FirstUnsafeItem(sensitive, items);
            && (r.Some? ==> sensitive(r.value) && exists i :: 0 <= i < |items| && Occurs(r.value, items[i]))
            && (r.None? ==> forall i, name :: 0 <= i < |items| && Occurs(name, items[i]) ==> !sensitive(name))
    decreases items, 1
  {
    if items != [] {
      TheWalkIsComplete(sensitive, items[0]);
      ItemsAreWalked(sensitive, items[1..]);
      var r := FirstUnsafeItem(sensitive, items);
      if r.Some? && FirstUnsafe(sensitive, items[0]).None? {
        var i :| 0 <= i < |items[1..]| && Occurs(r.value, items[1..][i]);
        assert items[i + 1] == items[1..][i];
      }
    }
  }

  lemma {:induction false} FieldsAreWalked(sensitive: string -> bool, fields: seq<Field>)
    ensures var r := FirstUnsafeField(sensitive, fields);
            && (r.Some? ==> sensitive(r.value) && exists i :: 0 <= i < |fields| && OccursIn(r.value, fields[i]))
            && (r.None? ==> forall i, name :: 0 <= i < |fields| && OccursIn(name, fields[i]) ==> !sensitive(name))
    decreases fields, 1
  {
    if fields != [] {
      assert fields[0].value < fields[0];
      TheWalkIsComplete(sensitive, fields[0].value);
      FieldsAreWalked(sensitive, fields[1..]);
      var r := FirstUnsafeField(sensitive, fields);
      if r.Some? {
        if sensitive(fields[0].name) || FirstUnsafe(sensitive, fields[0].value).Some? {
          assert OccursIn(r.value, fields[0]);
        } else {
          var i :| 0 <= i < |fields[1..]| && OccursIn(r.value, fields[1..][i]);
          assert fields[i + 1] == fields[1..][i];
        }
      }
    }
  }

  /** The walk stops exactly when some name at some depth is sensitive, and it names such a one. */
  lemma {:induction false} TheWalkIsComplete(sensitive: string -> bool, value: Json)
    ensures var r := FirstUnsafe(sensitive, value);
            && (r.Some? ==> sensitive(r.value) && Occurs(r.value, value))
            && (r.None? ==> forall name :: Occurs(name, value) ==> !sensitive(name))
    decreases value, 0
  {
    match value
    case List(items) => ItemsAreWalked(sensitive, items);
    case Record(fields) => FieldsAreWalked(sensitive, fields);
    case _ =>
  }

  /** A word inside a longer name, in any case: `cardNumber`, `X-Auth-TOKEN`, but also `company`. */
  lemma SensitiveAnywhere(before: string, w: nat, shown: string, after: string)
    requires w < |WORDS| && |shown| == |WORDS[w]| && forall k :: 0 <= k < |shown| ==> Lower(shown[k]) == WORDS[w][k]
    ensures IsSensitiveName(before + shown + after)
  {
    var name := before + shown + after;
    assert StandsAt(name, WORDS[w], |before|) by {
      forall k | 0 <= k < |shown| ensures Lower(name[|before| + k]) == WORDS[w][k] {
        assert name[|before| + k] == shown[k];
      }
    }
    assert Mentions(name, WORDS[w]);
  }

  // ---- the names, written out ---------------------------------------------------------

  ghost predicate SpelledAt(name: string, word: string, i: nat) {
    i + |word| <= |name| && Spells(name[i..i + |word|], word)
  }

  ghost predicate Holds(name: string, word: string) {
    exists i :: 0 <= i <= |name| && SpelledAt(name, word, i)
  }

  /** A credential's or a card's name somewhere in the name, in any case. */
  ghost predicate LooksSensitive(name: string) {
    || Holds(name, "authorization") || Holds(name, "cookie") || Holds(name, "password") || Holds(name, "secret")
    || Holds(name, "token") || Holds(name, "cvv") || Holds(name, "cardnumber") || Holds(name, "pan")
  }

  lemma StandsIff(name: string, word: string, i: nat)
    ensures StandsAt(name, word, i) <==> SpelledAt(name, word, i)
  {
    if i + |word| <= |name| {
      var part := name[i..i + |word|];
      assert forall k :: 0 <= k < |word| ==> part[k] == name[i + k];
    }
  }

  lemma MentionsIff(name: string, word: string)
    ensures Mentions(name, word) <==> Holds(name, word)
  {
    forall i: nat | i <= |name| ensures StandsAt(name, word, i) <==> SpelledAt(name, word, i) {
      StandsIff(name, word, i);
    }
  }

  /** The word at a place of the list, one of eight. */
  lemma WordsAre(name: string)
    ensures IsSensitiveName(name) <==>
            || Mentions(name, WORDS[0]) || Mentions(name, WORDS[1]) || Mentions(name, WORDS[2])
            || Mentions(name, WORDS[3]) || Mentions(name, WORDS[4]) || Mentions(name, WORDS[5])
            || Mentions(name, WORDS[6]) || Mentions(name, WORDS[7])
  {
  }

  lemma SensitiveIff(name: string)
    ensures IsSensitiveName(name) <==> LooksSensitive(name)
  {
    WordsAre(name);
    MentionsIff(name, "authorization");
    MentionsIff(name, "cookie");
    MentionsIff(name, "password");
    MentionsIff(name, "secret");
    MentionsIff(name, "token");
    MentionsIff(name, "cvv");
    MentionsIff(name, "cardnumber");
    MentionsIff(name, "pan");
  }

  /** A payload is refused exactly if some name at some depth looks sensitive. */
  lemma RefusedIff(value: Json)
    ensures FirstUnsafe(IsSensitiveName, value).Some? <==> exists name :: Occurs(name, value) && LooksSensitive(name)
  {
    TheWalkIsComplete(IsSensitiveName, value);
    forall name ensures IsSensitiveName(name) <==> LooksSensitive(name) {
      SensitiveIff(name);
    }
  }
}
