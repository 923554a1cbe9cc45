// Letter case of ASCII text. Other characters are left alone.
module Ascii {

  predicate IsUpper(c: char) { 'A' <= c <= 'Z' }

  function Lower(c: char): char {
    if IsUpper(c) then (c as int + 32) as char else c
  }

  function LowerAll(s: string): string {
    if s == "" then "" else [Lower(s[0])] + LowerAll(s[1..])
  }

  /** `word` in any case: a capital letter stands for its small one, 32 places on, and every other
      character for itself. */
  ghost predicate Spells(name: string, word: string) {
    |name| == |word| &&
    forall k :: 0 <= k < |name| ==>
      if 'A' <= name[k] <= 'Z' then word[k] as int == name[k] as int + 32 else word[k] == name[k]
  }

  lemma {:induction false} LowerAllAt(s: string)
    ensures |LowerAll(s)| == |s| && forall k :: 0 <= k < |s| ==> LowerAll(s)[k] == Lower(s[k])
  {
    if s != "" {
      LowerAllAt(s[1..]);
    }
  }

  lemma SpellsIff(name: string, word: string)
    ensures LowerAll(name) == word <==> Spells(name, word)
  {
    LowerAllAt(name);
    if Spells(name, word) {
      assert forall k :: 0 <= k < |name| ==> LowerAll(name)[k] == Lower(name[k]) == word[k];
    }
  }

  lemma BeginsIff(name: string, word: string)
    ensures word <= LowerAll(name) <==> |word| <= |name| && Spells(name[..|word|], word)
  {
    LowerAllAt(name);
    if |word| <= |name| {
      LowerAllAt(name[..|word|]);
      assert LowerAll(name[..|word|]) == LowerAll(name)[..|word|];
      SpellsIff(name[..|word|], word);
    }
  }
}
