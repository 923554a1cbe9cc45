// How a secret may be written: with blanks anywhere, in small or capital letters, and with closing
// `=` signs; nothing else is read as a secret.
module Spelling {
  import opened Base32

  /** The characters that are passed over, written out. */
  ghost predicate IsBlank(c: char) {
    || c in [' ', '\t', '\n', '\r', '\U{0B}', '\U{0C}', '\U{A0}', '\U{1680}', '\U{202F}', '\U{205F}', '\U{3000}']
    || '\U{2000}' <= c <= '\U{200A}' || '\U{2028}' <= c <= '\U{2029}' || c == '\U{FEFF}'
  }

  ghost predicate IsSymbol(c: char) {
    'A' <= c <= 'Z' || '2' <= c <= '7'
  }

  /** A letter or digit of the alphabet, or the letter's small form. */
  ghost predicate ShowsSymbol(shown: char, c: char) {
    IsSymbol(c) && (shown == c || ('a' <= shown <= 'z' && c as int == shown as int - 32))
  }

  /** `s` shows the symbols of `text`, small or capital, with blanks anywhere. */
  ghost predicate Shows(s: string, text: string) {
    if s == "" then text == ""
    else if IsBlank(s[0]) then Shows(s[1..], text)
    else text != "" && ShowsSymbol(s[0], text[0]) && Shows(s[1..], text[1..])
  }

  lemma IsSpaceIff(c: char)
    ensures IsSpace(c) <==> IsBlank(c)
  {
  }

  ghost function StripFirst(c: char): string {
    if IsSpace(c) then "" else [c]
  }

  lemma StripStep(s: string)
    requires s != ""
    ensures StripSpaces(s) == StripFirst(s[0]) + StripSpaces(s[1..])
  {
  }

  ghost function Each(s: string, shown: char -> string): string {
    if s == "" then "" else shown(s[0]) + Each(s[1..], shown)
  }

  lemma {:induction false} StrippedIsEach(s: string)
    ensures StripSpaces(s) == Each(s, StripFirst)
  {
    if s != "" {
      StripStep(s);
      StrippedIsEach(s[1..]);
    }
  }

  lemma {:induction false} EachConcat(a: string, b: string, shown: char -> string)
    ensures Each(a + b, shown) == Each(a, shown) + Each(b, shown)
  {
    if a == "" {
      assert a + b == b;
    } else {
      EachConcat(a[1..], b, shown);
      EachStep(a + b, a[0], a[1..] + b, shown);
      EachStep(a, a[0], a[1..], shown);
      Regrouped(shown(a[0]), Each(a[1..], shown), Each(b, shown));
    }
  }

  lemma EachStep(s: string, c: char, rest: string, shown: char -> string)
    requires s == [c] + rest
    ensures Each(s, shown) == shown(c) + Each(rest, shown)
  {
    assert s[1..] == rest;
  }

  lemma Regrouped(a: string, b: string, c: string)
    ensures a + (b + c) == a + b + c
  {
  }

  lemma NothingIsShown(before: string, c: char, after: string, shown: char -> string)
    requires shown(c) == ""
    ensures Each(before + [c] + after, shown) == Each(before + after, shown)
  {
    EachConcat(before + [c], after, shown);
    EachConcat(before, [c], shown);
    EachConcat(before, after, shown);
    assert Each([c], shown) == shown(c) + Each([c][1..], shown) == "";
  }

  lemma BlankIsStripped(before: string, c: char, after: string)
    requires IsBlank(c)
    ensures StripSpaces(before + [c] + after) == StripSpaces(before + after)
  {
    BlankIsNothing(c);
    NothingIsShown(before, c, after, StripFirst);
    StrippedIsEach(before + [c] + after);
    StrippedIsEach(before + after);
  }

  lemma BlankIsNothing(c: char)
    requires IsBlank(c)
    ensures StripFirst(c) == ""
  {
    IsSpaceIff(c);
  }

  lemma ShowsSymbolIff(shown: char, c: char)
    ensures ShowsSymbol(shown, c) <==> Upper(shown) == c && IndexOf(c) >= 0
  {
  }

  lemma FirstIsKept(s: string)
    requires s != "" && StripFirst(s[0]) == [s[0]]
    ensures UpperAll(StripSpaces(s)) == [Upper(s[0])] + UpperAll(StripSpaces(s[1..]))
  {
    StripStep(s);
  }

  lemma NextShown(s: string, text: string)
    requires s != "" && !IsBlank(s[0]) && text != ""
    requires Shows(s[1..], text[1..]) <==> UpperAll(StripSpaces(s[1..])) == text[1..] && InAlphabet(text[1..])
    ensures Shows(s, text) <==> UpperAll(StripSpaces(s)) == text && InAlphabet(text)
  {
    IsSpaceIff(s[0]);
    FirstIsKept(s);
    ShowsSymbolIff(s[0], text[0]);
    assert text == [text[0]] + text[1..];
    assert InAlphabet(text) <==> IndexOf(text[0]) >= 0 && InAlphabet(text[1..]) by {
      assert forall i :: 1 <= i < |text| ==> text[i] == text[1..][i - 1];
    }
  }

  lemma {:induction false} ShownIsStripped(s: string, text: string)
    ensures Shows(s, text) <==> UpperAll(StripSpaces(s)) == text && InAlphabet(text)
  {
    if s != "" {
      IsSpaceIff(s[0]);
      if IsBlank(s[0]) {
        ShownIsStripped(s[1..], text);
        StripStep(s);
      } else if text == "" {
        FirstIsKept(s);
      } else {
        ShownIsStripped(s[1..], text[1..]);
        NextShown(s, text);
      }
    }
  }

  lemma {:induction false} LastIsNoPadding(s: string, text: string)
    requires Shows(s, text)
    ensures s != "" ==> s[|s| - 1] != '='
  {
    if |s| > 1 {
      LastIsNoPadding(s[1..], if IsBlank(s[0]) then text else text[1..]);
      assert s[|s| - 1] == s[1..][|s| - 2];
    }
  }

  lemma {:induction false} PaddingBehind(s: string) returns (n: nat)
    ensures s == StripPadding(s) + seq(n, i => '=')
  {
    n := 0;
    if s != "" && s[|s| - 1] == '=' {
      var k := PaddingBehind(s[..|s| - 1]);
      n := k + 1;
    }
  }

  /** Blanks, letter case and closing `=` signs do not matter: a secret shown with them decodes as its
      symbols do. */
  lemma SpellingIsFree(s: string, text: string, padding: nat)
    requires Shows(s, text)
    ensures Decoded(text).Ok? && Decoded(s + seq(padding, i => '=')) == Decoded(text)
  {
    ShownIsStripped(s, text);
    PaddingIsStripped(s, padding);
    LastIsNoPadding(s, text);
    CleanKeepsAlphabet(text);
  }

  /** Nothing else decodes. */
  lemma DecodedIsShown(secret: string) returns (s: string, text: string, padding: nat)
    requires Decoded(secret).Ok?
    ensures Shows(s, text) && secret == s + seq(padding, i => '=')
  {
    s, text := StripPadding(secret), Clean(secret);
    padding := PaddingBehind(secret);
    ShownIsStripped(s, text);
  }
}
