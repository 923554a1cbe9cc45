// Which record keys hold secrets: the key is brought to lower snake case and its words are
// looked up, after the few operational keys that are always kept.
module SensitiveKeys {
  import opened Ascii

  const SENSITIVE: set<string> := {
    "authorization", "api_key", "apikey", "secret", "token", "password", "cookie", "set_cookie",
    "pan", "cvv", "pin", "email", "phone", "cpf", "cnpj"
  }

  const SAFE: set<string> := {"correlation_id", "correlationid", "request_id", "requestid", "code"}

  predicate IsLower(c: char) { 'a' <= c <= 'z' }

  predicate IsWordChar(c: char) { IsLower(c) || IsUpper(c) || '0' <= c <= '9' }

  /** An underscore between a lower-case letter and the upper-case letter after it. */
  function SplitCamel(s: string): string {
    if |s| < 2 then s
    else [s[0]] + (if IsLower(s[0]) && IsUpper(s[1]) then "_" else "") + SplitCamel(s[1..])
  }

  /** Each run of other characters becomes one underscore. */
  function JoinRuns(s: string): string {
    if s == "" then ""
    else if IsWordChar(s[0]) then [s[0]] + JoinRuns(s[1..])
    else if |s| > 1 && !IsWordChar(s[1]) then JoinRuns(s[1..])
    else "_" + JoinRuns(s[1..])
  }

  function Normalized(key: string): string {
    LowerAll(JoinRuns(SplitCamel(key)))
  }

  /** Some word of `s`, cut at underscores, is sensitive; `word` is the part of a word already read. */
  predicate HasSensitiveWord(word: string, s: string)
    decreases |s|
  {
    if s == "" then word in SENSITIVE
    else if s[0] == '_' then word in SENSITIVE || HasSensitiveWord("", s[1..])
    else HasSensitiveWord(word + [s[0]], s[1..])
  }

  predicate IsSensitiveKey(key: string) {
    var normalized := Normalized(key);
    normalized !in SAFE && (HasSensitiveWord("", normalized) || normalized in SENSITIVE)
  }

  // ---- snake case is a fixed point ----------------------------------------------------

  /** Lower-case letters and digits, with single underscores between. */
  predicate IsSnake(s: string) {
    && (forall i :: 0 <= i < |s| ==> s[i] == '_' || (IsWordChar(s[i]) && !IsUpper(s[i])))
    && (forall i :: 0 <= i < |s| - 1 ==> s[i] != '_' || s[i + 1] != '_')
  }

  predicate SingleUnderscores(s: string) {
    && (forall i :: 0 <= i < |s| ==> s[i] == '_' || IsWordChar(s[i]))
    && (forall i :: 0 <= i < |s| - 1 ==> s[i] != '_' || s[i + 1] != '_')
  }

  lemma {:induction false} JoinRunsIsSingle(s: string)
    ensures SingleUnderscores(JoinRuns(s))
    ensures s != "" ==> JoinRuns(s) != "" && (JoinRuns(s)[0] == '_' <==> !IsWordChar(s[0]))
  {
    if s != "" {
      JoinRunsIsSingle(s[1..]);
      assert s[1..] != "" ==> s[1..][0] == s[1];
    }
  }

  lemma NormalizedIsSnake(key: string)
    ensures IsSnake(Normalized(key))
  {
    JoinRunsIsSingle(SplitCamel(key));
    LowerAllAt(JoinRuns(SplitCamel(key)));
  }

  lemma {:induction false} SnakeIsFixed(s: string)
    requires IsSnake(s)
    ensures SplitCamel(s) == s && JoinRuns(s) == s && LowerAll(s) == s
  {
    if s != "" {
      assert IsSnake(s[1..]);
      SnakeIsFixed(s[1..]);
      assert s == [s[0]] + s[1..];
    }
  }

  /** A key and its snake-case form are judged alike, so camelCase, kebab-case, dotted and
      spaced spellings of one name are all caught or all kept. */
  lemma SpellingDoesNotMatter(a: string, b: string)
    ensures Normalized(Normalized(a)) == Normalized(a)
    ensures IsSensitiveKey(Normalized(a)) == IsSensitiveKey(a)
    ensures Normalized(a) == Normalized(b) ==> IsSensitiveKey(a) == IsSensitiveKey(b)
  {
    NormalizedIsSnake(a);
    SnakeIsFixed(Normalized(a));
  }

  lemma {:induction false} OneWord(word: string, s: string)
    requires '_' !in s
    ensures HasSensitiveWord(word, s) <==> word + s in SENSITIVE
    decreases |s|
  {
    if s == "" {
      assert word + s == word;
    } else {
      OneWord(word + [s[0]], s[1..]);
      assert word + [s[0]] + s[1..] == word + s;
    }
  }

  lemma NeitherIsListed()
    ensures CAUSE !in SENSITIVE && NAME !in SENSITIVE && CAUSE !in SAFE && NAME !in SAFE
  {
  }

  /** A single lower-case word is sensitive exactly when it is listed. */
  lemma PlainWord(w: string)
    requires IsSnake(w) && '_' !in w && w !in SAFE
    ensures IsSensitiveKey(w) <==> w in SENSITIVE
  {
    SnakeIsFixed(w);
    OneWord("", w);
    assert "" + w == w;
  }

  const CAUSE := "cause"
  const NAME := "name"

  /** The two keys an Error copy writes itself are never sensitive. */
  lemma ErrorKeysAreKept()
    ensures !IsSensitiveKey(CAUSE) && !IsSensitiveKey(NAME)
  {
    NeitherIsListed();
    forall w | w == CAUSE || w == NAME ensures !IsSensitiveKey(w) {
      PlainWord(w);
    }
  }

  // ---- normal forms, written out ------------------------------------------------------

  predicate IsSeparator(c: char) {
    !('a' <= c <= 'z') && !('A' <= c <= 'Z') && !('0' <= c <= '9')
  }

  /** `a` ends in a lower-case letter and `b` begins with an upper-case one. */
  predicate CamelCut(a: string, b: string) {
    a != "" && b != "" && 'a' <= a[|a| - 1] <= 'z' && 'A' <= b[0] <= 'Z'
  }

  ghost function Cut(a: string, b: string): string {
    if CamelCut(a, b) then "_" else ""
  }

  lemma SplitStep(c: char, rest: string)
    ensures SplitCamel([c] + rest) == [c] + Cut([c], rest) + SplitCamel(rest)
  {
    assert ([c] + rest)[1..] == rest;
  }

  lemma Regrouped(head: string, x: string, cut: string, y: string)
    ensures head + (x + cut + y) == head + x + cut + y
  {
  }

  lemma NothingBetween(a: string, b: string)
    ensures a + "" + b == a + b
  {
  }

  lemma CutsLater(c: char, rest: string, b: string)
    requires rest != ""
    ensures Cut([c] + rest, b) == Cut(rest, b) && Cut([c], rest + b) == Cut([c], rest)
  {
    assert ([c] + rest)[|rest|] == rest[|rest| - 1];
  }

  lemma {:induction false} SplitConcat(a: string, b: string)
    ensures SplitCamel(a + b) == SplitCamel(a) + Cut(a, b) + SplitCamel(b)
    decreases |a|
  {
    if a == "" {
      assert a + b == b && Cut(a, b) == "";
    } else if |a| == 1 {
      assert a == [a[0]];
      SplitStep(a[0], b);
    } else {
      var c, rest := a[0], a[1..];
      assert a == [c] + rest && a + b == [c] + (rest + b);
      SplitStep(c, rest);
      SplitStep(c, rest + b);
      CutsLater(c, rest, b);
      SplitConcat(rest, b);
      Regrouped([c] + Cut([c], rest), SplitCamel(rest), Cut(rest, b), SplitCamel(b));
    }
  }

  lemma {:induction false} SplitSeparators(sep: string)
    requires forall i :: 0 <= i < |sep| ==> IsSeparator(sep[i])
    ensures SplitCamel(sep) == sep
    decreases |sep|
  {
    if |sep| >= 2 {
      SplitSeparators(sep[1..]);
      assert sep == [sep[0]] + sep[1..];
    }
  }

  lemma {:induction false} JoinSeparators(a: string, sep: string, b: string)
    requires sep != "" && forall i :: 0 <= i < |sep| ==> IsSeparator(sep[i])
    ensures JoinRuns(a + sep + b) == JoinRuns(a + "_" + b)
    decreases |a| + |sep|
  {
    var s, t := a + sep + b, a + "_" + b;
    if a != "" {
      assert s[1..] == a[1..] + sep + b && t[1..] == a[1..] + "_" + b;
      JoinSeparators(a[1..], sep, b);
      assert s[1] == if |a| > 1 then a[1] else sep[0];
      assert t[1] == if |a| > 1 then a[1] else '_';
    } else if |sep| > 1 {
      assert s[1..] == a + sep[1..] + b && s[1] == sep[1];
      JoinSeparators(a, sep[1..], b);
    } else {
      assert s[1..] == b && t[1..] == b;
    }
  }

  /** An underscore may be written where a lower-case letter meets an upper-case one. */
  lemma CamelIsCut(a: string, b: string)
    requires CamelCut(a, b)
    ensures Normalized(a + b) == Normalized(a + "_" + b)
  {
    SplitConcat(a, b);
    SplitAround(a, "_", b);
  }

  /** One underscore may be written for any run of other characters. */
  lemma SeparatorsAreOne(a: string, sep: string, b: string)
    requires sep != "" && forall i :: 0 <= i < |sep| ==> IsSeparator(sep[i])
    ensures Normalized(a + sep + b) == Normalized(a + "_" + b)
  {
    SplitAround(a, sep, b);
    SplitAround(a, "_", b);
    JoinSeparators(SplitCamel(a), sep, SplitCamel(b));
  }

  lemma NoCutThere(a: string, sep: string, b: string)
    requires sep != "" && forall i :: 0 <= i < |sep| ==> IsSeparator(sep[i])
    ensures Cut(a + sep, b) == "" && Cut(a, sep) == ""
  {
    assert (a + sep)[|a + sep| - 1] == sep[|sep| - 1];
  }

  lemma SplitAround(a: string, sep: string, b: string)
    requires sep != "" && forall i :: 0 <= i < |sep| ==> IsSeparator(sep[i])
    ensures SplitCamel(a + sep + b) == SplitCamel(a) + sep + SplitCamel(b)
  {
    NoCutThere(a, sep, b);
    SplitConcat(a + sep, b);
    SplitConcat(a, sep);
    SplitSeparators(sep);
    NothingBetween(SplitCamel(a + sep), SplitCamel(b));
    NothingBetween(SplitCamel(a), sep);
  }

  /** What is left once both are done is brought to lower case, letter by letter. */
  lemma {:induction false} TheRestIsLowered(s: string)
    requires forall i :: 0 <= i < |s| ==> s[i] == '_' || !IsSeparator(s[i])
    requires forall i :: 0 <= i < |s| - 1 ==> !(s[i] == '_' && s[i + 1] == '_')
    requires forall i :: 0 <= i < |s| - 1 ==> !('a' <= s[i] <= 'z' && 'A' <= s[i + 1] <= 'Z')
    ensures |Normalized(s)| == |s|
    ensures forall i :: 0 <= i < |s| ==>
              Normalized(s)[i] == if 'A' <= s[i] <= 'Z' then s[i] - 'A' + 'a' else s[i]
  {
    NothingToCut(s);
    LowerAllAt(s);
  }

  lemma {:induction false} NothingToCut(s: string)
    requires forall i :: 0 <= i < |s| ==> s[i] == '_' || !IsSeparator(s[i])
    requires forall i :: 0 <= i < |s| - 1 ==> !(s[i] == '_' && s[i + 1] == '_')
    requires forall i :: 0 <= i < |s| - 1 ==> !('a' <= s[i] <= 'z' && 'A' <= s[i + 1] <= 'Z')
    ensures SplitCamel(s) == s && JoinRuns(s) == s
  {
    if s != "" {
      assert forall i :: 0 <= i < |s| - 1 ==> s[1..][i] == s[i + 1];
      NothingToCut(s[1..]);
      assert s == [s[0]] + s[1..];
    }
  }

  // ---- which keys are sensitive, written out ------------------------------------------

  /** `s[i..j]` is a whole word of `s`: no underscore in it, and one, or an end, on either side. */
  ghost predicate IsWord(s: string, i: nat, j: nat) {
    && i <= j <= |s| && '_' !in s[i..j]
    && (i == 0 || s[i - 1] == '_') && (j == |s| || s[j] == '_')
  }

  ghost predicate HasWordIn(s: string, words: set<string>) {
    exists i: nat, j: nat :: IsWord(s, i, j) && s[i..j] in words
  }

  lemma FirstWordEnds(first: string, rest: string, j: nat)
    requires '_' !in first && IsWord(first + "_" + rest, 0, j)
    ensures j == |first| && (first + "_" + rest)[0..j] == first
  {
    var s := first + "_" + rest;
    assert s[|first|] == '_' && forall k :: 0 <= k < |first| ==> s[k] == first[k];
    assert forall k :: 0 <= k < j ==> s[k] in s[0..j];
  }

  lemma TailAt(head: string, rest: string, i: nat, j: nat)
    requires |head| <= i <= j <= |head| + |rest|
    ensures (head + rest)[i..j] == rest[i - |head|..j - |head|]
    ensures i > |head| ==> (head + rest)[i - 1] == rest[i - |head| - 1]
    ensures j < |head| + |rest| ==> (head + rest)[j] == rest[j - |head|]
  {
  }

  lemma LaterWord(first: string, rest: string, i: nat, j: nat)
    requires |first| + 1 <= i <= j <= |first| + 1 + |rest|
    ensures var s, n := first + "_" + rest, |first| + 1;
            s[i..j] == rest[i - n..j - n] && (IsWord(s, i, j) <==> IsWord(rest, i - n, j - n))
  {
    var head, n := first + "_", |first| + 1;
    TailAt(head, rest, i, j);
    assert (head + rest)[n - 1] == '_';
  }

  lemma WordsAfterCut(first: string, rest: string, words: set<string>)
    requires '_' !in first
    ensures HasWordIn(first + "_" + rest, words) <==> first in words || HasWordIn(rest, words)
  {
    var s, n := first + "_" + rest, |first| + 1;
    if HasWordIn(s, words) {
      var i: nat, j: nat :| IsWord(s, i, j) && s[i..j] in words;
      if i == 0 {
        FirstWordEnds(first, rest, j);
      } else {
        assert forall k :: 0 <= k < |first| ==> s[k] == first[k];
        LaterWord(first, rest, i, j);
      }
    }
    if first in words {
      assert s[0..|first|] == first && s[|first|] == '_' && IsWord(s, 0, |first|);
    }
    if HasWordIn(rest, words) {
      var i: nat, j: nat :| IsWord(rest, i, j) && rest[i..j] in words;
      LaterWord(first, rest, n + i, n + j);
    }
  }

  lemma OnlyWord(word: string, words: set<string>)
    requires '_' !in word
    ensures HasWordIn(word, words) <==> word in words
  {
    assert word[0..|word|] == word && IsWord(word, 0, |word|);
  }

  lemma {:induction false} SensitiveWordIff(word: string, s: string)
    requires '_' !in word
    ensures HasSensitiveWord(word, s) <==> HasWordIn(word + s, SENSITIVE)
    decreases |s|
  {
    if s == "" {
      assert word + s == word;
      OnlyWord(word, SENSITIVE);
    } else if s[0] == '_' {
      assert word + s == word + "_" + s[1..];
      assert "" + s[1..] == s[1..];
      WordsAfterCut(word, s[1..], SENSITIVE);
      SensitiveWordIff("", s[1..]);
    } else {
      assert word + s == word + [s[0]] + s[1..];
      SensitiveWordIff(word + [s[0]], s[1..]);
    }
  }

  /** Words with an underscore in them are never a word of a cut key: they count only as a whole. */
  lemma CutWords(n: string, listed: set<string>, whole: set<string>, words: set<string>)
    requires listed == whole + words
    requires (forall w :: w in whole ==> '_' in w) && (forall w :: w in words ==> '_' !in w)
    ensures HasWordIn(n, listed) || n in listed <==> n in whole || HasWordIn(n, words)
  {
    if n in words {
      OnlyWord(n, words);
    }
  }

  ghost const WHOLE: set<string> := {"api_key", "set_cookie"}
  ghost const WORDS: set<string> := {
    "authorization", "apikey", "secret", "token", "password", "cookie", "pan", "cvv", "pin", "email", "phone", "cpf",
    "cnpj"
  }

  lemma WholeAreCut()
    ensures forall w :: w in WHOLE ==> '_' in w
  {
    assert "api_key"[3] == '_' && "set_cookie"[3] == '_';
  }

  lemma WordsAreNotCut()
    ensures forall w :: w in WORDS ==> '_' !in w
  {
  }

  lemma ListedAre()
    ensures SENSITIVE == WHOLE + WORDS
  {
  }

  ghost const KEPT: set<string> := {"correlation_id", "correlationid", "request_id", "requestid", "code"}

  lemma SensitiveByWords(key: string)
    ensures var n := Normalized(key);
            IsSensitiveKey(key) <==> n !in KEPT && (n in WHOLE || HasWordIn(n, WORDS))
  {
    var n := Normalized(key);
    SensitiveWordIff("", n);
    assert "" + n == n;
    ListedAre();
    WholeAreCut();
    WordsAreNotCut();
    CutWords(n, SENSITIVE, WHOLE, WORDS);
    assert SAFE == KEPT;
  }

  /** A normal form that names a secret. */
  ghost predicate NamesASecret(n: string) {
    && n !in {"correlation_id", "correlationid", "request_id", "requestid", "code"}
    && (n in {"api_key", "set_cookie"} ||
        HasWordIn(n, {"authorization", "apikey", "secret", "token", "password", "cookie", "pan", "cvv", "pin",
                      "email", "phone", "cpf", "cnpj"}))
  }

  /** For every key: it is sensitive if and only if its normal form is not one of the five kept ones, and
      is one of two whole names or has one of thirteen words in it, anywhere between its underscores. */
  lemma SensitiveIff(key: string)
    ensures IsSensitiveKey(key) <==> NamesASecret(Normalized(key))
  {
    SensitiveByWords(key);
  }
}
