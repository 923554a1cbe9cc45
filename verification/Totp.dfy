// Time-based codes: dynamic truncation (section 5.3 of RFC 4226) and the window of
// accepted time steps (section 5.2 of RFC 6238). The HMAC is a parameter; all that is assumed
// of it is that a digest has twenty bytes.
module Totp {
  import opened Decimals
  import Base32
  import Spelling

  const STEP_MS := 30_000
  const MODULUS := 1_000_000

  type Byte = Base32.Byte
  type Hmac = (seq<nat>, nat) -> seq<Byte>

  // Besides a value: what the two throwing calls raise.
  datatype Result<T> = Ok(value: T) | InvalidSecret | CounterOutOfRange

  ghost predicate TwentyBytes(h: Hmac) {
    forall key, counter :: |h(key, counter)| == 20
  }

  // ---- decimal text -------------------------------------------------------------------

  function PadStart(s: string, width: nat): string
    decreases width - |s|
  {
    if |s| < width then PadStart("0" + s, width) else s
  }

  lemma {:induction false} LeadingZero(s: string)
    requires AllDigits(s)
    ensures AllDigits("0" + s) && Value("0" + s) == Value(s)
  {
    if s == "" {
      assert ("0" + s)[..0] == "";
    } else {
      LeadingZero(s[..|s| - 1]);
      assert ("0" + s)[..|s|] == "0" + s[..|s| - 1];
    }
  }

  lemma {:induction false} PaddingKeepsValue(s: string, width: nat)
    requires AllDigits(s) && |s| <= width
    ensures |PadStart(s, width)| == width && AllDigits(PadStart(s, width)) && Value(PadStart(s, width)) == Value(s)
    decreases width - |s|
  {
    if |s| < width {
      LeadingZero(s);
      PaddingKeepsValue("0" + s, width);
    }
  }

  // ---- truncation ---------------------------------------------------------------------

  function BigEndian(bytes: seq<Byte>): nat {
    if bytes == [] then 0 else 256 * BigEndian(bytes[..|bytes| - 1]) + bytes[|bytes| - 1]
  }

  /** The four bytes at the offset in the last byte's low half, the sign bit masked off. */
  function Truncated(digest: seq<Byte>): nat
    requires |digest| == 20
  {
    var offset := digest[19] % 16;
    var b0: int, b1: int, b2: int, b3: int :=
      digest[offset], digest[offset + 1], digest[offset + 2], digest[offset + 3];
    (b0 % 128) * 0x100_0000 + b1 * 0x1_0000 + b2 * 0x100 + b3
  }

  function CodeOf(digest: seq<Byte>): string
    requires |digest| == 20
  {
    PadStart(Decimal(Truncated(digest) % MODULUS), 6)
  }

  /** Truncation reads four bytes inside the digest as a 31-bit big-endian number. */
  lemma TruncationIs31Bits(digest: seq<Byte>)
    requires |digest| == 20
    ensures var offset := digest[19] % 16;
            offset + 4 <= 20 && Truncated(digest) == BigEndian(digest[offset..offset + 4]) % 0x8000_0000
  {
    var offset := digest[19] % 16;
    var w := digest[offset..offset + 4];
    var b0: int, b1: int, b2: int, b3: int := w[0], w[1], w[2], w[3];
    assert w[..3][..2] == w[..2] && w[..2][..1] == w[..1] && w[..1][..0] == [];
    assert BigEndian(w[..1]) == b0 && BigEndian(w[..2]) == 256 * b0 + b1;
    assert BigEndian(w[..3]) == 256 * BigEndian(w[..2]) + b2;
    assert BigEndian(w) == ((b0 * 256 + b1) * 256 + b2) * 256 + b3;
    assert b0 == 128 * (b0 / 128) + b0 % 128;
  }

  /** Every code is six digits and writes the truncated digest modulo a million. */
  lemma CodeIsSixDigits(digest: seq<Byte>)
    requires |digest| == 20
    ensures |CodeOf(digest)| == 6 && AllDigits(CodeOf(digest))
    ensures Value(CodeOf(digest)) == Truncated(digest) % MODULUS
  {
    var n := Truncated(digest) % MODULUS;
    assert Pow10(6) == MODULUS;
    DecimalIsShort(n, 6);
    PaddingKeepsValue(Decimal(n), 6);
  }

  /** `text` is the code of a digest: six digits that write the 31-bit big-endian number at the offset in
      the last byte's low half, modulo a million. */
  ghost predicate IsCodeOf(text: string, digest: seq<Byte>)
    requires |digest| == 20
  {
    var offset := digest[19] % 16;
    var b0: int, b1: int, b2: int, b3: int :=
      digest[offset], digest[offset + 1], digest[offset + 2], digest[offset + 3];
    && |text| == 6 && (forall i :: 0 <= i < 6 ==> '0' <= text[i] <= '9')
    && Value(text) == (b0 % 128 * 16_777_216 + b1 * 65_536 + b2 * 256 + b3) % 1_000_000
  }

  lemma {:induction false} DigitsAreUnique(a: string, b: string)
    requires AllDigits(a) && AllDigits(b) && |a| == |b| && Value(a) == Value(b)
    ensures a == b
  {
    if a != "" {
      var n := |a| - 1;
      DigitsAreUnique(a[..n], b[..n]);
      assert a == a[..n] + [a[n]] && b == b[..n] + [b[n]];
    }
  }

  lemma CodeOfIff(text: string, digest: seq<Byte>)
    requires |digest| == 20
    ensures text == CodeOf(digest) <==> IsCodeOf(text, digest)
  {
    CodeIsSixDigits(digest);
    if IsCodeOf(text, digest) {
      DigitsAreUnique(text, CodeOf(digest));
    }
  }

  // ---- codes and the window -----------------------------------------------------------

  /** The number of whole steps since the epoch; negative before it. */
  function Counter(now: int): int {
    now / STEP_MS
  }

  predicate Fits64(counter: int) {
    0 <= counter < 0x1_0000_0000_0000_0000
  }

  function CodeAt(h: Hmac, secret: string, counter: int): Result<string>
    requires TwentyBytes(h)
  {
    if !Fits64(counter) then CounterOutOfRange
    else match Base32.Decoded(secret)
      case InvalidSecret => InvalidSecret
      case Ok(key) => Ok(CodeOf(h(key, counter)))
  }

  function GenerateTotpCode(h: Hmac, secret: string, now: int): Result<string>
    requires TwentyBytes(h)
  {
    CodeAt(h, secret, Counter(now))
  }

  /** The code of a secret at a time is that of the digest, under the bytes the secret encodes, of the
      number of whole half minutes since the epoch; a time before it, or past 64 bits, has none. */
  lemma GeneratedIs(h: Hmac, secret: string, now: int)
    requires TwentyBytes(h)
    ensures var r := GenerateTotpCode(h, secret, now);
            if now < 0 || now >= 30_000 * 0x1_0000_0000_0000_0000 then r == CounterOutOfRange
            else match Base32.Decoded(secret)
              case InvalidSecret => r == InvalidSecret
              case Ok(key) => r.Ok? && IsCodeOf(r.value, h(key, now / 30_000))
  {
    match Base32.Decoded(secret)
    case InvalidSecret =>
    case Ok(key) =>
      if 0 <= Counter(now) {
        CodeOfIff(CodeOf(h(key, Counter(now))), h(key, Counter(now)));
      }
  }

  function Normalized(code: string): string {
    Base32.StripSpaces(code)
  }

  predicate IsSixDigits(s: string) {
    |s| == 6 && AllDigits(s)
  }

  /** What trying the steps `step`, `step + 1`, .. up to the window answers. */
  function TryFrom(h: Hmac, secret: string, code: string, now: int, window: int, step: int): Result<bool>
    requires TwentyBytes(h)
    decreases window - step
  {
    if step > window then Ok(false)
    else match GenerateTotpCode(h, secret, now + step * STEP_MS)
      case Ok(expected) => if expected == code then Ok(true) else TryFrom(h, secret, code, now, window, step + 1)
      case InvalidSecret => InvalidSecret
      case CounterOutOfRange => CounterOutOfRange
  }

  ghost function Verified(h: Hmac, secret: string, code: string, now: int, window: int): Result<bool>
    requires TwentyBytes(h)
  {
    if IsSixDigits(Normalized(code)) then TryFrom(h, secret, Normalized(code), now, window, -window) else Ok(false)
  }

  method VerifyTotpCode(h: Hmac, secret: string, code: string, now: int, window: int) returns (r: Result<bool>)
    requires TwentyBytes(h)
    ensures r == Verified(h, secret, code, now, window)
  {
    var normalizedCode := Normalized(code);
    if !IsSixDigits(normalizedCode) {
      return Ok(false);
    }
    var step := -window;
    while step <= window
      invariant TryFrom(h, secret, normalizedCode, now, window, -window) ==
                TryFrom(h, secret, normalizedCode, now, window, step)
      decreases window - step
    {
      var expected := GenerateTotpCode(h, secret, now + step * STEP_MS);
      match expected {
        case InvalidSecret => return InvalidSecret;
        case CounterOutOfRange => return CounterOutOfRange;
        case Ok(text) =>
          if text == normalizedCode {
            return Ok(true);
          }
      }
      step := step + 1;
    }
    return Ok(false);
  }

  /** Every counter the window reaches exists. */
  predicate WindowFits(now: int, window: int) {
    Fits64(Counter(now) - window) && Fits64(Counter(now) + window)
  }

  ghost predicate CodeBetween(h: Hmac, secret: string, code: string, first: int, last: int)
    requires TwentyBytes(h)
  {
    exists counter :: first <= counter <= last && CodeAt(h, secret, counter) == Ok(code)
  }

  lemma {:induction false} TryFromFinds(h: Hmac, secret: string, code: string, now: int, window: int, step: int)
    requires TwentyBytes(h) && Base32.Decoded(secret).Ok? && WindowFits(now, window) && -window <= step
    ensures TryFrom(h, secret, code, now, window, step) ==
            Ok(CodeBetween(h, secret, code, Counter(now) + step, Counter(now) + window))
    decreases window - step
  {
    if step <= window {
      TryFromFinds(h, secret, code, now, window, step + 1);
      assert Fits64(Counter(now) + step);
    }
  }

  /** Some step from `first` to `last` has a digest under `key` whose code is `text`. */
  ghost predicate CodeOfAStep(h: Hmac, key: seq<nat>, text: string, first: nat, last: nat)
    requires TwentyBytes(h)
  {
    exists step: nat :: first <= step <= last && IsCodeOf(text, h(key, step))
  }

  lemma CodeBetweenIff(h: Hmac, secret: string, text: string, first: nat, last: nat)
    requires TwentyBytes(h) && Base32.Decoded(secret).Ok? && Fits64(last)
    ensures CodeBetween(h, secret, text, first, last) <==>
            CodeOfAStep(h, Base32.Decoded(secret).value, text, first, last)
  {
    var key := Base32.Decoded(secret).value;
    forall step: nat | first <= step <= last
      ensures CodeAt(h, secret, step) == Ok(text) <==> IsCodeOf(text, h(key, step))
    {
      CodeOfIff(text, h(key, step));
    }
  }

  /** A code is accepted exactly when, spaces apart, it is the code of the digest of a half minute within
      the window, under the bytes the secret encodes. */
  lemma AcceptedIffInWindow(h: Hmac, secret: string, code: string, now: int, window: nat)
    requires TwentyBytes(h) && Base32.Decoded(secret).Ok?
    requires now >= 30_000 * window && now / 30_000 + window < 0x1_0000_0000_0000_0000
    ensures Verified(h, secret, code, now, window) ==
            Ok(CodeOfAStep(h, Base32.Decoded(secret).value, Base32.StripSpaces(code),
                           now / 30_000 - window, now / 30_000 + window))
  {
    TryFromFinds(h, secret, Normalized(code), now, window, -(window as int));
    forall counter | CodeAt(h, secret, counter) == Ok(Normalized(code)) ensures IsSixDigits(Normalized(code)) {
      CodeIsSixDigits(h(Base32.Decoded(secret).value, counter));
    }
    CodeBetweenIff(h, secret, Normalized(code), now / 30_000 - window, now / 30_000 + window);
  }

  /** What is no code of six digits is refused, and so is everything with a negative window; otherwise a
      text that is no secret is an error. */
  lemma RefusedOrThrown(h: Hmac, secret: string, code: string, now: int, window: int)
    requires TwentyBytes(h)
    ensures var text := Base32.StripSpaces(code);
            var sixDigits := |text| == 6 && forall i :: 0 <= i < 6 ==> '0' <= text[i] <= '9';
            && (!sixDigits || window < 0 ==> Verified(h, secret, code, now, window) == Ok(false))
            && (sixDigits && window >= 0 && now >= 30_000 * window && now / 30_000 < 0x1_0000_0000_0000_0000 ==>
                (Verified(h, secret, code, now, window) == InvalidSecret <==> Base32.Decoded(secret).InvalidSecret?))
  {
    if Base32.Decoded(secret).Ok? {
      NeverInvalid(h, secret, Normalized(code), now, window, -window);
    } else if window >= 0 && now >= 30_000 * window && now / 30_000 < 0x1_0000_0000_0000_0000 {
      GeneratedIs(h, secret, now - window * 30_000);
    }
  }

  lemma {:induction false} NeverInvalid(h: Hmac, secret: string, code: string, now: int, window: int, step: int)
    requires TwentyBytes(h) && Base32.Decoded(secret).Ok?
    ensures !TryFrom(h, secret, code, now, window, step).InvalidSecret?
    decreases window - step
  {
    if step <= window {
      NeverInvalid(h, secret, code, now, window, step + 1);
    }
  }

  /** Spaces in a code do not count. */
  lemma SpacesDoNotCount(h: Hmac, secret: string, before: string, c: char, after: string, now: int, window: int)
    requires TwentyBytes(h) && Spelling.IsBlank(c)
    ensures Verified(h, secret, before + [c] + after, now, window) == Verified(h, secret, before + after, now, window)
  {
    Spelling.BlankIsStripped(before, c, after);
  }

  /** A code made at `t` is accepted at every `t'` at most `window` half minutes away. */
  lemma DriftIsTolerated(h: Hmac, secret: string, t: int, t': int, window: nat)
    requires TwentyBytes(h) && GenerateTotpCode(h, secret, t).Ok?
    requires t' >= 30_000 * window && t' / 30_000 + window < 0x1_0000_0000_0000_0000
    requires t - 30_000 * window <= t' <= t + 30_000 * window
    ensures Verified(h, secret, GenerateTotpCode(h, secret, t).value, t', window) == Ok(true)
  {
    var code := GenerateTotpCode(h, secret, t).value;
    GeneratedIs(h, secret, t);
    NoSpaces(code);
    AcceptedIffInWindow(h, secret, code, t', window);
    assert t' / 30_000 - window <= t / 30_000 <= t' / 30_000 + window;
  }

  lemma {:induction false} NoSpaces(s: string)
    requires AllDigits(s)
    ensures Normalized(s) == s
  {
    if s != "" {
      NoSpaces(s[1..]);
    }
  }

  /** Verifying a well-formed code at a time the window reaches before the epoch throws instead of
      answering, whatever the code is: the first step tried is the earliest. */
  lemma EarlyClockThrows(h: Hmac, secret: string, code: string, now: int, window: nat)
    requires TwentyBytes(h) && now < 30_000 * window
    requires var text := Base32.StripSpaces(code); |text| == 6 && forall i :: 0 <= i < 6 ==> '0' <= text[i] <= '9'
    ensures Verified(h, secret, code, now, window) == CounterOutOfRange
  {
    GeneratedIs(h, secret, now - window * 30_000);
  }
}
