// Base32 of a secret (section 6 of RFC 4648, without padding characters), as a loop over a
// 32-bit accumulator and as the definition on bit strings.
module Base32 {
  import opened Powers

  type Byte = x: int | 0 <= x < 256

  datatype Result<T> = Ok(value: T) | InvalidSecret

  lemma SmallPowers()
    ensures Pow2(5) == 32 && Pow2(8) == 256 && Pow2(0) == 1
  {
  }

  // ---- bit strings --------------------------------------------------------------------

  /** The `w` low bits of `n`, most significant first. */
  function ToBits(n: nat, w: nat): (bits: seq<bool>)
    ensures |bits| == w
  {
    if w == 0 then [] else ToBits(n / 2, w - 1) + [n % 2 == 1]
  }

  function FromBits(bits: seq<bool>): nat {
    if bits == [] then 0
    else 2 * FromBits(bits[..|bits| - 1]) + if bits[|bits| - 1] then 1 else 0
  }

  lemma {:induction false} FromBitsBound(bits: seq<bool>)
    ensures FromBits(bits) < Pow2(|bits|)
  {
    if bits != [] {
      FromBitsBound(bits[..|bits| - 1]);
    }
  }

  function Zeros(n: nat): (bits: seq<bool>)
    ensures |bits| == n
  {
    seq(n, i => false)
  }

  /** The words of a message as one bit string, `w` bits a word. */
  function Unpack(words: seq<nat>, w: nat): seq<bool> {
    if words == [] then [] else ToBits(words[0], w) + Unpack(words[1..], w)
  }

  /** A bit string cut into words of `w` bits; an incomplete last word is dropped. */
  function Pack(bits: seq<bool>, w: nat): seq<nat>
    requires w > 0
  {
    if |bits| < w then [] else [FromBits(bits[..w])] + Pack(bits[w..], w)
  }

  ghost predicate Below(words: seq<nat>, bound: nat) {
    forall i :: 0 <= i < |words| ==> words[i] < bound
  }

  lemma {:induction false} PackBound(bits: seq<bool>, w: nat)
    requires w > 0
    ensures Below(Pack(bits, w), Pow2(w))
    decreases |bits|
  {
    if |bits| >= w {
      FromBitsBound(bits[..w]);
      PackBound(bits[w..], w);
    }
  }

  function PadTo5(bits: seq<bool>): seq<bool> {
    bits + Zeros((5 - |bits| % 5) % 5)
  }

  // ---- the definition -----------------------------------------------------------------

  function SymbolsOf(bytes: seq<nat>): seq<nat> {
    Pack(PadTo5(Unpack(bytes, 8)), 5)
  }

  function BytesOf(symbols: seq<nat>): seq<nat> {
    Pack(Unpack(symbols, 5), 8)
  }

  lemma SymbolsBound(bytes: seq<nat>)
    ensures Below(SymbolsOf(bytes), 32)
  {
    SmallPowers();
    PackBound(PadTo5(Unpack(bytes, 8)), 5);
  }

  lemma BytesBound(symbols: seq<nat>)
    ensures Below(BytesOf(symbols), 256)
  {
    SmallPowers();
    PackBound(Unpack(symbols, 5), 8);
  }

  lemma {:induction false} FromToBits(n: nat, w: nat)
    ensures FromBits(ToBits(n, w)) == n % Pow2(w)
    decreases w
  {
    if w > 0 {
      FromToBits(n / 2, w - 1);
      HalfMod(n, Pow2(w - 1));
      assert ToBits(n, w)[..w - 1] == ToBits(n / 2, w - 1);
    }
  }

  lemma FromWord(x: nat, w: nat)
    requires x < Pow2(w)
    ensures FromBits(ToBits(x, w)) == x
  {
  }

  lemma {:induction false} ToFromBits(bits: seq<bool>)
    ensures ToBits(FromBits(bits), |bits|) == bits
  {
    if bits != [] {
      var init := bits[..|bits| - 1];
      ToFromBits(init);
      assert bits == init + [bits[|bits| - 1]];
    }
  }

  lemma {:induction false} FromBitsConcat(a: seq<bool>, b: seq<bool>)
    ensures FromBits(a + b) == FromBits(a) * Pow2(|b|) + FromBits(b)
    decreases |b|
  {
    if b == [] {
      assert a + b == a;
    } else {
      var init := b[..|b| - 1];
      FromBitsConcat(a, init);
      assert (a + b)[..|a + b| - 1] == a + init;
      var p := Pow2(|init|);
      DoubleProduct(FromBits(a), p, Pow2(|b|));
    }
  }

  lemma DoubleProduct(x: int, p: int, twice: int)
    requires twice == 2 * p
    ensures x * twice == 2 * (x * p)
  {
  }

  /** Words survive being written as bits and cut again, even before a tail shorter than a word. */
  lemma {:induction false} PackUnpack(words: seq<nat>, w: nat, tail: seq<bool>)
    requires w > 0 && |tail| < w && Below(words, Pow2(w))
    ensures Pack(Unpack(words, w) + tail, w) == words
    decreases |words|
  {
    if words == [] {
      assert Unpack(words, w) + tail == tail;
    } else {
      var rest := Unpack(words[1..], w) + tail;
      assert Unpack(words, w) + tail == ToBits(words[0], w) + rest;
      FromWord(words[0], w);
      PackUnpack(words[1..], w, tail);
    }
  }

  /** Cutting loses only an incomplete last word. */
  lemma {:induction false} UnpackPack(bits: seq<bool>, w: nat)
    requires w > 0
    ensures Unpack(Pack(bits, w), w) <= bits && |bits| - |Unpack(Pack(bits, w), w)| < w
    decreases |bits|
  {
    if |bits| >= w {
      UnpackPack(bits[w..], w);
      ToFromBits(bits[..w]);
      assert bits == bits[..w] + bits[w..];
    }
  }

  lemma {:induction false} UnpackLength(words: seq<nat>, w: nat)
    ensures |Unpack(words, w)| == w * |words|
    decreases |words|
  {
    if words != [] {
      UnpackLength(words[1..], w);
      assert w * |words| == w + w * (|words| - 1);
    }
  }

  /** decode(encode(b)) = b on the level of words. */
  lemma SymbolsRoundTrip(bytes: seq<Byte>)
    ensures BytesOf(SymbolsOf(bytes)) == bytes
  {
    var bits := Unpack(bytes, 8);
    var padded := PadTo5(bits);
    UnpackPack(padded, 5);
    UnpackLength(SymbolsOf(bytes), 5);
    assert Unpack(SymbolsOf(bytes), 5) == padded;
    SmallPowers();
    PackUnpack(bytes, 8, Zeros((5 - |bits| % 5) % 5));
  }

  /** The encoded length is 8n/5 rounded up. */
  lemma EncodedLength(bytes: seq<Byte>)
    ensures |SymbolsOf(bytes)| == (8 * |bytes| + 4) / 5
  {
    var padded := PadTo5(Unpack(bytes, 8));
    UnpackLength(bytes, 8);
    UnpackPack(padded, 5);
    UnpackLength(SymbolsOf(bytes), 5);
  }

  lemma {:induction false} UnpackAppend(words: seq<nat>, x: nat, w: nat)
    ensures Unpack(words + [x], w) == Unpack(words, w) + ToBits(x, w)
    decreases |words|
  {
    if words == [] {
      assert ([x])[1..] == [];
    } else {
      assert (words + [x])[1..] == words[1..] + [x];
      UnpackAppend(words[1..], x, w);
    }
  }

  lemma {:induction false} LowBits(x: nat, w: nat, r: nat)
    requires r <= w
    ensures ToBits(x, w)[w - r..] == ToBits(x, r)
    decreases w
  {
    if r > 0 {
      LowBits(x / 2, w - 1, r - 1);
    }
  }

  lemma {:induction false} ZeroBits(bits: seq<bool>)
    ensures FromBits(bits) == 0 <==> bits == Zeros(|bits|)
  {
    if bits != [] {
      var init := bits[..|bits| - 1];
      ZeroBits(init);
      assert bits == init + [bits[|bits| - 1]];
      assert Zeros(|bits|)[..|bits| - 1] == Zeros(|init|);
    }
  }

  /** How many bits of `n` symbols lie beyond the last whole byte. */
  function DroppedBits(n: nat): (r: nat)
    ensures r < 8
  {
    5 * n % 8
  }

  /** A symbol string that could have come out of the encoder: a possible length, and no bit set
      among the bits beyond the last whole byte, all of which lie in the last symbol. */
  predicate Canonical(symbols: seq<nat>) {
    && |symbols| % 8 !in {1, 3, 6}
    && (symbols != [] ==> symbols[|symbols| - 1] % Pow2(DroppedBits(|symbols|)) == 0)
  }

  lemma PackInverts(symbols: seq<nat>, bits: seq<bool>)
    requires |bits| % 5 == 0 && Below(symbols, Pow2(5))
    ensures Pack(bits, 5) == symbols <==> bits == Unpack(symbols, 5)
  {
    if bits == Unpack(symbols, 5) {
      PackUnpack(symbols, 5, []);
      assert bits + [] == bits;
    }
    if Pack(bits, 5) == symbols {
      WholeWords(bits);
    }
  }

  lemma WholeWords(bits: seq<bool>)
    requires |bits| % 5 == 0
    ensures Unpack(Pack(bits, 5), 5) == bits
  {
    UnpackPack(bits, 5);
    SameMultiple(bits, Pack(bits, 5), Unpack(Pack(bits, 5), 5));
  }

  lemma SameMultiple(bits: seq<bool>, words: seq<nat>, again: seq<bool>)
    requires again <= bits && again == Unpack(words, 5) && |bits| - |again| < 5 && |bits| % 5 == 0
    ensures again == bits
  {
    UnpackLength(words, 5);
    var n := |words|;
    assert |again| == 5 * n;
  }

  lemma PaddingRestores(bits: seq<bool>, kept: seq<bool>)
    requires kept <= bits && |bits| % 5 == 0 && |bits| - |kept| < 8
    ensures var r := |bits| - |kept|;
            PadTo5(kept) == bits <==> r < 5 && bits[|kept|..] == Zeros(r)
  {
  }

  /** The last `r` bits of a symbol string, inside its last symbol. */
  lemma TailOfUnpack(symbols: seq<nat>, r: nat)
    requires symbols != [] && r <= 5
    ensures |Unpack(symbols, 5)| >= r
    ensures Unpack(symbols, 5)[|Unpack(symbols, 5)| - r..] == ToBits(symbols[|symbols| - 1], r)
  {
    var init, last := symbols[..|symbols| - 1], symbols[|symbols| - 1];
    assert symbols == init + [last];
    UnpackAppend(init, last, 5);
    LowBits(last, 5, r);
  }

  lemma LastBits(symbols: seq<nat>, r: nat)
    requires symbols != [] && r <= 5
    ensures |Unpack(symbols, 5)| >= r
    ensures Unpack(symbols, 5)[|Unpack(symbols, 5)| - r..] == Zeros(r) <==> symbols[|symbols| - 1] % Pow2(r) == 0
  {
    TailOfUnpack(symbols, r);
    FromToBits(symbols[|symbols| - 1], r);
    ZeroBits(ToBits(symbols[|symbols| - 1], r));
  }

  lemma KeptBits(symbols: seq<nat>)
    ensures Unpack(BytesOf(symbols), 8) <= Unpack(symbols, 5)
    ensures |Unpack(symbols, 5)| == 5 * |symbols|
    ensures |Unpack(symbols, 5)| - |Unpack(BytesOf(symbols), 8)| == DroppedBits(|symbols|)
  {
    var bits := Unpack(symbols, 5);
    UnpackLength(symbols, 5);
    UnpackPack(bits, 8);
    LeftOver(|symbols|, BytesOf(symbols), |bits| - |Unpack(BytesOf(symbols), 8)|);
  }

  lemma LeftOver(n: nat, bytes: seq<nat>, r: int)
    requires 5 * n - |Unpack(bytes, 8)| == r && 0 <= r < 8
    ensures r == DroppedBits(n)
  {
    UnpackLength(bytes, 8);
    DivModUnique(5 * n, 8, |bytes|, r);
  }

  lemma ReencodeIffPadded(symbols: seq<nat>)
    requires Below(symbols, 32)
    ensures SymbolsOf(BytesOf(symbols)) == symbols <==> PadTo5(Unpack(BytesOf(symbols), 8)) == Unpack(symbols, 5)
  {
    SmallPowers();
    PackInverts(symbols, PadTo5(Unpack(BytesOf(symbols), 8)));
  }

  lemma LengthCases(n: nat)
    ensures DroppedBits(n) >= 5 <==> n % 8 in {1, 3, 6}
    ensures n % 8 == 0 ==> DroppedBits(n) == 0
  {
  }

  lemma CanonicalIffZeros(symbols: seq<nat>, bits: seq<bool>)
    requires bits == Unpack(symbols, 5) && |bits| == 5 * |symbols|
    ensures var r := DroppedBits(|symbols|);
            Canonical(symbols) <==> r < 5 && (symbols != [] ==> r <= |bits| && bits[|bits| - r..] == Zeros(r))
  {
    var r := DroppedBits(|symbols|);
    LengthCases(|symbols|);
    if symbols != [] && r < 5 {
      LastBits(symbols, r);
    }
  }

  /** encode(decode(s)) = s exactly for the canonical strings; among them are all those whose
      length is a multiple of eight. */
  lemma ReencodeIffCanonical(symbols: seq<nat>)
    requires Below(symbols, 32)
    ensures SymbolsOf(BytesOf(symbols)) == symbols <==> Canonical(symbols)
  {
    KeptBits(symbols);
    ReencodeIffPadded(symbols);
    PaddingRestores(Unpack(symbols, 5), Unpack(BytesOf(symbols), 8));
    CanonicalIffZeros(symbols, Unpack(symbols, 5));
  }

  lemma WholeBlocksAreCanonical(symbols: seq<nat>)
    requires |symbols| % 8 == 0
    ensures Canonical(symbols)
  {
  }

  // ---- the accumulator ----------------------------------------------------------------

  const TWO32 := 0x1_0000_0000

  /** The value of an integer after JavaScript's bitwise operators: signed, 32 bits. */
  function ToInt32(x: int): (v: int)
    ensures -0x8000_0000 <= v < 0x8000_0000
  {
    (x + 0x8000_0000) % TWO32 - 0x8000_0000
  }

  function ShiftLeft(v: int, k: nat): int {
    ToInt32(v * Pow2(k))
  }

  /** The zero-filling right shift reads its operand as unsigned. */
  function ShiftRight(v: int, k: nat): int {
    (v % TWO32) / Pow2(k)
  }

  /** `v & (2^k - 1)`. */
  function LowMask(v: int, k: nat): int {
    v % Pow2(k)
  }

  lemma Pow32()
    ensures Pow2(32) == TWO32
  {
    assert Pow2(8) == 256;
    Pow2Sum(8, 8);
    Pow2Sum(16, 16);
  }

  /** Wrapping to 32 bits keeps the low bits, whether read as signed or as unsigned. */
  lemma WrapKeepsLowBits(x: int, t: int, k: nat)
    requires k <= 32
    ensures (x + TWO32 * t) % Pow2(k) == x % Pow2(k)
  {
    Pow32();
    Pow2Sum(k, 32 - k);
    Associates(Pow2(k), Pow2(32 - k), t);
    ModShift(x, Pow2(k), Pow2(32 - k) * t);
  }

  lemma SignedKeepsLowBits(x: int, y: nat, k: nat)
    requires k <= 32
    ensures (ToInt32(x) + y) % Pow2(k) == (x + y) % Pow2(k)
  {
    var t := -((x + 0x8000_0000) / TWO32);
    assert ToInt32(x) + y == x + y + TWO32 * t;
    WrapKeepsLowBits(x + y, t, k);
  }

  lemma UnsignedKeepsLowBits(v: int, k: nat)
    requires k <= 32
    ensures v % TWO32 % Pow2(k) == v % Pow2(k)
  {
    WrapKeepsLowBits(v, -(v / TWO32), k);
  }

  /** Shifting `w` places and or-ing a word in appends the word's bits to the pending ones. */
  lemma PushWord(v: int, pending: seq<bool>, x: nat, w: nat)
    requires |pending| + w <= 32 && x < Pow2(w) && v % Pow2(|pending|) == FromBits(pending)
    ensures (ShiftLeft(v, w) + x) % Pow2(|pending| + w) == FromBits(pending + ToBits(x, w))
  {
    var s, k := Pow2(w), |pending| + w;
    calc {
      (ShiftLeft(v, w) + x) % Pow2(k);
      { SignedKeepsLowBits(v * s, x, k); }
      (v * s + x) % Pow2(k);
      { Pow2Sum(|pending|, w); }
      (v * s + x) % (Pow2(|pending|) * s);
      { ScaledRemainder(v, Pow2(|pending|), s, x); }
      FromBits(pending) * s + x;
      { FromWord(x, w); FromBitsConcat(pending, ToBits(x, w)); }
      FromBits(pending + ToBits(x, w));
    }
  }

  /** The shifted accumulator ends in `w` zeros, so or-ing a word in is adding it. */
  lemma ShiftLeavesRoom(v: int, w: nat)
    requires w <= 32
    ensures ShiftLeft(v, w) % Pow2(w) == 0
  {
    SignedKeepsLowBits(v * Pow2(w), 0, w);
    DivModUnique(v * Pow2(w), Pow2(w), v, 0);
  }

  lemma PendingDigits(u: int, pending: seq<bool>, w: nat)
    requires w <= |pending| && u % Pow2(|pending|) == FromBits(pending)
    ensures u / Pow2(|pending| - w) % Pow2(w) == FromBits(pending[..w])
    ensures u % Pow2(|pending| - w) == FromBits(pending[w..])
  {
    var k := |pending| - w;
    assert pending == pending[..w] + pending[w..];
    FromBitsConcat(pending[..w], pending[w..]);
    Pow2Sum(w, k);
    FromBitsBound(pending[w..]);
    ReadDigits(u, Pow2(w), Pow2(k), FromBits(pending[..w]), FromBits(pending[w..]));
  }

  /** Shifting right by the bits that stay and masking reads the first `w` pending bits. */
  lemma TakeWord(v: int, pending: seq<bool>, w: nat)
    requires w <= |pending| <= 32 && v % Pow2(|pending|) == FromBits(pending)
    ensures LowMask(ShiftRight(v, |pending| - w), w) == FromBits(pending[..w])
    ensures v % Pow2(|pending| - w) == FromBits(pending[w..])
  {
    UnsignedKeepsLowBits(v, |pending|);
    UnsignedKeepsLowBits(v, |pending| - w);
    PendingDigits(v % TWO32, pending, w);
  }

  // ---- the codec on strings -----------------------------------------------------------

  function SymbolChar(i: nat): char
    requires i < 32
  {
    if i < 26 then ('A' as int + i) as char else ('2' as int + i - 26) as char
  }

  lemma SymbolCharsAreTheAlphabet()
    ensures seq(32, i requires 0 <= i < 32 => SymbolChar(i)) == "ABCDEFGHIJKLMNOPQRSTUVWXYZ234567"
  {
  }

  function Text(symbols: seq<nat>): (text: string)
    requires Below(symbols, 32)
    ensures |text| == |symbols| && forall i :: 0 <= i < |text| ==> text[i] == SymbolChar(symbols[i])
  {
    seq(|symbols|, i requires 0 <= i < |symbols| => SymbolChar(symbols[i]))
  }

  function Encoded(bytes: seq<nat>): string {
    SymbolsBound(bytes);
    Text(SymbolsOf(bytes))
  }

  /** The position of a character in the alphabet, or -1. */
  function IndexOf(c: char): (i: int)
    ensures -1 <= i < 32
    ensures i >= 0 ==> SymbolChar(i) == c
  {
    if 'A' <= c <= 'Z' then c as int - 'A' as int
    else if '2' <= c <= '7' then c as int - '2' as int + 26
    else -1
  }

  predicate IsSpace(c: char) {
    c in {' ', '\t', '\n', '\r', '\U{0B}', '\U{0C}', '\U{A0}', '\U{1680}', '\U{2028}', '\U{2029}', '\U{202F}',
          '\U{205F}', '\U{3000}', '\U{FEFF}'}
    || '\U{2000}' <= c <= '\U{200A}'
  }

  function Upper(c: char): char {
    if 'a' <= c <= 'z' then (c as int - 32) as char else c
  }

  function StripPadding(s: string): string {
    if s != "" && s[|s| - 1] == '=' then StripPadding(s[..|s| - 1]) else s
  }

  function StripSpaces(s: string): string {
    if s == "" then "" else (if IsSpace(s[0]) then "" else [s[0]]) + StripSpaces(s[1..])
  }

  function UpperAll(s: string): (u: string)
    ensures |u| == |s| && forall i :: 0 <= i < |s| ==> u[i] == Upper(s[i])
  {
    seq(|s|, i requires 0 <= i < |s| => Upper(s[i]))
  }

  function Clean(secret: string): string {
    UpperAll(StripSpaces(StripPadding(secret)))
  }

  predicate InAlphabet(s: string) {
    forall i :: 0 <= i < |s| ==> IndexOf(s[i]) >= 0
  }

  function SymbolsIn(s: string): (symbols: seq<nat>)
    requires InAlphabet(s)
    ensures |symbols| == |s| && Below(symbols, 32)
  {
    seq(|s|, i requires 0 <= i < |s| => IndexOf(s[i]))
  }

  function Decoded(secret: string): Result<seq<nat>> {
    if InAlphabet(Clean(secret)) then Ok(BytesOf(SymbolsIn(Clean(secret)))) else InvalidSecret
  }

  lemma {:induction false} CleanKeepsAlphabet(s: string)
    requires InAlphabet(s)
    ensures Clean(s) == s
  {
    StripSpacesKeepsAlphabet(s);
    assert UpperAll(s) == s;
  }

  lemma {:induction false} StripSpacesKeepsAlphabet(s: string)
    requires InAlphabet(s)
    ensures StripSpaces(s) == s
  {
    if s != "" {
      StripSpacesKeepsAlphabet(s[1..]);
    }
  }

  lemma {:induction false} PaddingIsStripped(s: string, n: nat)
    ensures StripPadding(s + seq(n, i => '=')) == StripPadding(s)
    decreases n
  {
    var padded := s + seq(n, i => '=');
    if n == 0 {
      assert padded == s;
    } else {
      assert padded[..|padded| - 1] == s + seq(n - 1, i => '=');
      PaddingIsStripped(s, n - 1);
    }
  }

  lemma PaddingIsIgnored(s: string, padded: string)
    requires StripPadding(padded) == StripPadding(s)
    ensures Decoded(padded) == Decoded(s)
  {
  }

  lemma TextIsReadBack(symbols: seq<nat>)
    requires Below(symbols, 32)
    ensures InAlphabet(Text(symbols)) && SymbolsIn(Text(symbols)) == symbols
  {
  }

  /** Every secret the generator can produce reads back as its bytes, padded or not. */
  lemma RoundTrip(bytes: seq<Byte>, padding: nat)
    ensures Decoded(Encoded(bytes)) == Ok(bytes)
    ensures Decoded(Encoded(bytes) + seq(padding, i => '=')) == Ok(bytes)
    ensures |Encoded(bytes)| == (8 * |bytes| + 4) / 5
  {
    SymbolsBound(bytes);
    TextIsReadBack(SymbolsOf(bytes));
    CleanKeepsAlphabet(Encoded(bytes));
    PaddingIsStripped(Encoded(bytes), padding);
    PaddingIsIgnored(Encoded(bytes), Encoded(bytes) + seq(padding, i => '='));
    SymbolsRoundTrip(bytes);
    EncodedLength(bytes);
  }

  lemma DecodedAreBytes(secret: string)
    requires Decoded(secret).Ok?
    ensures Below(Decoded(secret).value, 256)
  {
    BytesBound(SymbolsIn(Clean(secret)));
  }

  /** An alphabet string is reproduced by decoding and encoding exactly when it is canonical. */
  lemma ReencodedIffCanonical(secret: string)
    requires InAlphabet(secret)
    ensures Decoded(secret).Ok?
    ensures Below(Decoded(secret).value, 256)
    ensures Encoded(Decoded(secret).value) == secret <==> Canonical(SymbolsIn(secret))
    ensures |secret| % 8 == 0 ==> Encoded(Decoded(secret).value) == secret
  {
    CleanKeepsAlphabet(secret);
    DecodedAreBytes(secret);
    var symbols := SymbolsIn(secret);
    var again := SymbolsOf(BytesOf(symbols));
    ReencodeIffCanonical(symbols);
    if |secret| % 8 == 0 { WholeBlocksAreCanonical(symbols); }
    assert Text(symbols) == secret;
    SymbolsBound(BytesOf(symbols));
    TextIsReadBack(again);
  }

  // ---- the two loops ------------------------------------------------------------------

  /** `v | x` when the low `w` bits of `v` are zero and `x` fits in them. */
  function OrInto(v: int, x: nat, w: nat): int
    requires v % Pow2(w) == 0 && x < Pow2(w)
  {
    v + x
  }

  /** The loops' invariant: the emitted words and the pending bits are the bits read so far, and
      the low bits of the accumulator are the pending ones. */
  ghost predicate Accumulated(value: int, pending: seq<bool>, words: seq<nat>, w: nat, read: seq<bool>) {
    && value % Pow2(|pending|) == FromBits(pending)
    && Unpack(words, w) + pending == read
    && Below(words, Pow2(w))
  }

  lemma Push(value: int, pending: seq<bool>, words: seq<nat>, w: nat, read: seq<bool>, x: nat, k: nat)
    requires Accumulated(value, pending, words, w, read) && x < Pow2(k) && |pending| + k <= 32
    ensures ShiftLeft(value, k) % Pow2(k) == 0
    ensures Accumulated(OrInto(ShiftLeft(value, k), x, k), pending + ToBits(x, k), words, w, read + ToBits(x, k))
  {
    ShiftLeavesRoom(value, k);
    PushWord(value, pending, x, k);
    assert Unpack(words, w) + (pending + ToBits(x, k)) == read + ToBits(x, k);
  }

  lemma SplitAfter(a: seq<bool>, b: seq<bool>, n: nat)
    requires n <= |b|
    ensures a + b == a + b[..n] + b[n..]
  {
  }

  lemma Take(value: int, pending: seq<bool>, words: seq<nat>, w: nat, read: seq<bool>)
    requires Accumulated(value, pending, words, w, read) && w <= |pending| <= 32
    ensures Accumulated(value, pending[w..], words + [LowMask(ShiftRight(value, |pending| - w), w)], w, read)
  {
    TakeWord(value, pending, w);
    UnpackAppend(words, FromBits(pending[..w]), w);
    ToFromBits(pending[..w]);
    SplitAfter(Unpack(words, w), pending, w);
  }

  lemma PushByte(value: int, pending: seq<bool>, symbols: seq<nat>, buffer: seq<Byte>, i: nat)
    requires i < |buffer| && |pending| < 5 && Accumulated(value, pending, symbols, 5, Unpack(buffer[..i], 8))
    ensures buffer[i] < Pow2(8) && ShiftLeft(value, 8) % Pow2(8) == 0
    ensures Accumulated(OrInto(ShiftLeft(value, 8), buffer[i], 8), pending + ToBits(buffer[i], 8), symbols, 5,
                        Unpack(buffer[..i + 1], 8))
  {
    SmallPowers();
    Push(value, pending, symbols, 5, Unpack(buffer[..i], 8), buffer[i], 8);
    UnpackAppend(buffer[..i], buffer[i], 8);
    assert buffer[..i + 1] == buffer[..i] + [buffer[i]];
  }

  lemma PushSymbol(value: int, pending: seq<bool>, bytes: seq<nat>, s: string, i: nat)
    requires i < |s| && InAlphabet(s[..i]) && IndexOf(s[i]) >= 0 && |pending| < 8
    requires Accumulated(value, pending, bytes, 8, Unpack(SymbolsIn(s[..i]), 5))
    ensures IndexOf(s[i]) < Pow2(5) && ShiftLeft(value, 5) % Pow2(5) == 0 && InAlphabet(s[..i + 1])
    ensures Accumulated(OrInto(ShiftLeft(value, 5), IndexOf(s[i]), 5), pending + ToBits(IndexOf(s[i]), 5), bytes, 8,
                        Unpack(SymbolsIn(s[..i + 1]), 5))
  {
    SmallPowers();
    Push(value, pending, bytes, 8, Unpack(SymbolsIn(s[..i]), 5), IndexOf(s[i]), 5);
    ReadSymbol(s, i);
  }

  lemma ReadSymbol(s: string, i: nat)
    requires i < |s| && InAlphabet(s[..i]) && IndexOf(s[i]) >= 0
    ensures InAlphabet(s[..i + 1])
    ensures Unpack(SymbolsIn(s[..i + 1]), 5) == Unpack(SymbolsIn(s[..i]), 5) + ToBits(IndexOf(s[i]), 5)
  {
    UnpackAppend(SymbolsIn(s[..i]), IndexOf(s[i]), 5);
    assert s[..i + 1] == s[..i] + [s[i]];
    assert SymbolsIn(s[..i + 1]) == SymbolsIn(s[..i]) + [IndexOf(s[i])];
  }

  /** What the encoder has written: one character for each emitted symbol. */
  ghost predicate Written(output: string, symbols: seq<nat>) {
    Below(symbols, 32) && output == Text(symbols)
  }

  /** The inner loop: emit while a whole symbol is pending. */
  method EmitSymbols(
      value: int, bits: nat, output: string, ghost symbols: seq<nat>, ghost pending: seq<bool>, ghost read: seq<bool>)
    returns (bits': nat, output': string, ghost symbols': seq<nat>, ghost pending': seq<bool>)
    requires |pending| == bits <= 12 && Accumulated(value, pending, symbols, 5, read) && Written(output, symbols)
    ensures |pending'| == bits' < 5 && Accumulated(value, pending', symbols', 5, read) && Written(output', symbols')
  {
    bits', output', symbols', pending' := bits, output, symbols, pending;
    while bits' >= 5
      invariant |pending'| == bits' <= 12
      invariant Accumulated(value, pending', symbols', 5, read)
      invariant Written(output', symbols')
      decreases bits'
    {
      Take(value, pending', symbols', 5, read);
      var symbol := LowMask(ShiftRight(value, bits' - 5), 5);
      SmallPowers();
      output' := output' + [SymbolChar(symbol)];
      symbols', pending' := symbols' + [symbol], pending'[5..];
      bits' := bits' - 5;
    }
  }

  /** Where the encoder stands after the bits `read`: less than a symbol is pending. */
  ghost predicate Encoding(
    value: int, bits: nat, output: string, symbols: seq<nat>, pending: seq<bool>, read: seq<bool>)
  {
    |pending| == bits < 5 && Accumulated(value, pending, symbols, 5, read) && Written(output, symbols)
  }

  method EncodeByte(
      value: int, bits: nat, output: string, buffer: seq<Byte>, i: nat, ghost symbols: seq<nat>,
      ghost pending: seq<bool>)
    returns (value': int, bits': nat, output': string, ghost symbols': seq<nat>, ghost pending': seq<bool>)
    requires i < |buffer| && Encoding(value, bits, output, symbols, pending, Unpack(buffer[..i], 8))
    ensures Encoding(value', bits', output', symbols', pending', Unpack(buffer[..i + 1], 8))
  {
    PushByte(value, pending, symbols, buffer, i);
    value' := OrInto(ShiftLeft(value, 8), buffer[i], 8);
    bits', output', symbols', pending' :=
      EmitSymbols(value', bits + 8, output, symbols, pending + ToBits(buffer[i], 8), Unpack(buffer[..i + 1], 8));
  }

  lemma EncodingStarts()
    ensures Encoding(0, 0, "", [], [], Unpack([], 8))
  {
    SmallPowers();
  }

  method EncodeBase32(buffer: seq<Byte>) returns (output: string)
    ensures output == Encoded(buffer)
  {
    var bits, value := 0, 0;
    output := "";
    ghost var symbols: seq<nat>, pending: seq<bool> := [], [];
    EncodingStarts();
    assert buffer[..0] == [];
    for i := 0 to |buffer|
      invariant Encoding(value, bits, output, symbols, pending, Unpack(buffer[..i], 8))
    {
      value, bits, output, symbols, pending := EncodeByte(value, bits, output, buffer, i, symbols, pending);
    }
    assert buffer[..|buffer|] == buffer;
    LastCharacter(value, buffer, symbols, pending);
    if bits > 0 {
      output := output + [SymbolChar(LowMask(ShiftLeft(value, 5 - bits), 5))];
    }
  }

  /** The bits left over at the end, filled up with zeros, are the last symbol. */
  lemma LastSymbol(value: int, buffer: seq<Byte>, symbols: seq<nat>, pending: seq<bool>)
    requires |pending| < 5 && Accumulated(value, pending, symbols, 5, Unpack(buffer, 8))
    ensures SymbolsOf(buffer) ==
            if pending == [] then symbols else symbols + [LowMask(ShiftLeft(value, 5 - |pending|), 5)]
  {
    var n := |pending|;
    UnpackLength(symbols, 5);
    PaddingOf(symbols, pending, Unpack(buffer, 8));
    if n == 0 {
      PackUnpack(symbols, 5, []);
    } else {
      LastSymbolBits(value, pending);
      var symbol := LowMask(ShiftLeft(value, 5 - n), 5);
      UnpackAppend(symbols, symbol, 5);
      assert Unpack(symbols, 5) + (pending + Zeros(5 - n)) == Unpack(symbols + [symbol], 5) + [];
      PackUnpack(symbols + [symbol], 5, []);
    }
  }

  lemma LastCharacter(value: int, buffer: seq<Byte>, symbols: seq<nat>, pending: seq<bool>)
    requires |pending| < 5 && Accumulated(value, pending, symbols, 5, Unpack(buffer, 8)) && Below(symbols, 32)
    ensures Pow2(5) == 32
    ensures Encoded(buffer) ==
            if pending == [] then Text(symbols)
            else Text(symbols) + [SymbolChar(LowMask(ShiftLeft(value, 5 - |pending|), 5))]
  {
    SmallPowers();
    LastSymbol(value, buffer, symbols, pending);
  }

  lemma PaddingOf(symbols: seq<nat>, pending: seq<bool>, bits: seq<bool>)
    requires |pending| < 5 && bits == Unpack(symbols, 5) + pending
    ensures PadTo5(bits) ==
            if pending == [] then Unpack(symbols, 5) + []
            else Unpack(symbols, 5) + (pending + Zeros(5 - |pending|))
  {
    UnpackLength(symbols, 5);
  }

  lemma LastSymbolBits(value: int, pending: seq<bool>)
    requires 0 < |pending| < 5 && value % Pow2(|pending|) == FromBits(pending)
    ensures ToBits(LowMask(ShiftLeft(value, 5 - |pending|), 5), 5) == pending + Zeros(5 - |pending|)
  {
    var k := 5 - |pending|;
    PushWord(value, pending, 0, k);
    FromWord(0, k);
    ZeroBits(ToBits(0, k));
    ToFromBits(pending + Zeros(k));
  }

  lemma DecodedBytes(value: int, pending: seq<bool>, bytes: seq<nat>, secret: string)
    requires InAlphabet(Clean(secret)) && |pending| < 8
    requires Accumulated(value, pending, bytes, 8, Unpack(SymbolsIn(Clean(secret)), 5))
    ensures Decoded(secret) == Ok(bytes)
  {
    PackUnpack(bytes, 8, pending);
  }

  /** Where the decoder stands after the bits `read`: less than a byte is pending. */
  ghost predicate Decoding(value: int, bits: nat, bytes: seq<nat>, pending: seq<bool>, read: seq<bool>) {
    |pending| == bits < 8 && Accumulated(value, pending, bytes, 8, read)
  }

  method DecodeSymbol(value: int, bits: nat, bytes: seq<nat>, s: string, i: nat, ghost pending: seq<bool>)
    returns (value': int, bits': nat, bytes': seq<nat>, ghost pending': seq<bool>)
    requires i < |s| && InAlphabet(s[..i]) && IndexOf(s[i]) >= 0
    requires Decoding(value, bits, bytes, pending, Unpack(SymbolsIn(s[..i]), 5))
    ensures InAlphabet(s[..i + 1]) && Decoding(value', bits', bytes', pending', Unpack(SymbolsIn(s[..i + 1]), 5))
  {
    PushSymbol(value, pending, bytes, s, i);
    value', bits', bytes' := OrInto(ShiftLeft(value, 5), IndexOf(s[i]), 5), bits + 5, bytes;
    pending' := pending + ToBits(IndexOf(s[i]), 5);
    if bits' >= 8 {
      Take(value', pending', bytes, 8, Unpack(SymbolsIn(s[..i + 1]), 5));
      var byte := LowMask(ShiftRight(value', bits' - 8), 8);
      bits', bytes', pending' := bits' - 8, bytes + [byte], pending'[8..];
    }
  }

  lemma DecodingStarts()
    ensures Decoding(0, 0, [], [], Unpack([], 5))
  {
    SmallPowers();
  }

  method DecodeBase32(secret: string) returns (result: Result<seq<nat>>)
    ensures result == Decoded(secret)
  {
    var cleanSecret := Clean(secret);
    var bits, value := 0, 0;
    var bytes: seq<nat> := [];
    ghost var pending: seq<bool> := [];
    DecodingStarts();
    assert SymbolsIn(cleanSecret[..0]) == [];
    for i := 0 to |cleanSecret|
      invariant InAlphabet(cleanSecret[..i])
      invariant Decoding(value, bits, bytes, pending, Unpack(SymbolsIn(cleanSecret[..i]), 5))
    {
      if IndexOf(cleanSecret[i]) == -1 {
        return InvalidSecret;
      }
      value, bits, bytes, pending := DecodeSymbol(value, bits, bytes, cleanSecret, i, pending);
    }
    assert cleanSecret[..|cleanSecret|] == cleanSecret;
    DecodedBytes(value, pending, bytes, secret);
    return Ok(bytes);
  }
}
