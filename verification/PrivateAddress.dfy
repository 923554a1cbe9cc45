// Which addresses the outbound client refuses: a test on the text of an address, against the ranges
// of numbers the text stands for.
module PrivateAddress {
  import opened Ascii
  import opened Decimals
  import opened Options
  import SafeHttp

  const MAPPED := "::ffff:"

  function Split(s: string, c: char): (parts: seq<string>)
    ensures |parts| > 0
  {
    if s == "" then [""]
    else
      var rest := Split(s[1..], c);
      if s[0] == c then [""] + rest else [[s[0]] + rest[0]] + rest[1..]
  }

  // ---- the test -----------------------------------------------------------------------

  predicate IsHex(c: char) {
    IsDigit(c) || 'a' <= c <= 'f'
  }

  predicate IsGroup(s: string) {
    1 <= |s| <= 4 && forall i :: 0 <= i < |s| ==> IsHex(s[i])
  }

  /** One to four hexadecimal digits, small ones, written out. */
  ghost predicate HexGroup(s: string)
    ensures HexGroup(s) ==> IsGroup(s)
  {
    |s| in {1, 2, 3, 4} && forall i :: 0 <= i < |s| ==> ('0' <= s[i] <= '9') || ('a' <= s[i] <= 'f')
  }

  function HexDigit(c: char): nat
    requires IsHex(c)
  {
    if IsDigit(c) then c as int - '0' as int else c as int - 'a' as int + 10
  }

  /** The number a text of hexadecimal digits writes. */
  function HexValue(s: string): nat
    requires forall i :: 0 <= i < |s| ==> IsHex(s[i])
  {
    if s == "" then 0 else 16 * HexValue(s[..|s| - 1]) + HexDigit(s[|s| - 1])
  }

  function Dotted(a: nat, b: nat, c: nat, d: nat): string {
    Decimal(a) + "." + (Decimal(b) + "." + (Decimal(c) + "." + Decimal(d)))
  }

  predicate FourNumbers(s: string) {
    var parts := Split(s, '.');
    |parts| == 4 && forall i :: 0 <= i < 4 ==> parts[i] != "" && AllDigits(parts[i])
  }

  /** An octet as an address writes it: no leading zero, at most 255. */
  predicate IsOctet(s: string) {
    AllDigits(s) && 0 <= Value(s) <= 255 && s == Decimal(Value(s))
  }

  predicate IsIPv4(s: string) {
    var parts := Split(s, '.');
    |parts| == 4 && forall i :: 0 <= i < 4 ==> IsOctet(parts[i])
  }

  function MappedHex(rest: string): Option<string> {
    var groups := Split(rest, ':');
    if |groups| == 2 && IsGroup(groups[0]) && IsGroup(groups[1]) then
      var high, low := HexValue(groups[0]), HexValue(groups[1]);
      Some(Dotted(high / 256, high % 256, low / 256, low % 256))
    else None
  }

  /** The dotted address inside an IPv4-mapped one, or the address itself if it is dotted. */
  function Ipv4Of(normalized: string): Option<string> {
    if MAPPED <= normalized && FourNumbers(normalized[|MAPPED|..]) then Some(normalized[|MAPPED|..])
    else if MAPPED <= normalized && MappedHex(normalized[|MAPPED|..]).Some? then MappedHex(normalized[|MAPPED|..])
    else if IsIPv4(normalized) then Some(normalized)
    else None
  }

  predicate ByPrefix(normalized: string) {
    || normalized == "::1" || normalized == "::"
    || (|normalized| >= 5 && LinkLocal(normalized[0], normalized[1], normalized[2]) && IsHex(normalized[3])
        && normalized[4] == ':')
    || (|normalized| >= 2 && UniqueLocalOrMulticast(normalized[0], normalized[1]))
  }

  predicate LinkLocal(first: char, second: char, third: char) {
    first == 'f' && second == 'e' && (third == '8' || third == '9' || third == 'a' || third == 'b')
  }

  predicate UniqueLocalOrMulticast(first: char, second: char) {
    first == 'f' && (second == 'c' || second == 'd' || second == 'f')
  }

  predicate Reserved(first: int, second: int) {
    || first == 0 || first == 10 || first == 127
    || (first == 100 && second >= 64 && second <= 127)
    || (first == 169 && second == 254)
    || (first == 172 && second >= 16 && second <= 31)
    || (first == 192 && second == 168)
    || first >= 224
  }

  predicate IsPrivate(address: string) {
    var normalized := LowerAll(address);
    || ByPrefix(normalized)
    || match Ipv4Of(normalized)
       case None => false
       case Some(ipv4) =>
         var parts := Split(ipv4, '.');
         Reserved(Value(parts[0]), if |parts| > 1 then Value(parts[1]) else 0)
  }

  // ---- the ranges ---------------------------------------------------------------------

  function Ip(a: nat, b: nat, c: nat, d: nat): nat {
    ((a * 256 + b) * 256 + c) * 256 + d
  }

  /** The blocks 0.0.0.0/8, 10.0.0.0/8, 100.64.0.0/10, 127.0.0.0/8, 169.254.0.0/16, 172.16.0.0/12,
      192.168.0.0/16, and everything from 224.0.0.0 on. */
  predicate InPrivateRange(address: nat) {
    || address <= Ip(0, 255, 255, 255)
    || Ip(10, 0, 0, 0) <= address <= Ip(10, 255, 255, 255)
    || Ip(100, 64, 0, 0) <= address <= Ip(100, 127, 255, 255)
    || Ip(127, 0, 0, 0) <= address <= Ip(127, 255, 255, 255)
    || Ip(169, 254, 0, 0) <= address <= Ip(169, 254, 255, 255)
    || Ip(172, 16, 0, 0) <= address <= Ip(172, 31, 255, 255)
    || Ip(192, 168, 0, 0) <= address <= Ip(192, 168, 255, 255)
    || Ip(224, 0, 0, 0) <= address
  }

  predicate Byte(n: nat) {
    n < 256
  }

  lemma ReservedIsTheRanges(a: nat, b: nat, c: nat, d: nat)
    requires Byte(a) && Byte(b) && Byte(c) && Byte(d)
    ensures Reserved(a, b) <==> InPrivateRange(Ip(a, b, c, d))
  {
  }

  // ---- reading the texts --------------------------------------------------------------

  predicate Free(s: string, c: char) {
    forall i :: 0 <= i < |s| ==> s[i] != c
  }

  lemma {:induction false} SplitFree(s: string, c: char)
    requires Free(s, c)
    ensures Split(s, c) == [s]
    decreases |s|
  {
    if s != "" {
      SplitFree(s[1..], c);
      assert [s[0]] + s[1..] == s;
    }
  }

  lemma {:induction false} SplitFirst(part: string, c: char, rest: string)
    requires Free(part, c)
    ensures Split(part + [c] + rest, c) == [part] + Split(rest, c)
    decreases |part|
  {
    var s := part + [c] + rest;
    if part == "" {
      assert s[1..] == rest;
    } else {
      SplitFirst(part[1..], c, rest);
      assert s[1..] == part[1..] + [c] + rest;
      assert [part[0]] + part[1..] == part;
    }
  }

  lemma DigitsAreFree(n: nat)
    ensures Free(Decimal(n), '.') && Free(Decimal(n), ':') && Decimal(n) != "" && AllDigits(Decimal(n))
            && Value(Decimal(n)) == n
  {
    DecimalReads(n);
  }

  lemma SplitDotted(a: nat, b: nat, c: nat, d: nat)
    ensures Split(Dotted(a, b, c, d), '.') == [Decimal(a), Decimal(b), Decimal(c), Decimal(d)]
  {
    DigitsAreFree(a);
    DigitsAreFree(b);
    DigitsAreFree(c);
    DigitsAreFree(d);
    var last := Decimal(c) + "." + Decimal(d);
    SplitFirst(Decimal(a), '.', Decimal(b) + "." + last);
    SplitFirst(Decimal(b), '.', last);
    SplitFirst(Decimal(c), '.', Decimal(d));
    SplitFree(Decimal(d), '.');
  }

  lemma PartsRead(s: string, w: string, x: string, y: string, z: string)
    requires Split(s, '.') == [w, x, y, z]
    requires w != "" && AllDigits(w) && x != "" && AllDigits(x)
    requires y != "" && AllDigits(y) && z != "" && AllDigits(z)
    ensures FourNumbers(s)
    ensures IsIPv4(s) <==> IsOctet(w) && IsOctet(x) && IsOctet(y) && IsOctet(z)
  {
    var parts := Split(s, '.');
    assert parts[0] == w && parts[1] == x && parts[2] == y && parts[3] == z;
  }

  lemma OctetIff(n: nat)
    ensures IsOctet(Decimal(n)) <==> Byte(n)
  {
    DigitsAreFree(n);
  }

  lemma DottedReads(a: nat, b: nat, c: nat, d: nat)
    ensures FourNumbers(Dotted(a, b, c, d))
    ensures IsIPv4(Dotted(a, b, c, d)) <==> Byte(a) && Byte(b) && Byte(c) && Byte(d)
    ensures Value(Split(Dotted(a, b, c, d), '.')[0]) == a && Value(Split(Dotted(a, b, c, d), '.')[1]) == b
    ensures IsDigit(Dotted(a, b, c, d)[0])
  {
    SplitDotted(a, b, c, d);
    DigitsAreFree(a);
    DigitsAreFree(b);
    DigitsAreFree(c);
    DigitsAreFree(d);
    PartsRead(Dotted(a, b, c, d), Decimal(a), Decimal(b), Decimal(c), Decimal(d));
    OctetIff(a);
    OctetIff(b);
    OctetIff(c);
    OctetIff(d);
    assert Dotted(a, b, c, d)[0] == Decimal(a)[0];
  }

  lemma MappedTextHasNoPrefix(normalized: string)
    requires MAPPED <= normalized
    ensures !ByPrefix(normalized)
  {
    assert normalized[0] == ':' && normalized[2] == 'f';
  }

  /** The text is refused if and only if the number is in one of the ranges. */
  ghost predicate PrivateAs(address: string, number: nat) {
    IsPrivate(address) <==> InPrivateRange(number)
  }

  // ---- the theorems -------------------------------------------------------------------

  /** A dotted address is refused if and only if its number is in one of the ranges. */
  lemma DottedIsPrivateIff(address: string, a: nat, b: nat, c: nat, d: nat)
    requires Byte(a) && Byte(b) && Byte(c) && Byte(d) && LowerAll(address) == Dotted(a, b, c, d)
    ensures PrivateAs(address, Ip(a, b, c, d))
  {
    DottedReads(a, b, c, d);
    ReservedIsTheRanges(a, b, c, d);
    assert !(MAPPED <= Dotted(a, b, c, d));
  }

  /** A dotted text with a number beyond 255 is no address, and is not refused. */
  lemma OnlyBytesAreDotted(address: string, a: nat, b: nat, c: nat, d: nat)
    requires LowerAll(address) == Dotted(a, b, c, d)
    ensures IsPrivate(address) <==> a <= 255 && b <= 255 && c <= 255 && d <= 255 && InPrivateRange(Ip(a, b, c, d))
  {
    DottedReads(a, b, c, d);
    assert !(MAPPED <= Dotted(a, b, c, d));
    if Byte(a) && Byte(b) && Byte(c) && Byte(d) {
      DottedIsPrivateIff(address, a, b, c, d);
    }
  }

  /** After `::ffff:` any four numbers are taken, and judged by the first two alone. */
  lemma MappedNumbers(address: string, a: nat, b: nat, c: nat, d: nat)
    requires LowerAll(address) == "::ffff:" + Dotted(a, b, c, d)
    ensures IsPrivate(address) <==>
            || a in {0, 10, 127} || (a == 100 && 64 <= b <= 127) || (a == 169 && b == 254)
            || (a == 172 && 16 <= b <= 31) || (a == 192 && b == 168) || a >= 224
  {
    DottedReads(a, b, c, d);
    MappedTextHasNoPrefix(LowerAll(address));
    assert LowerAll(address)[|MAPPED|..] == Dotted(a, b, c, d);
  }

  /** Every text that starts with fc, fd or ff is refused, an address or not. */
  lemma LocalStartIsPrivate(address: string)
    requires var text := LowerAll(address);
             |text| >= 2 && (text[..2] == "fc" || text[..2] == "fd" || text[..2] == "ff")
    ensures IsPrivate(address)
  {
    var text := LowerAll(address);
    assert text[0] == text[..2][0] && text[1] == text[..2][1];
  }

  lemma MappedReads(address: string, rest: string, a: nat, b: nat, c: nat, d: nat)
    requires Byte(a) && Byte(b) && Byte(c) && Byte(d) && LowerAll(address) == MAPPED + rest
    requires rest == Dotted(a, b, c, d) || (!FourNumbers(rest) && MappedHex(rest) == Some(Dotted(a, b, c, d)))
    ensures PrivateAs(address, Ip(a, b, c, d))
  {
    DottedReads(a, b, c, d);
    ReservedIsTheRanges(a, b, c, d);
    MappedTextHasNoPrefix(LowerAll(address));
    assert LowerAll(address)[|MAPPED|..] == rest;
  }

  /** So is the same address inside an IPv6 one, written with dots. */
  lemma MappedIsPrivateIff(address: string, a: nat, b: nat, c: nat, d: nat)
    requires Byte(a) && Byte(b) && Byte(c) && Byte(d) && LowerAll(address) == "::ffff:" + Dotted(a, b, c, d)
    ensures PrivateAs(address, Ip(a, b, c, d))
  {
    MappedReads(address, Dotted(a, b, c, d), a, b, c, d);
  }

  lemma {:induction false} GroupIsSmall(s: string)
    requires forall i :: 0 <= i < |s| ==> IsHex(s[i])
    ensures |s| <= 1 ==> HexValue(s) < 16
    ensures |s| <= 2 ==> HexValue(s) < 256
    ensures |s| <= 3 ==> HexValue(s) < 4096
    ensures |s| <= 4 ==> HexValue(s) < 65536
    decreases |s|
  {
    if s != "" {
      GroupIsSmall(s[..|s| - 1]);
    }
  }

  lemma GroupIsFree(s: string)
    requires IsGroup(s)
    ensures Free(s, ':') && Free(s, '.')
  {
  }

  lemma {:induction false} SplitParts(s: string, c: char)
    ensures Free(s, c) ==> |Split(s, c)| == 1
    decreases |s|
  {
    if Free(s, c) { SplitFree(s, c); }
  }

  ghost predicate ReadsAs(rest: string, h: nat, l: nat) {
    !FourNumbers(rest) && MappedHex(rest) == Some(Dotted(h / 256, h % 256, l / 256, l % 256))
  }

  lemma HexReads(high: string, low: string)
    requires IsGroup(high) && IsGroup(low)
    ensures ReadsAs(high + ":" + low, HexValue(high), HexValue(low))
  {
    var rest := high + ":" + low;
    GroupIsFree(high);
    GroupIsFree(low);
    SplitFirst(high, ':', low);
    SplitFree(low, ':');
    SplitParts(rest, '.');
  }

  lemma TwoBytes(n: nat)
    requires n < 65536
    ensures Byte(n / 256) && Byte(n % 256) && n == 256 * (n / 256) + n % 256
  {
  }

  lemma IpOfGroups(h: nat, l: nat)
    requires h < 65536 && l < 65536
    ensures Ip(h / 256, h % 256, l / 256, l % 256) == 65536 * h + l
  {
    TwoBytes(h);
    TwoBytes(l);
  }

  lemma MappedHexReads(address: string, rest: string, h: nat, l: nat)
    requires h < 65536 && l < 65536 && LowerAll(address) == MAPPED + rest
    requires ReadsAs(rest, h, l)
    ensures PrivateAs(address, 65536 * h + l)
  {
    TwoBytes(h);
    TwoBytes(l);
    MappedReads(address, rest, h / 256, h % 256, l / 256, l % 256);
    IpOfGroups(h, l);
  }

  /** And written as two groups of hexadecimal digits, in any letter case. */
  lemma MappedHexIsPrivateIff(address: string, high: string, low: string)
    requires HexGroup(high) && HexGroup(low) && LowerAll(address) == "::ffff:" + (high + ":" + low)
    ensures PrivateAs(address, 65536 * HexValue(high) + HexValue(low))
  {
    GroupIsSmall(high);
    GroupIsSmall(low);
    HexReads(high, low);
    MappedHexReads(address, high + ":" + low, HexValue(high), HexValue(low));
  }

  // ---- IPv6 by its first group --------------------------------------------------------

  /** fc00::/7, fe80::/10 and ff00::/8: the addresses that stay local, and multicast. */
  predicate LocalGroup(value: nat) {
    0xfc00 <= value <= 0xfdff || 0xfe80 <= value <= 0xfebf || 0xff00 <= value <= 0xffff
  }

  /** A first group that is shorter than four digits but starts like one of those. */
  predicate LooksLocal(group: string) {
    2 <= |group| < 4 && UniqueLocalOrMulticast(group[0], group[1])
  }

  lemma FourDigits(s: string)
    requires |s| == 4 && IsGroup(s)
    ensures HexValue(s) == 4096 * HexDigit(s[0]) + 256 * HexDigit(s[1]) + 16 * HexDigit(s[2]) + HexDigit(s[3])
  {
    assert s[..3][..2] == s[..2] && s[..2][..1] == s[..1] && s[..1][..0] == "";
    assert HexValue(s[..1]) == HexDigit(s[0]);
    assert HexValue(s[..2]) == 16 * HexDigit(s[0]) + HexDigit(s[1]);
    assert HexValue(s[..3]) == 16 * HexValue(s[..2]) + HexDigit(s[2]);
  }

  lemma LocalDigits(c0: char, c1: char, c2: char, c3: char)
    requires IsHex(c0) && IsHex(c1) && IsHex(c2) && IsHex(c3)
    ensures LinkLocal(c0, c1, c2) || UniqueLocalOrMulticast(c0, c1) <==>
            LocalGroup(4096 * HexDigit(c0) + 256 * HexDigit(c1) + 16 * HexDigit(c2) + HexDigit(c3))
  {
  }

  lemma FullGroup(group: string, s: string)
    requires IsGroup(group) && |group| == 4 && |s| > 4 && s[..4] == group && s[4] == ':'
    ensures ByPrefix(s) <==> LocalGroup(HexValue(group))
  {
    assert s[0] == group[0] && s[1] == group[1] && s[2] == group[2] && s[3] == group[3];
    FourDigits(group);
    LocalDigits(group[0], group[1], group[2], group[3]);
  }

  lemma ShortGroup(group: string, s: string)
    requires IsGroup(group) && |group| < 4 && |s| > |group| && s[..|group|] == group && s[|group|] == ':'
    ensures ByPrefix(s) <==> LooksLocal(group)
  {
    assert s[0] == group[0] != ':' && (|group| > 1 ==> s[1] == group[1]) && (|group| > 2 ==> s[2] == group[2]);
  }

  lemma LocalByDigits(group: string, rest: string)
    requires IsGroup(group)
    ensures ByPrefix(group + ":" + rest) <==> (|group| == 4 && LocalGroup(HexValue(group))) || LooksLocal(group)
  {
    if |group| == 4 {
      FullGroup(group, group + ":" + rest);
    } else {
      ShortGroup(group, group + ":" + rest);
    }
  }

  lemma GroupedIsNotDotted(group: string, rest: string)
    requires IsGroup(group)
    ensures Ipv4Of(group + ":" + rest).None?
  {
    var s := group + ":" + rest;
    assert s[0] == group[0] && s[|group|] == ':';
    ColonIsKept(s, '.', |group|);
  }

  lemma {:induction false} ColonIsKept(s: string, c: char, i: nat)
    requires i < |s| && s[i] == ':' && c != ':'
    ensures exists k :: 0 <= k < |Split(s, c)| && ':' in Split(s, c)[k]
    decreases |s|
  {
    if i == 0 {
      assert ':' in Split(s, c)[0];
    } else {
      ColonIsKept(s[1..], c, i - 1);
      var rest := Split(s[1..], c);
      var k :| 0 <= k < |rest| && ':' in rest[k];
      assert ':' in Split(s, c)[if s[0] == c then k + 1 else k];
    }
  }

  /** An address that starts with a group of hexadecimal digits is refused if and only if the group is
      of one of the local ranges, or is shorter and only looks like one. */
  lemma GroupedIsPrivateIff(address: string, group: string, rest: string)
    requires HexGroup(group) && LowerAll(address) == group + ":" + rest
    ensures IsPrivate(address) <==> (|group| == 4 && LocalGroup(HexValue(group))) || LooksLocal(group)
  {
    LocalByDigits(group, rest);
    GroupedIsNotDotted(group, rest);
  }

  /** A text that starts with a colon is refused if it is one of the two short forms, or IPv4-mapped and
      refused as such; no other is. */
  lemma ColonIsPrivateIff(address: string)
    requires var text := LowerAll(address); text != "" && text[0] == ':' && !("::ffff:" <= text)
    ensures IsPrivate(address) <==> LowerAll(address) == "::1" || LowerAll(address) == "::"
  {
    var text := LowerAll(address);
    ColonIsKept(text, '.', 0);
    assert !IsIPv4(text);
  }

  /** An IPv6 address that writes its leading zero groups out is never refused: loopback and the mapped
      forms are recognised in their short writing only. */
  lemma LongFormIsNotRefused(address: string, rest: string)
    requires LowerAll(address) == "0" + ":" + rest
    ensures !IsPrivate(address)
  {
    GroupedIsPrivateIff(address, "0", rest);
  }

  // ---- with the client ----------------------------------------------------------------

  ghost predicate WritesDotted(text: string, number: nat, a: nat, b: nat, c: nat, d: nat) {
    && Byte(a) && Byte(b) && Byte(c) && Byte(d) && number == Ip(a, b, c, d)
    && (text == Dotted(a, b, c, d) || text == "::ffff:" + Dotted(a, b, c, d))
  }

  ghost predicate WritesHex(text: string, number: nat, high: string, low: string) {
    HexGroup(high) && HexGroup(low) && text == "::ffff:" + (high + ":" + low)
      && number == 65536 * HexValue(high) + HexValue(low)
  }

  /** The text writes the IPv4 address `number`: dotted, or mapped in one of its two forms. */
  ghost predicate Writes(text: string, number: nat) {
    || (exists a: nat, b: nat, c: nat, d: nat :: WritesDotted(text, number, a, b, c, d))
    || (exists high: string, low: string :: WritesHex(text, number, high, low))
  }

  /** However an IPv4 address is written, it is refused if and only if its number is in the ranges. */
  lemma WrittenIsPrivateIff(address: string, number: nat)
    requires Writes(LowerAll(address), number)
    ensures PrivateAs(address, number)
  {
    var text := LowerAll(address);
    if a: nat, b: nat, c: nat, d: nat :| WritesDotted(text, number, a, b, c, d) {
      if text == Dotted(a, b, c, d) {
        DottedIsPrivateIff(address, a, b, c, d);
      } else {
        MappedIsPrivateIff(address, a, b, c, d);
      }
    } else {
      var high: string, low: string :| WritesHex(text, number, high, low);
      MappedHexIsPrivateIff(address, high, low);
    }
  }

  /** The text is an IPv6 address whose first group is in one of the local ranges. */
  ghost predicate WritesLocal(text: string, group: string, rest: string) {
    HexGroup(group) && |group| == 4 && text == group + ":" + rest && LocalGroup(HexValue(group))
  }

  /** With this test, whatever the lookups and the servers answer, no request of a fetch is sent to an IPv4
      address of the private ranges, in any of the three writings, nor to loopback or a local IPv6 one. */
  lemma NoRequestIsPrivate(
      world: SafeHttp.World, start: Option<SafeHttp.Url>, verb: string, body: Option<string>, headers: SafeHttp.Headers,
      maxRedirects: int, i: nat)
    requires forall address: SafeHttp.Address :: world.isPrivate(address) == IsPrivate(address.text)
    requires i < |SafeHttp.FetchTrace(world, start, verb, body, headers, maxRedirects).exchanges|
    ensures var exchanges := SafeHttp.FetchTrace(world, start, verb, body, headers, maxRedirects).exchanges;
            var text := LowerAll(exchanges[i].request.address.text);
            && (forall number: nat :: InPrivateRange(number) ==> !Writes(text, number))
            && text != "::" && text != "::1"
            && (forall group: string, rest: string :: !WritesLocal(text, group, rest))
  {
    var request := SafeHttp.FetchTrace(world, start, verb, body, headers, maxRedirects).exchanges[i].request;
    SafeHttp.EveryRequestIsSafe(world, start, verb, body, headers, maxRedirects);
    assert SafeHttp.IsSafe(world, i, request);
    AllowedIsPublic(request.address.text);
  }

  lemma AllowedIsPublic(address: string)
    requires !IsPrivate(address)
    ensures forall number: nat :: InPrivateRange(number) ==> !Writes(LowerAll(address), number)
    ensures LowerAll(address) != "::" && LowerAll(address) != "::1"
    ensures forall group: string, rest: string :: !WritesLocal(LowerAll(address), group, rest)
  {
    var text := LowerAll(address);
    forall number: nat | InPrivateRange(number) ensures !Writes(text, number) {
      if Writes(text, number) { WrittenIsPrivateIff(address, number); }
    }
    forall group: string, rest: string ensures !WritesLocal(text, group, rest) {
      if WritesLocal(text, group, rest) { GroupedIsPrivateIff(address, group, rest); }
    }
  }
}
