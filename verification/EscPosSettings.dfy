// What the printer's settings come to, byte by byte: the frame of the payload, which lines are bold
// and how the text is encoded.
module EscPosSettings {
  import opened Ascii
  import opened EscPos
  import opened EscPosPrinter
  import opened Options

  ghost predicate Says(setting: Option<string>, word: string) {
    setting.Some? && Spells(setting.value, word)
  }

  /** The code table that is selected: the setting is read in any case, and 2 stands for all it does not
      know. */
  ghost function Table(codepage: Option<string>): Byte {
    if Says(codepage, "cp860") then 3
    else if Says(codepage, "windows1252") || Says(codepage, "cp1252") then 16
    else 2
  }

  /** No setting, or an empty one, is code page 850. */
  ghost predicate IsTabled(codepage: Option<string>) {
    codepage == None || codepage == Some("") || Says(codepage, "cp850") || Says(codepage, "cp860")
  }

  lemma CharsetIs(config: Config)
    ensures CodepageCommand(StyleOf(config).charset) == [0x1b, 0x74, Table(config.codepage)]
    ensures var charset := StyleOf(config).charset; charset.Cp850? || charset.Cp860? <==> IsTabled(config.codepage)
  {
    if config.codepage.Some? {
      var name := config.codepage.value;
      SpellsIff(name, "cp850");
      SpellsIff(name, "cp860");
      SpellsIff(name, "windows1252");
      SpellsIff(name, "cp1252");
    }
  }

  /** Reset and code table, the drawer if it is asked for, the lines, the bell if it is asked for, two line
      feeds and the cut, a full one only if the setting says so in these letters. */
  lemma PayloadIs(text: Text, config: Config)
    ensures Payload(text, StyleOf(config)) ==
            [0x1b, 0x40] + [0x1b, 0x74, Table(config.codepage)]
            + (if config.openDrawer == Some(true) then [0x1b, 0x70, 0x00, 0x32, 0x64] else [])
            + AllBytes(Pieces(StyleOf(config), Split(text)))
            + ((if config.beep == Some(true) then [0x07] else []) + [0x0a, 0x0a]
               + [0x1d, 0x56, if config.cutMode == Some("full") then 0x00 else 0x01])
  {
    CharsetIs(config);
  }

  ghost predicate IsWhite(u: Unit) {
    || u in [0x09, 0x0a, 0x0b, 0x0c, 0x0d, 0x20, 0xa0, 0x1680, 0x2028, 0x2029, 0x202f, 0x205f, 0x3000, 0xfeff]
    || 0x2000 <= u <= 0x200a
  }

  /** A line is sent with its newline, bold if it is one of the first two, not blank, and bold headers are
      not switched off. */
  lemma LineIs(text: Text, config: Config, i: nat)
    requires i < |Split(text)|
    ensures var line, style := Split(text)[i], StyleOf(config);
            var encoded := EncodeText(line + [0x0a], style.charset);
            var bold := i < 2 && config.boldHeader != Some(false) && exists k :: 0 <= k < |line| && !IsWhite(line[k]);
            PieceBytes(Pieces(style, Split(text))[i]) ==
            if bold then [0x1b, 0x45, 0x01] + encoded + [0x1b, 0x45, 0x00] else encoded
  {
    var line := Split(text)[i];
    forall k | 0 <= k < |line| ensures IsSpace(line[k]) <==> IsWhite(line[k]) {
    }
  }

  /** The encoding is the table's for code pages 850 and 860, and for every other name, known or not, the low
      byte of each code unit. */
  lemma EncodedBy(text: Text, config: Config)
    ensures EncodeText(text, StyleOf(config).charset) ==
            if IsTabled(config.codepage) then EncodeWith(Cp850Byte, text)
            else seq(|text|, i requires 0 <= i < |text| => text[i] % 256)
  {
    CharsetIs(config);
  }

  ghost predicate StartsPair(u: Unit, rest: Text) {
    0xd800 <= u <= 0xdbff && rest != [] && 0xdc00 <= rest[0] <= 0xdfff
  }

  lemma FirstEncoded(table: Unit -> Byte, u: Unit, rest: Text)
    ensures EncodeWith(table, [u] + rest) ==
            [table(u)] + EncodeWith(table, if StartsPair(u, rest) then rest[1..] else rest)
  {
    var text := [u] + rest;
    assert text[1..] == rest;
    if IsPair(text) {
      assert text[2..] == rest[1..];
    }
  }

  lemma SurrogateIsUnknown(u: Unit)
    requires 0xd800 <= u <= 0xdfff
    ensures Cp850Byte(u) == 0x3f
  {
  }

  /** The table's encoding, one character at a time; a surrogate pair is one question mark. */
  lemma EncodedFirst(u: Unit, rest: Text)
    ensures EncodeWith(Cp850Byte, [u] + rest) ==
            if StartsPair(u, rest) then [0x3f] + EncodeWith(Cp850Byte, rest[1..])
            else [Cp850Byte(u)] + EncodeWith(Cp850Byte, rest)
  {
    FirstEncoded(Cp850Byte, u, rest);
    if StartsPair(u, rest) {
      SurrogateIsUnknown(u);
    }
  }

  /** The letters the table has besides ASCII. */
  lemma LettersAre(u: Unit)
    ensures IsLetter(u) <==>
            u <= 0x7f ||
            u in [0xc0, 0xc1, 0xc2, 0xc3, 0xc7, 0xc9, 0xca, 0xcd, 0xd3, 0xd4, 0xd5, 0xda, 0xdc,
                  0xe0, 0xe1, 0xe2, 0xe3, 0xe7, 0xe9, 0xea, 0xed, 0xf3, 0xf4, 0xf5, 0xfa, 0xfc, 0xba]
  {
  }
}
