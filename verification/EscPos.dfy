// From a ticket's text to the bytes sent to a receipt printer.
module EscPos {
  import opened Ascii
  import opened Options

  // A UTF-16 code unit, as the source's strings have.
  type Unit = u: int | 0 <= u < 0x1_0000

  type Byte = b: int | 0 <= b < 0x100

  type Text = seq<Unit>

  const NEWLINE: Unit := 0x0a
  const QUESTION_MARK: Byte := 0x3f

  // A setting of the wrong type reads as absent.
  datatype Config = Config(
    codepage: Option<string>, cutMode: Option<string>, boldHeader: Option<bool>, beep: Option<bool>,
    openDrawer: Option<bool>)

  datatype Charset = Cp850 | Cp860 | Windows1252 | OtherCharset

  function CharsetNamed(name: string): Charset {
    var normalized := LowerAll(name);
    if normalized == "cp850" then Cp850
    else if normalized == "cp860" then Cp860
    else if normalized == "windows1252" || normalized == "cp1252" then Windows1252
    else OtherCharset
  }

  // What the settings come to, with the defaults.
  datatype Style = Style(charset: Charset, fullCut: bool, boldHeader: bool, beep: bool, openDrawer: bool)

  function StyleOf(config: Config): Style {
    Style(
      if config.codepage.Some? && config.codepage.value != "" then CharsetNamed(config.codepage.value) else Cp850,
      config.cutMode == Some("full"),
      config.boldHeader != Some(false),
      config.beep == Some(true),
      config.openDrawer == Some(true))
  }

  // ---- characters ---------------------------------------------------------------------

  /** The letters of the table, on code page 850; anything else past ASCII is a question mark. */
  function Cp850Byte(u: Unit): Byte {
    if u <= 0x7f then u
    else match u
      case 0xe7 => 0x87 case 0xc7 => 0x80
      case 0xe1 => 0xa0 case 0xe0 => 0x85 case 0xe3 => 0xc6 case 0xe2 => 0x83
      case 0xc1 => 0xb5 case 0xc0 => 0xb7 case 0xc3 => 0xc7 case 0xc2 => 0xb6
      case 0xe9 => 0x82 case 0xea => 0x88 case 0xc9 => 0x90 case 0xca => 0xd2
      case 0xed => 0xa1 case 0xcd => 0xd6
      case 0xf3 => 0xa2 case 0xf5 => 0xe4 case 0xf4 => 0x93
      case 0xd3 => 0xe0 case 0xd5 => 0xe5 case 0xd4 => 0xe2
      case 0xfa => 0xa3 case 0xda => 0xe9 case 0xfc => 0x81 case 0xdc => 0x9a
      case 0xba => 0xa7
      case _ => QUESTION_MARK
  }

  predicate IsPair(text: Text) {
    |text| > 1 && 0xd800 <= text[0] < 0xdc00 && 0xdc00 <= text[1] < 0xe000
  }

  /** One byte for each character, a surrogate pair being one character. */
  function EncodeWith(table: Unit -> Byte, text: Text): seq<Byte> {
    if text == [] then []
    else [table(text[0])] + EncodeWith(table, if IsPair(text) then text[2..] else text[1..])
  }

  /** The low byte of each code unit. */
  function EncodeLatin1(text: Text): seq<Byte> {
    seq(|text|, i requires 0 <= i < |text| => text[i] % 0x100)
  }

  function EncodeText(text: Text, charset: Charset): seq<Byte> {
    if charset.Cp850? || charset.Cp860? then EncodeWith(Cp850Byte, text) else EncodeLatin1(text)
  }

  predicate IsSpace(u: Unit) {
    0x09 <= u <= 0x0d || u == 0x20 || u == 0xa0 || u == 0x1680 || 0x2000 <= u <= 0x200a
    || u == 0x2028 || u == 0x2029 || u == 0x202f || u == 0x205f || u == 0x3000 || u == 0xfeff
  }

  predicate IsBlank(line: Text) {
    forall i :: 0 <= i < |line| ==> IsSpace(line[i])
  }

  /** The lines of a text; a text has one more line than newlines. */
  function Split(text: Text): (lines: seq<Text>)
    ensures |lines| > 0
  {
    if text == [] then [[]]
    else
      var rest := Split(text[1..]);
      if text[0] == NEWLINE then [[]] + rest else [[text[0]] + rest[0]] + rest[1..]
  }

  // ---- commands -----------------------------------------------------------------------

  function CodepageCommand(charset: Charset): seq<Byte> {
    match charset
    case Cp860 => [0x1b, 0x74, 0x03]
    case Windows1252 => [0x1b, 0x74, 0x10]
    case _ => [0x1b, 0x74, 0x02]
  }

  function CutCommand(full: bool): seq<Byte> {
    if full then [0x1d, 0x56, 0x00] else [0x1d, 0x56, 0x01]
  }

  const INITIALIZE: seq<Byte> := [0x1b, 0x40]
  const OPEN_DRAWER: seq<Byte> := [0x1b, 0x70, 0x00, 0x32, 0x64]
  const BOLD_ON: seq<Byte> := [0x1b, 0x45, 0x01]
  const BOLD_OFF: seq<Byte> := [0x1b, 0x45, 0x00]
  const BEEP: seq<Byte> := [0x07]
  const FEED: seq<Byte> := [0x0a, 0x0a]

  predicate IsHeader(style: Style, line: Text, index: int) {
    style.boldHeader && index < 2 && !IsBlank(line)
  }

  // A line as it is sent: its bytes, and whether it is printed bold.
  datatype Piece = Piece(bytes: seq<Byte>, header: bool)

  function PieceOf(style: Style, line: Text, index: int): Piece {
    Piece(EncodeText(line + [NEWLINE], style.charset), IsHeader(style, line, index))
  }

  function Pieces(style: Style, lines: seq<Text>): (pieces: seq<Piece>)
    ensures |pieces| == |lines|
  {
    seq(|lines|, i requires 0 <= i < |lines| => PieceOf(style, lines[i], i))
  }

  function PieceBytes(piece: Piece): seq<Byte> {
    if piece.header then BOLD_ON + piece.bytes + BOLD_OFF else piece.bytes
  }

  function AllBytes(pieces: seq<Piece>): seq<Byte> {
    if pieces == [] then [] else AllBytes(pieces[..|pieces| - 1]) + PieceBytes(pieces[|pieces| - 1])
  }

  function Preamble(style: Style): seq<Byte> {
    INITIALIZE + CodepageCommand(style.charset) + (if style.openDrawer then OPEN_DRAWER else [])
  }

  function Ending(style: Style): seq<Byte> {
    (if style.beep then BEEP else []) + FEED + CutCommand(style.fullCut)
  }

  function Payload(text: Text, style: Style): seq<Byte> {
    Preamble(style) + AllBytes(Pieces(style, Split(text))) + Ending(style)
  }

  /** The payload as it is assembled, chunk by chunk. */
  method BuildEscPosPayload(text: Text, config: Config) returns (payload: seq<Byte>)
    ensures payload == Payload(text, StyleOf(config))
  {
    payload := Assemble(text, StyleOf(config));
  }

  method AddLine(before: seq<Byte>, style: Style, line: Text, index: int) returns (payload: seq<Byte>)
    ensures payload == before + PieceBytes(PieceOf(style, line, index))
  {
    var header := IsHeader(style, line, index);
    payload := before;
    if header {
      payload := payload + BOLD_ON;
    }
    payload := payload + EncodeText(line + [NEWLINE], style.charset);
    if header {
      payload := payload + BOLD_OFF;
    }
  }

  lemma AllBytesNext(pieces: seq<Piece>, index: nat, before: seq<Byte>)
    requires index < |pieces|
    ensures before + AllBytes(pieces[..index]) + PieceBytes(pieces[index]) == before + AllBytes(pieces[..index + 1])
  {
    assert pieces[..index + 1][..index] == pieces[..index];
    var a, b := AllBytes(pieces[..index]), PieceBytes(pieces[index]);
    assert AllBytes(pieces[..index + 1]) == a + b;
    assert before + a + b == before + (a + b);
  }

  method AddLines(before: seq<Byte>, style: Style, lines: seq<Text>) returns (payload: seq<Byte>)
    ensures payload == before + AllBytes(Pieces(style, lines))
  {
    ghost var pieces := Pieces(style, lines);
    payload := before;
    for index := 0 to |lines|
      invariant payload == before + AllBytes(pieces[..index])
    {
      AllBytesNext(pieces, index, before);
      payload := AddLine(payload, style, lines[index], index);
    }
    assert pieces[..|lines|] == pieces;
  }

  method AddEnding(before: seq<Byte>, style: Style) returns (payload: seq<Byte>)
    ensures payload == before + Ending(style)
  {
    payload := before;
    if style.beep {
      payload := payload + BEEP;
    }
    payload := payload + FEED;
    payload := payload + CutCommand(style.fullCut);
  }

  method Assemble(text: Text, style: Style) returns (payload: seq<Byte>)
    ensures payload == Payload(text, style)
  {
    payload := INITIALIZE + CodepageCommand(style.charset);
    payload := payload + (if style.openDrawer then OPEN_DRAWER else []);
    payload := AddLines(payload, style, Split(text));
    payload := AddEnding(payload, style);
  }
}
