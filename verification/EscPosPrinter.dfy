// A printer that understands the commands of the payload, one byte at a time, and what it prints.
module EscPosPrinter {
  import opened EscPos

  datatype Command = SelectTable | Emphasize | Pulse | Cut

  // Between bytes: ready for text, after the first byte of a command, or collecting its arguments.
  datatype Mode = Ground | Escape | Group | Arguments(command: Command, missing: nat, got: seq<Byte>)

  datatype Glyph = Glyph(byte: Byte, bold: bool)

  datatype Printer = Printer(
    mode: Mode, bold: bool, codeTable: Byte, printed: seq<Glyph>, beeps: nat, pulses: nat, cuts: seq<Byte>)

  const POWERED_ON := Printer(Ground, false, 0, [], 0, 0, [])

  function Apply(p: Printer, command: Command, args: seq<Byte>): Printer {
    if args == [] then p.(mode := Ground)
    else match command
      case SelectTable => p.(mode := Ground, codeTable := args[0])
      case Emphasize => p.(mode := Ground, bold := args[0] % 2 == 1)
      case Pulse => p.(mode := Ground, pulses := p.pulses + 1)
      case Cut => p.(mode := Ground, cuts := p.cuts + [args[0]])
  }

  function Step(p: Printer, b: Byte): Printer {
    match p.mode
    case Ground =>
      if b == 0x1b then p.(mode := Escape)
      else if b == 0x1d then p.(mode := Group)
      else if b == 0x07 then p.(beeps := p.beeps + 1)
      else p.(printed := p.printed + [Glyph(b, p.bold)])
    case Escape =>
      if b == 0x40 then p.(mode := Ground, bold := false, codeTable := 0)
      else if b == 0x74 then p.(mode := Arguments(SelectTable, 1, []))
      else if b == 0x45 then p.(mode := Arguments(Emphasize, 1, []))
      else if b == 0x70 then p.(mode := Arguments(Pulse, 3, []))
      else p.(mode := Ground)
    case Group => if b == 0x56 then p.(mode := Arguments(Cut, 1, [])) else p.(mode := Ground)
    case Arguments(command, missing, got) =>
      if missing > 1 then p.(mode := Arguments(command, missing - 1, got + [b])) else Apply(p, command, got + [b])
  }

  function Run(p: Printer, bytes: seq<Byte>): Printer {
    if bytes == [] then p else Step(Run(p, bytes[..|bytes| - 1]), bytes[|bytes| - 1])
  }

  lemma RunMore(p: Printer, bytes: seq<Byte>, b: Byte)
    ensures Run(p, bytes + [b]) == Step(Run(p, bytes), b)
  {
  }

  lemma {:induction false} RunConcat(p: Printer, a: seq<Byte>, b: seq<Byte>)
    ensures Run(p, a + b) == Run(Run(p, a), b)
    decreases |b|
  {
    if b == [] {
      assert a + b == a;
    } else {
      var init, last := b[..|b| - 1], b[|b| - 1];
      RunConcat(p, a, init);
      RunMore(p, a + init, last);
      RunMore(Run(p, a), init, last);
      assert a + b == a + init + [last] && b == init + [last];
    }
  }

  lemma RunOne(p: Printer, a: Byte)
    ensures Run(p, [a]) == Step(p, a)
  {
  }

  lemma RunTwo(p: Printer, a: Byte, b: Byte)
    ensures Run(p, [a, b]) == Step(Step(p, a), b)
  {
    assert [a, b][..1] == [a];
    RunOne(p, a);
  }

  lemma RunThree(p: Printer, a: Byte, b: Byte, c: Byte)
    ensures Run(p, [a, b, c]) == Step(Step(Step(p, a), b), c)
  {
    assert [a, b, c][..2] == [a, b];
    RunTwo(p, a, b);
  }

  lemma RunFive(p: Printer, a: Byte, b: Byte, c: Byte, d: Byte, e: Byte)
    ensures Run(p, [a, b, c, d, e]) == Step(Step(Step(Step(Step(p, a), b), c), d), e)
  {
    assert [a, b, c, d, e] == [a, b, c] + [d, e];
    RunConcat(p, [a, b, c], [d, e]);
    RunThree(p, a, b, c);
    RunTwo(Run(p, [a, b, c]), d, e);
  }

  // ---- text ---------------------------------------------------------------------------

  predicate IsSpecial(b: Byte) {
    b == 0x1b || b == 0x1d || b == 0x07
  }

  predicate IsPlain(bytes: seq<Byte>) {
    forall i :: 0 <= i < |bytes| ==> !IsSpecial(bytes[i])
  }

  function Marked(bytes: seq<Byte>, bold: bool): seq<Glyph> {
    seq(|bytes|, i requires 0 <= i < |bytes| => Glyph(bytes[i], bold))
  }

  lemma {:induction false} PlainTextIsPrinted(p: Printer, bytes: seq<Byte>)
    requires p.mode.Ground? && IsPlain(bytes)
    ensures Run(p, bytes) == p.(printed := p.printed + Marked(bytes, p.bold))
    decreases |bytes|
  {
    if bytes == [] {
      assert p.printed + Marked(bytes, p.bold) == p.printed;
    } else {
      var n := |bytes| - 1;
      PlainTextIsPrinted(p, bytes[..n]);
      assert Marked(bytes, p.bold) == Marked(bytes[..n], p.bold) + [Glyph(bytes[n], p.bold)];
      assert p.printed + Marked(bytes, p.bold) == p.printed + Marked(bytes[..n], p.bold) + [Glyph(bytes[n], p.bold)];
    }
  }

  /** A special byte is never printed, whatever else the bytes are. */
  lemma {:induction false} SpecialBytesAreNeverPrinted(p: Printer, bytes: seq<Byte>)
    requires forall g :: g in p.printed ==> !IsSpecial(g.byte)
    ensures forall g :: g in Run(p, bytes).printed ==> !IsSpecial(g.byte)
    decreases |bytes|
  {
    if bytes != [] {
      SpecialBytesAreNeverPrinted(p, bytes[..|bytes| - 1]);
    }
  }

  // ---- the whole payload --------------------------------------------------------------

  /** What the pieces should show, bold when they are headers. */
  function Shown(pieces: seq<Piece>): seq<Glyph> {
    if pieces == [] then []
    else Shown(pieces[..|pieces| - 1]) + Marked(pieces[|pieces| - 1].bytes, pieces[|pieces| - 1].header)
  }

  /** The text of the pieces, without the commands. */
  function TextOf(pieces: seq<Piece>): seq<Byte> {
    if pieces == [] then [] else TextOf(pieces[..|pieces| - 1]) + pieces[|pieces| - 1].bytes
  }

  lemma PlainParts(a: seq<Byte>, b: seq<Byte>)
    requires IsPlain(a + b)
    ensures IsPlain(a) && IsPlain(b)
  {
    assert forall i :: 0 <= i < |a| ==> a[i] == (a + b)[i];
    assert forall i :: 0 <= i < |b| ==> b[i] == (a + b)[|a| + i];
  }

  lemma {:induction false} Emphasizes(p: Printer, n: Byte)
    requires p.mode.Ground?
    ensures Run(p, [0x1b, 0x45, n]) == p.(bold := n % 2 == 1)
  {
    RunThree(p, 0x1b, 0x45, n);
    assert Step(p, 0x1b).mode == Escape;
    assert Step(Step(p, 0x1b), 0x45).mode == Arguments(Emphasize, 1, []);
  }

  lemma {:induction false} BoldTurnsOn(p: Printer)
    requires p.mode.Ground?
    ensures Run(p, BOLD_ON) == p.(bold := true)
  {
    Emphasizes(p, 0x01);
  }

  lemma {:induction false} BoldTurnsOff(p: Printer)
    requires p.mode.Ground?
    ensures Run(p, BOLD_OFF) == p.(bold := false)
  {
    Emphasizes(p, 0x00);
  }

  lemma RunInThree(p: Printer, a: seq<Byte>, b: seq<Byte>, c: seq<Byte>)
    ensures Run(p, a + b + c) == Run(Run(Run(p, a), b), c)
  {
    RunConcat(p, a + b, c);
    RunConcat(p, a, b);
  }

  lemma {:induction false} PiecePrints(p: Printer, piece: Piece)
    requires p.mode.Ground? && !p.bold && IsPlain(piece.bytes)
    ensures Run(p, PieceBytes(piece)) == p.(printed := p.printed + Marked(piece.bytes, piece.header))
  {
    if piece.header {
      var bold := p.(bold := true);
      RunInThree(p, BOLD_ON, piece.bytes, BOLD_OFF);
      BoldTurnsOn(p);
      PlainTextIsPrinted(bold, piece.bytes);
      BoldTurnsOff(Run(bold, piece.bytes));
    } else {
      PlainTextIsPrinted(p, piece.bytes);
    }
  }

  lemma {:induction false} NextPiecePrints(p: Printer, mid: Printer, before: seq<Glyph>, piece: Piece)
    requires p.mode.Ground? && !p.bold && IsPlain(piece.bytes) && mid == p.(printed := p.printed + before)
    ensures Run(mid, PieceBytes(piece)) == p.(printed := p.printed + (before + Marked(piece.bytes, piece.header)))
  {
    PiecePrints(mid, piece);
    assert p.printed + before + Marked(piece.bytes, piece.header) ==
           p.printed + (before + Marked(piece.bytes, piece.header));
  }

  lemma {:induction false} PiecesPrint(p: Printer, pieces: seq<Piece>)
    requires p.mode.Ground? && !p.bold && IsPlain(TextOf(pieces))
    ensures Run(p, AllBytes(pieces)) == p.(printed := p.printed + Shown(pieces))
    decreases |pieces|
  {
    if pieces == [] {
      assert p.printed + Shown(pieces) == p.printed;
    } else {
      var init, last := pieces[..|pieces| - 1], pieces[|pieces| - 1];
      PlainParts(TextOf(init), last.bytes);
      PiecesPrint(p, init);
      RunConcat(p, AllBytes(init), PieceBytes(last));
      NextPiecePrints(p, Run(p, AllBytes(init)), Shown(init), last);
    }
  }

  function TableOf(charset: Charset): Byte {
    match charset
    case Cp860 => 3
    case Windows1252 => 16
    case _ => 2
  }

  lemma {:induction false} Resets(p: Printer)
    requires p.mode.Ground?
    ensures Run(p, INITIALIZE) == p.(bold := false, codeTable := 0)
  {
    RunTwo(p, 0x1b, 0x40);
  }

  lemma {:induction false} SelectsTable(p: Printer, charset: Charset)
    requires p.mode.Ground?
    ensures Run(p, CodepageCommand(charset)) == p.(codeTable := TableOf(charset))
  {
    RunThree(p, 0x1b, 0x74, TableOf(charset));
    assert CodepageCommand(charset) == [0x1b, 0x74, TableOf(charset)];
  }

  lemma {:induction false} Pulses(p: Printer)
    requires p.mode.Ground?
    ensures Run(p, OPEN_DRAWER) == p.(pulses := p.pulses + 1)
  {
    RunFive(p, 0x1b, 0x70, 0x00, 0x32, 0x64);
  }

  function SetUp(p: Printer, style: Style): Printer {
    p.(bold := false, codeTable := TableOf(style.charset), pulses := p.pulses + if style.openDrawer then 1 else 0)
  }

  /** Any ready printer after the preamble: reset, its code table selected, the drawer open if asked. */
  lemma {:induction false} PreambleSetsUp(p: Printer, style: Style)
    requires p.mode.Ground?
    ensures Run(p, Preamble(style)) == SetUp(p, style)
  {
    var command := CodepageCommand(style.charset);
    var drawer: seq<Byte> := if style.openDrawer then OPEN_DRAWER else [];
    RunInThree(p, INITIALIZE, command, drawer);
    Resets(p);
    SelectsTable(Run(p, INITIALIZE), style.charset);
    if style.openDrawer {
      Pulses(Run(Run(p, INITIALIZE), command));
    }
  }

  lemma {:induction false} EndingPrints(p: Printer, style: Style)
    requires p.mode.Ground?
    ensures Run(p, Ending(style)) ==
            p.(printed := p.printed + Marked(FEED, p.bold), beeps := p.beeps + (if style.beep then 1 else 0),
               cuts := p.cuts + [if style.fullCut then 0x00 else 0x01])
  {
    var bell: seq<Byte> := if style.beep then BEEP else [];
    RunConcat(p, bell + FEED, CutCommand(style.fullCut));
    RunConcat(p, bell, FEED);
    RunOne(p, 0x07);
    var rung := Run(p, bell);
    PlainTextIsPrinted(rung, FEED);
    RunThree(Run(rung, FEED), 0x1d, 0x56, if style.fullCut then 0x00 else 0x01);
  }

  // ---- the text of the pieces is the text of the ticket -------------------------------

  /** Encoding a text up to a newline and after it separately gives the same bytes. */
  lemma {:induction false} LettersAtNewline(table: Unit -> Byte, line: Text, rest: Text)
    ensures EncodeWith(table, line + [NEWLINE] + rest) == EncodeWith(table, line + [NEWLINE]) + EncodeWith(table, rest)
    decreases |line|
  {
    var whole, head := line + [NEWLINE] + rest, line + [NEWLINE];
    if line == [] {
      assert whole[1..] == rest && head[1..] == [];
    } else {
      assert head[0] == whole[0] && head[1] == whole[1];
      var n := if IsPair(whole) then 2 else 1;
      assert n <= |line|;
      LettersAtNewline(table, line[n..], rest);
      assert whole[n..] == line[n..] + [NEWLINE] + rest && head[n..] == line[n..] + [NEWLINE];
    }
  }

  lemma EncodedAtNewline(line: Text, rest: Text, charset: Charset)
    ensures EncodeText(line + [NEWLINE] + rest, charset) ==
            EncodeText(line + [NEWLINE], charset) + EncodeText(rest, charset)
  {
    LettersAtNewline(Cp850Byte, line, rest);
  }

  /** The lines again as one text, a newline after each. */
  function Joined(lines: seq<Text>): Text {
    if lines == [] then [] else lines[0] + [NEWLINE] + Joined(lines[1..])
  }

  lemma JoinedHead(first: Text, others: seq<Text>)
    ensures Joined([first] + others) == first + [NEWLINE] + Joined(others)
  {
  }

  /** Splitting loses nothing. */
  lemma {:induction false} SplitJoins(text: Text)
    ensures Joined(Split(text)) == text + [NEWLINE]
    decreases |text|
  {
    if text == [] {
      JoinedHead([], []);
    } else {
      var u, rest := text[0], Split(text[1..]);
      SplitJoins(text[1..]);
      assert text + [NEWLINE] == [u] + (text[1..] + [NEWLINE]);
      if u == NEWLINE {
        JoinedHead([], rest);
      } else {
        JoinedHead([u] + rest[0], rest[1..]);
        assert [u] + rest[0] + [NEWLINE] + Joined(rest[1..]) == [u] + Joined(rest);
      }
    }
  }

  lemma {:induction false} LinesHaveNoNewline(text: Text)
    ensures forall i :: 0 <= i < |Split(text)| ==> NEWLINE !in Split(text)[i]
    decreases |text|
  {
    if text != [] {
      LinesHaveNoNewline(text[1..]);
    }
  }

  lemma {:induction false} PiecesFollowTheText(style: Style, lines: seq<Text>, n: nat)
    requires n <= |lines|
    ensures TextOf(Pieces(style, lines)[..n]) + EncodeText(Joined(lines[n..]), style.charset) ==
            EncodeText(Joined(lines), style.charset)
    decreases n
  {
    var pieces := Pieces(style, lines);
    if n == 0 {
      assert lines[0..] == lines;
    } else {
      PiecesFollowTheText(style, lines, n - 1);
      assert pieces[..n][..n - 1] == pieces[..n - 1];
      assert lines[n - 1..][1..] == lines[n..];
      EncodedAtNewline(lines[n - 1], Joined(lines[n..]), style.charset);
    }
  }

  lemma TextOfPieces(style: Style, text: Text)
    ensures TextOf(Pieces(style, Split(text))) == EncodeText(text + [NEWLINE], style.charset)
  {
    var lines := Split(text);
    SplitJoins(text);
    PiecesFollowTheText(style, lines, |lines|);
    assert Pieces(style, lines)[..|lines|] == Pieces(style, lines);
    assert lines[|lines|..] == [];
    assert EncodeText([], style.charset) == [];
  }

  lemma {:induction false} ShownBytes(pieces: seq<Piece>)
    ensures |Shown(pieces)| == |TextOf(pieces)|
    ensures forall i :: 0 <= i < |TextOf(pieces)| ==> Shown(pieces)[i].byte == TextOf(pieces)[i]
    decreases |pieces|
  {
    if pieces != [] {
      ShownBytes(pieces[..|pieces| - 1]);
    }
  }

  lemma {:induction false} LettersEnd(table: Unit -> Byte, text: Text)
    ensures EncodeWith(table, text + [NEWLINE]) == EncodeWith(table, text) + [table(NEWLINE)]
    decreases |text|
  {
    var whole := text + [NEWLINE];
    if text == [] {
      assert whole[1..] == [];
    } else {
      assert whole[0] == text[0];
      var n := if IsPair(whole) then 2 else 1;
      assert IsPair(whole) <==> IsPair(text);
      LettersEnd(table, text[n..]);
      assert whole[n..] == text[n..] + [NEWLINE];
    }
  }

  lemma EncodedEnd(text: Text, charset: Charset)
    ensures EncodeText(text + [NEWLINE], charset) == EncodeText(text, charset) + [0x0a]
  {
    LettersEnd(Cp850Byte, text);
  }

  // ---- the theorem --------------------------------------------------------------------

  function BytesOf(glyphs: seq<Glyph>): (bytes: seq<Byte>)
    ensures |bytes| == |glyphs|
  {
    seq(|glyphs|, i requires 0 <= i < |glyphs| => glyphs[i].byte)
  }

  function Ticket(text: Text, style: Style): Printer {
    Run(POWERED_ON, Payload(text, style))
  }

  lemma {:induction false} LinesPrint(ready: Printer, text: Text, style: Style)
    requires ready.mode.Ground? && !ready.bold && IsPlain(EncodeText(text, style.charset))
    ensures var pieces := Pieces(style, Split(text));
            Run(ready, AllBytes(pieces)) == ready.(printed := ready.printed + Shown(pieces))
  {
    TextOfPieces(style, text);
    EncodedEnd(text, style.charset);
    PiecesPrint(ready, Pieces(style, Split(text)));
  }

  /** For text whose encoding has no control byte, any ready printer, whatever was set on it before, shows
      each line after what it has printed, bold when it is a header, feeds two more lines, cuts once, and is
      left ready and not bold. */
  lemma {:induction false} AnyPrinterPrints(p: Printer, text: Text, style: Style)
    requires p.mode.Ground? && IsPlain(EncodeText(text, style.charset))
    ensures Run(p, Payload(text, style)) ==
            Printer(Ground, false, TableOf(style.charset),
                    p.printed + Shown(Pieces(style, Split(text))) + Marked(FEED, false),
                    p.beeps + (if style.beep then 1 else 0), p.pulses + (if style.openDrawer then 1 else 0),
                    p.cuts + [if style.fullCut then 0x00 else 0x01])
  {
    var pieces := Pieces(style, Split(text));
    PreambleSetsUp(p, style);
    LinesPrint(SetUp(p, style), text, style);
    EndingPrints(Run(SetUp(p, style), AllBytes(pieces)), style);
    RunInThree(p, Preamble(style), AllBytes(pieces), Ending(style));
  }

  /** So it is on a printer just switched on. */
  lemma {:induction false} TicketPrints(text: Text, style: Style)
    requires IsPlain(EncodeText(text, style.charset))
    ensures Ticket(text, style) ==
            Printer(Ground, false, TableOf(style.charset), Shown(Pieces(style, Split(text))) + Marked(FEED, false),
                    if style.beep then 1 else 0, if style.openDrawer then 1 else 0,
                    [if style.fullCut then 0x00 else 0x01])
  {
    AnyPrinterPrints(POWERED_ON, text, style);
  }

  lemma LinesBytes(text: Text, style: Style)
    ensures BytesOf(Shown(Pieces(style, Split(text)))) == EncodeText(text, style.charset) + [0x0a]
  {
    TextOfPieces(style, text);
    EncodedEnd(text, style.charset);
    ShownBytes(Pieces(style, Split(text)));
  }

  lemma FedBytes(glyphs: seq<Glyph>)
    ensures BytesOf(glyphs + Marked(FEED, false)) == BytesOf(glyphs) + [0x0a, 0x0a]
  {
  }

  lemma PlainTextPrints(text: Text, style: Style)
    requires IsPlain(EncodeText(text, style.charset))
    ensures BytesOf(Ticket(text, style).printed) == EncodeText(text, style.charset) + [0x0a, 0x0a, 0x0a]
  {
    var encoded := EncodeText(text, style.charset);
    TicketPrints(text, style);
    LinesBytes(text, style);
    FedBytes(Shown(Pieces(style, Split(text))));
    assert encoded + [0x0a] + [0x0a, 0x0a] == encoded + [0x0a, 0x0a, 0x0a];
  }

  lemma SpecialIsNotPrinted(bytes: seq<Byte>, printed: seq<Glyph>, rest: seq<Byte>)
    requires !IsPlain(bytes) && forall g :: g in printed ==> !IsSpecial(g.byte)
    ensures BytesOf(printed) != bytes + rest
  {
    var i :| 0 <= i < |bytes| && IsSpecial(bytes[i]);
    if i < |printed| {
      assert printed[i] in printed;
      assert BytesOf(printed)[i] != (bytes + rest)[i];
    }
  }

  /** The printer prints exactly the encoded text and three newlines if and only if the encoding has
      no control byte. */
  lemma PrintsTheTextIff(text: Text, style: Style)
    ensures BytesOf(Ticket(text, style).printed) == EncodeText(text, style.charset) + [0x0a, 0x0a, 0x0a]
            <==> IsPlain(EncodeText(text, style.charset))
  {
    if IsPlain(EncodeText(text, style.charset)) {
      PlainTextPrints(text, style);
    } else {
      SpecialBytesAreNeverPrinted(POWERED_ON, Payload(text, style));
      SpecialIsNotPrinted(EncodeText(text, style.charset), Ticket(text, style).printed, [0x0a, 0x0a, 0x0a]);
    }
  }

  // ---- code page 850 ------------------------------------------------------------------

  predicate IsLetter(u: Unit) {
    Cp850Byte(u) != QUESTION_MARK || u == QUESTION_MARK
  }

  /** What a byte shows on code page 850, for the bytes the encoder produces. */
  function Cp850Unit(b: Byte): Unit {
    if b <= 0x7f then b
    else match b
      case 0x87 => 0xe7 case 0x80 => 0xc7
      case 0xa0 => 0xe1 case 0x85 => 0xe0 case 0xc6 => 0xe3 case 0x83 => 0xe2
      case 0xb5 => 0xc1 case 0xb7 => 0xc0 case 0xc7 => 0xc3 case 0xb6 => 0xc2
      case 0x82 => 0xe9 case 0x88 => 0xea case 0x90 => 0xc9 case 0xd2 => 0xca
      case 0xa1 => 0xed case 0xd6 => 0xcd
      case 0xa2 => 0xf3 case 0xe4 => 0xf5 case 0x93 => 0xf4
      case 0xe0 => 0xd3 case 0xe5 => 0xd5 case 0xe2 => 0xd4
      case 0xa3 => 0xfa case 0xe9 => 0xda case 0x81 => 0xfc case 0x9a => 0xdc
      case 0xa7 => 0xba
      case _ => QUESTION_MARK
  }

  function Decoded(bytes: seq<Byte>): Text {
    seq(|bytes|, i requires 0 <= i < |bytes| => Cp850Unit(bytes[i]))
  }

  lemma TableInverts(u: Unit)
    ensures Cp850Unit(Cp850Byte(u)) == u <==> IsLetter(u)
    ensures IsSpecial(Cp850Byte(u)) <==> IsControl(u)
    ensures u >= 0x100 ==> !IsLetter(u)
  {
  }

  /** Decoding gives the text back if and only if every character is ASCII or a letter of the table. */
  lemma {:induction false} DecodesIff(text: Text)
    ensures Decoded(EncodeWith(Cp850Byte, text)) == text <==> forall i :: 0 <= i < |text| ==> IsLetter(text[i])
    decreases |text|
  {
    if text != [] {
      TableInverts(text[0]);
      var encoded := EncodeWith(Cp850Byte, text);
      if IsLetter(text[0]) {
        DecodesIff(text[1..]);
        DecodedStep(text[0], EncodeWith(Cp850Byte, text[1..]));
        assert text == [text[0]] + text[1..];
        assert forall i :: 1 <= i < |text| ==> text[i] == text[1..][i - 1];
      } else {
        assert Decoded(encoded)[0] != text[0];
      }
    }
  }

  lemma DecodedStep(u: Unit, rest: seq<Byte>)
    ensures Decoded([Cp850Byte(u)] + rest) == [Cp850Unit(Cp850Byte(u))] + Decoded(rest)
  {
  }

  predicate IsControl(u: Unit) {
    u == 0x1b || u == 0x1d || u == 0x07
  }

  predicate NoControls(text: Text) {
    forall i :: 0 <= i < |text| ==> !IsControl(text[i])
  }

  lemma PlainStep(b: Byte, rest: seq<Byte>)
    ensures IsPlain([b] + rest) <==> !IsSpecial(b) && IsPlain(rest)
  {
    var bytes := [b] + rest;
    assert bytes[0] == b && forall i :: 0 <= i < |rest| ==> bytes[i + 1] == rest[i];
  }

  lemma NoControlsStep(text: Text, n: nat)
    requires 1 <= n <= |text| && forall i :: 1 <= i < n ==> !IsControl(text[i])
    ensures NoControls(text) <==> !IsControl(text[0]) && NoControls(text[n..])
  {
  }

  /** On code page 850 the encoding is free of control bytes exactly when the text is free of the
      three control characters. */
  lemma {:induction false} PlainIff(text: Text)
    ensures IsPlain(EncodeWith(Cp850Byte, text)) <==> NoControls(text)
    decreases |text|
  {
    if text != [] {
      var n := if IsPair(text) then 2 else 1;
      TableInverts(text[0]);
      PlainIff(text[n..]);
      PlainStep(Cp850Byte(text[0]), EncodeWith(Cp850Byte, text[n..]));
      NoControlsStep(text, n);
    }
  }

  // ---- both encodings -----------------------------------------------------------------

  predicate UsesTable(charset: Charset) {
    charset.Cp850? || charset.Cp860?
  }

  /** In the latin1 encoding it is exactly when no code unit has the low byte of one of them. */
  lemma PlainLatin1Iff(text: Text)
    ensures IsPlain(EncodeLatin1(text)) <==> forall i :: 0 <= i < |text| ==> !IsControl(text[i] % 0x100)
  {
    var encoded := EncodeLatin1(text);
    assert forall i :: 0 <= i < |text| ==> encoded[i] == text[i] % 0x100;
  }

  /** No character of the text reaches the printer as a control byte. */
  predicate NoHiddenControls(text: Text, charset: Charset) {
    if UsesTable(charset) then NoControls(text) else forall i :: 0 <= i < |text| ==> !IsControl(text[i] % 0x100)
  }

  /** For every text and style, what is printed is the text exactly when the text is free, on the code
      pages of the table, of the three control characters and, elsewhere, of all that share a low byte
      with one. */
  lemma PrintsItsLettersIff(text: Text, style: Style)
    ensures BytesOf(Ticket(text, style).printed) == EncodeText(text, style.charset) + [0x0a, 0x0a, 0x0a]
            <==> NoHiddenControls(text, style.charset)
  {
    PrintsTheTextIff(text, style);
    PlainIff(text);
    PlainLatin1Iff(text);
  }

  /** U+011B, a letter, is among those: a text holding it prints as itself on the code pages of the
      table only. */
  lemma LetterIsACommand(text: Text, style: Style, i: nat)
    requires i < |text| && text[i] == 0x11b && NoControls(text) && !UsesTable(style.charset)
    ensures BytesOf(Ticket(text, style).printed) != EncodeText(text, style.charset) + [0x0a, 0x0a, 0x0a]
    ensures forall table: Charset :: UsesTable(table) ==>
              BytesOf(Ticket(text, style.(charset := table)).printed) == EncodeText(text, table) + [0x0a, 0x0a, 0x0a]
  {
    PrintsItsLettersIff(text, style);
    assert IsControl(text[i] % 0x100);
    forall table: Charset | UsesTable(table)
      ensures BytesOf(Ticket(text, style.(charset := table)).printed) == EncodeText(text, table) + [0x0a, 0x0a, 0x0a]
    {
      PrintsItsLettersIff(text, style.(charset := table));
    }
  }
}
