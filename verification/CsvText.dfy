/**
 * CSV as text: the exporters' escaping printer, the character loop that both importers share, and
 * the division of a file into lines. The quoting is that of section 2, rules 5 to 7, of RFC 4180.
 */
module CsvText {
  import opened JsString

  const QUOTE := '"'
  const BOM := '\U{FEFF}'

  // ----- Reading one line -----

  /** The cells of what is left of a line, given the cell being built and the quote state. */
  function Cells(rest: string, current: string, inQuotes: bool): (cells: seq<string>)
    ensures cells != []
    decreases |rest|
  {
    if rest == [] then [current]
    else
      var c := rest[0];
      if inQuotes then
        if c == QUOTE then
          if |rest| > 1 && rest[1] == QUOTE then Cells(rest[2..], current + [QUOTE], true)
          else Cells(rest[1..], current, false)
        else Cells(rest[1..], current + [c], true)
      else if c == QUOTE then Cells(rest[1..], current, true)
      else if c == ',' then [current] + Cells(rest[1..], "", false)
      else Cells(rest[1..], current + [c], false)
  }

  function ReadLine(line: string): seq<string> {
    Cells(line, "", false)
  }

  function TrimAll(cells: seq<string>): (r: seq<string>)
    ensures |r| == |cells| && forall i :: 0 <= i < |r| ==> r[i] == Trim(cells[i])
  {
    seq(|cells|, i requires 0 <= i < |cells| => Trim(cells[i]))
  }

  /** `parseCSVLine` of the simple importer: cells exactly as they are. */
  method ParseCSVLine(line: string) returns (cells: seq<string>)
    ensures cells == ReadLine(line)
  {
    cells := [];
    var current := "";
    var inQuotes := false;
    var i := 0;
    while i < |line|
      invariant 0 <= i <= |line|
      invariant cells + Cells(line[i..], current, inQuotes) == ReadLine(line)
    {
      var c := line[i];
      assert line[i..][1..] == line[i + 1..];
      if inQuotes {
        if c == QUOTE {
          if i + 1 < |line| && line[i + 1] == QUOTE {
            assert line[i..][2..] == line[i + 2..];
            current := current + [QUOTE];
            i := i + 1;
          } else {
            inQuotes := false;
          }
        } else {
          current := current + [c];
        }
      } else if c == QUOTE {
        inQuotes := true;
      } else if c == ',' {
        assert cells + ([current] + Cells(line[i + 1..], "", false))
            == (cells + [current]) + Cells(line[i + 1..], "", false);
        cells := cells + [current];
        current := "";
      } else {
        current := current + [c];
      }
      i := i + 1;
    }
    cells := cells + [current];
  }

  /** `parseCsvLine` of the bulk validator: the same loop, every cell trimmed. */
  method ParseCsvLine(line: string) returns (cells: seq<string>)
    ensures cells == TrimAll(ReadLine(line))
  {
    var exact := ParseCSVLine(line);
    cells := TrimAll(exact);
  }

  // ----- Printing one row -----

  /** `v.replace(/"/g, '""')` */
  function DoubleQuotes(v: string): string {
    if v == [] then ""
    else (if v[0] == QUOTE then [QUOTE, QUOTE] else [v[0]]) + DoubleQuotes(v[1..])
  }

  function Escape(v: string): string {
    [QUOTE] + DoubleQuotes(v) + [QUOTE]
  }

  function EscapeAll(cells: seq<string>): (r: seq<string>)
    ensures |r| == |cells|
  {
    if cells == [] then [] else [Escape(cells[0])] + EscapeAll(cells[1..])
  }

  function PrintRow(cells: seq<string>): string {
    Join(EscapeAll(cells), ",")
  }

  /** Inside quotes the reader undoes the doubling and stops at the closing quote. */
  lemma {:induction false} ReadDoubled(v: string, rest: string, current: string)
    requires rest == [] || rest[0] != QUOTE
    ensures Cells(DoubleQuotes(v) + [QUOTE] + rest, current, true) == Cells(rest, current + v, false)
    decreases |v|
  {
    var text := DoubleQuotes(v) + [QUOTE] + rest;
    if v == [] {
      assert text[1..] == rest && current + v == current;
    } else {
      var tail := DoubleQuotes(v[1..]) + [QUOTE] + rest;
      ReadDoubled(v[1..], rest, current + [v[0]]);
      assert (current + [v[0]]) + v[1..] == current + v;
      if v[0] == QUOTE {
        assert text == [QUOTE, QUOTE] + tail && text[2..] == tail;
      } else {
        assert text == [v[0]] + tail && text[1..] == tail;
      }
    }
  }

  lemma ReadEscaped(v: string, rest: string, current: string)
    requires rest == [] || rest[0] != QUOTE
    ensures Cells(Escape(v) + rest, current, false) == Cells(rest, current + v, false)
  {
    var inner := DoubleQuotes(v) + [QUOTE] + rest;
    assert Escape(v) + rest == [QUOTE] + inner;
    assert ([QUOTE] + inner)[1..] == inner;
    ReadDoubled(v, rest, current);
  }

  lemma PrintRowParts(cells: seq<string>)
    requires cells != []
    ensures PrintRow(cells) == Escape(cells[0]) + if |cells| == 1 then "" else "," + PrintRow(cells[1..])
  {
    assert EscapeAll(cells)[1..] == EscapeAll(cells[1..]);
  }

  lemma ReadComma(rest: string, current: string)
    ensures Cells("," + rest, current, false) == [current] + Cells(rest, "", false)
  {
    assert ("," + rest)[1..] == rest;
  }

  /** What was read of the first cell before its quote is kept in front of it. */
  lemma {:induction false} ReadPrinted(cells: seq<string>, current: string)
    requires cells != []
    ensures Cells(PrintRow(cells), current, false) == [current + cells[0]] + cells[1..]
    decreases |cells|
  {
    PrintRowParts(cells);
    if |cells| == 1 {
      ReadEscaped(cells[0], "", current);
    } else {
      ReadEscaped(cells[0], "," + PrintRow(cells[1..]), current);
      ReadComma(PrintRow(cells[1..]), current + cells[0]);
      ReadPrinted(cells[1..], "");
      assert "" + cells[1] == cells[1];
    }
  }

  /** Reading a printed row gives back every cell exactly, whatever characters it holds. */
  lemma RowRoundTrip(cells: seq<string>)
    requires cells != []
    ensures ReadLine(PrintRow(cells)) == cells
  {
    ReadPrinted(cells, "");
    assert "" + cells[0] == cells[0];
  }

  /** The trimming reader gives the cells back exactly when none has white space around it. */
  lemma TrimmedRowRoundTrip(cells: seq<string>)
    requires cells != []
    ensures TrimAll(ReadLine(PrintRow(cells))) == cells <==> forall j :: 0 <= j < |cells| ==> Trimmed(cells[j])
  {
    RowRoundTrip(cells);
    forall j | 0 <= j < |cells|
      ensures TrimAll(cells)[j] == cells[j] <==> Trimmed(cells[j])
    {
      TrimFixpoint(cells[j]);
    }
  }

  // ----- Reading what others write -----

  /**
   * A cell as a spreadsheet or a hand writes it: stretches of bare text, free of quotes and commas, and quoted
   * stretches with doubled quotes inside.
   */
  datatype Piece = Bare(text: string) | Quoted(text: string)

  function PieceText(piece: Piece): string {
    match piece
    case Bare(text) => text
    case Quoted(text) => Escape(text)
  }

  function CellText(pieces: seq<Piece>): string {
    if pieces == [] then "" else PieceText(pieces[0]) + CellText(pieces[1..])
  }

  /** What the cell means: the text of all its stretches. */
  function CellMeaning(pieces: seq<Piece>): string {
    if pieces == [] then "" else pieces[0].text + CellMeaning(pieces[1..])
  }

  predicate BareText(s: string) {
    QUOTE !in s && ',' !in s
  }

  /** Bare stretches are proper ones, and no two quoted stretches touch: they would read as one. */
  predicate Writable(pieces: seq<Piece>) {
    && (forall i :: 0 <= i < |pieces| && pieces[i].Bare? ==> pieces[i].text != "" && BareText(pieces[i].text))
    && forall i :: 0 <= i < |pieces| - 1 ==> pieces[i].Bare? || pieces[i + 1].Bare?
  }

  lemma {:induction false} ReadBare(text: string, rest: string, current: string)
    requires BareText(text)
    ensures Cells(text + rest, current, false) == Cells(rest, current + text, false)
    decreases |text|
  {
    if text == "" {
      assert text + rest == rest && current + text == current;
    } else {
      assert (text + rest)[1..] == text[1..] + rest;
      ReadBare(text[1..], rest, current + [text[0]]);
      assert (current + [text[0]]) + text[1..] == current + text;
    }
  }

  lemma CellTextStart(pieces: seq<Piece>, rest: string)
    requires Writable(pieces) && (pieces == [] || pieces[0].Bare?) && (rest == "" || rest[0] != QUOTE)
    ensures CellText(pieces) + rest == "" || (CellText(pieces) + rest)[0] != QUOTE
  {
    if pieces != [] {
      assert pieces[0].text[0] in pieces[0].text;
    }
  }

  /** A written cell is read as what it means. */
  lemma {:induction false} ReadPieces(pieces: seq<Piece>, rest: string, current: string)
    requires Writable(pieces) && (rest == "" || rest[0] != QUOTE)
    ensures Cells(CellText(pieces) + rest, current, false) == Cells(rest, current + CellMeaning(pieces), false)
    decreases |pieces|
  {
    if pieces == [] {
      assert "" + rest == rest && current + "" == current;
    } else {
      var piece, more := pieces[0], pieces[1..];
      var tail := CellText(more) + rest;
      assert CellText(pieces) + rest == PieceText(piece) + tail;
      if piece.Bare? {
        ReadBare(piece.text, tail, current);
      } else {
        assert more != [] ==> more[0] == pieces[1];
        CellTextStart(more, rest);
        ReadEscaped(piece.text, tail, current);
      }
      ReadPieces(more, rest, current + piece.text);
      assert (current + piece.text) + CellMeaning(more) == current + CellMeaning(pieces);
    }
  }

  function CellTexts(cells: seq<seq<Piece>>): (r: seq<string>)
    ensures |r| == |cells| && forall i :: 0 <= i < |r| ==> r[i] == CellText(cells[i])
  {
    if cells == [] then [] else [CellText(cells[0])] + CellTexts(cells[1..])
  }

  function CellMeanings(cells: seq<seq<Piece>>): (r: seq<string>)
    ensures |r| == |cells| && forall i :: 0 <= i < |r| ==> r[i] == CellMeaning(cells[i])
  {
    if cells == [] then [] else [CellMeaning(cells[0])] + CellMeanings(cells[1..])
  }

  /** Any line of written cells, bare, quoted or mixed, joined by commas, reads as what the cells mean. */
  lemma {:induction false} WrittenLine(cells: seq<seq<Piece>>)
    requires cells != [] && forall i :: 0 <= i < |cells| ==> Writable(cells[i])
    ensures ReadLine(Join(CellTexts(cells), ",")) == CellMeanings(cells)
    decreases |cells|
  {
    if |cells| == 1 {
      ReadPieces(cells[0], "", "");
      assert CellText(cells[0]) + "" == CellText(cells[0]) && "" + CellMeaning(cells[0]) == CellMeaning(cells[0]);
    } else {
      var rest := Join(CellTexts(cells[1..]), ",");
      assert CellTexts(cells)[1..] == CellTexts(cells[1..]);
      assert Join(CellTexts(cells), ",") == CellText(cells[0]) + ("," + rest);
      ReadPieces(cells[0], "," + rest, "");
      ReadComma(rest, CellMeaning(cells[0]));
      assert "" + CellMeaning(cells[0]) == CellMeaning(cells[0]);
      WrittenLine(cells[1..]);
    }
  }

  /** Plain text, such as the importers' own templates: cells without quote or comma are read as they stand. */
  lemma {:induction false} PlainLine(cells: seq<string>)
    requires cells != [] && forall i :: 0 <= i < |cells| ==> BareText(cells[i])
    ensures ReadLine(Join(cells, ",")) == cells
    decreases |cells|
  {
    if |cells| == 1 {
      ReadBare(cells[0], "", "");
      assert cells[0] + "" == cells[0] && "" + cells[0] == cells[0];
    } else {
      var rest := Join(cells[1..], ",");
      assert Join(cells, ",") == cells[0] + ("," + rest);
      ReadBare(cells[0], "," + rest, "");
      ReadComma(rest, cells[0]);
      assert "" + cells[0] == cells[0];
      PlainLine(cells[1..]);
    }
  }

  /** A quote that is never closed runs to the end of the line. */
  lemma {:induction false} UnclosedQuote(v: string, current: string)
    ensures Cells(DoubleQuotes(v), current, true) == [current + v]
    decreases |v|
  {
    if v == "" {
      assert current + "" == current;
    } else {
      var tail := DoubleQuotes(v[1..]);
      UnclosedQuote(v[1..], current + [v[0]]);
      assert (current + [v[0]]) + v[1..] == current + v;
      if v[0] == QUOTE {
        assert DoubleQuotes(v) == [QUOTE, QUOTE] + tail && DoubleQuotes(v)[2..] == tail;
      } else {
        assert DoubleQuotes(v) == [v[0]] + tail && DoubleQuotes(v)[1..] == tail;
      }
    }
  }

  /**
   * The quoting of the exporters is that of RFC 4180: quotes around, every quote inside doubled, the rest
   * untouched.
   */
  lemma {:induction false} QuotingIsDoubling(a: string, b: string)
    ensures DoubleQuotes(a + "\"" + b) == DoubleQuotes(a) + "\"\"" + DoubleQuotes(b)
    ensures '"' !in a ==> DoubleQuotes(a) == a
    ensures Escape(a) == "\"" + DoubleQuotes(a) + "\""
    decreases |a|
  {
    var text := a + "\"" + b;
    if a == "" {
      assert text[1..] == b;
    } else {
      QuotingIsDoubling(a[1..], b);
      assert text[1..] == a[1..] + "\"" + b;
      assert a == [a[0]] + a[1..];
    }
  }

  // ----- Files -----

  function StripBom(text: string): string {
    if text != [] && text[0] == BOM then text[1..] else text
  }

  /** `text.replace(/\r\n/g, "\n")` */
  function ReplaceCrLf(text: string): string {
    if text == [] then ""
    else if |text| > 1 && text[0] == '\r' && text[1] == '\n' then "\n" + ReplaceCrLf(text[2..])
    else [text[0]] + ReplaceCrLf(text[1..])
  }

  /** `text.replace(/\r/g, "\n")` */
  function ReplaceCr(text: string): (r: string)
    ensures '\r' !in r
  {
    if text == [] then ""
    else [if text[0] == '\r' then '\n' else text[0]] + ReplaceCr(text[1..])
  }

  predicate Blank(line: string) {
    Trim(line) == ""
  }

  /** `while (lines.length > 0 && blank(last)) lines.pop()` */
  function DropTail(lines: seq<string>, blank: string -> bool): (r: seq<string>)
    ensures r <= lines
    ensures r != [] ==> !blank(r[|r| - 1])
    ensures forall i :: |r| <= i < |lines| ==> blank(lines[i])
  {
    if lines != [] && blank(lines[|lines| - 1]) then DropTail(lines[..|lines| - 1], blank) else lines
  }

  /** Line breaks of all three kinds become line feeds. */
  function Normalize(text: string): string {
    ReplaceCr(ReplaceCrLf(StripBom(text)))
  }

  function Lines(text: string): seq<string> {
    DropTail(Split(Normalize(text), "\n"), Blank)
  }

  /** `splitLines`, with its popping loop. */
  method SplitLines(text: string) returns (lines: seq<string>)
    ensures lines == Lines(text)
  {
    lines := Split(Normalize(text), "\n");
    while lines != [] && Blank(lines[|lines| - 1])
      invariant DropTail(lines, Blank) == Lines(text)
    {
      lines := lines[..|lines| - 1];
    }
  }

  /** `text.split(/\r\n|\n|\r/)` */
  function SplitBreaks(text: string): (parts: seq<string>)
    ensures parts != []
  {
    if text == [] then [""]
    else if |text| > 1 && text[0] == '\r' && text[1] == '\n' then [""] + SplitBreaks(text[2..])
    else if text[0] == '\r' || text[0] == '\n' then [""] + SplitBreaks(text[1..])
    else Prepend(text[0], SplitBreaks(text[1..]))
  }

  lemma BreakFirst(c: char, rest: string)
    ensures Split(ReplaceCr([c] + rest), "\n")
         == if c == '\r' || c == '\n' then [""] + Split(ReplaceCr(rest), "\n")
            else Prepend(c, Split(ReplaceCr(rest), "\n"))
  {
    var d := if c == '\r' then '\n' else c;
    assert ([c] + rest)[1..] == rest;
    assert ReplaceCr([c] + rest) == [d] + ReplaceCr(rest);
    assert ([d] + ReplaceCr(rest))[1..] == ReplaceCr(rest);
    assert "\n" <= [d] + ReplaceCr(rest) <==> d == '\n';
  }

  /** Splitting at all three kinds of line break is normalising them and splitting at line feeds. */
  lemma {:induction false} SplitBreaksIsSplit(text: string)
    ensures SplitBreaks(text) == Split(ReplaceCr(ReplaceCrLf(text)), "\n")
    decreases |text|
  {
    if text == [] {
      assert Split("", "\n") == [""];
    } else if |text| > 1 && text[0] == '\r' && text[1] == '\n' {
      SplitBreaksIsSplit(text[2..]);
      BreakFirst('\n', ReplaceCrLf(text[2..]));
    } else {
      SplitBreaksIsSplit(text[1..]);
      BreakFirst(text[0], ReplaceCrLf(text[1..]));
    }
  }

  /** `lines.filter((line) => line.trim().length > 0)` */
  function NonBlank(lines: seq<string>): (r: seq<string>)
    ensures forall l :: l in r ==> l in lines && !Blank(l)
    ensures (forall l :: l in lines ==> !Blank(l)) ==> r == lines
  {
    if lines == [] then []
    else
      assert lines == [lines[0]] + lines[1..];
      (if Blank(lines[0]) then [] else [lines[0]]) + NonBlank(lines[1..])
  }

  /** The lines of the simple importers; only one of the two strips a byte order mark first. */
  function ImportLines(strips: bool, text: string): seq<string> {
    NonBlank(SplitBreaks(if strips then StripBom(text) else text))
  }

  function PrintRows(rows: seq<seq<string>>): (r: seq<string>)
    ensures |r| == |rows| && forall i :: 0 <= i < |r| ==> r[i] == PrintRow(rows[i])
  {
    seq(|rows|, i requires 0 <= i < |rows| => PrintRow(rows[i]))
  }

  function PrintTable(bom: bool, rows: seq<seq<string>>): string {
    (if bom then [BOM] else "") + Join(PrintRows(rows), "\n")
  }

  datatype TransactionRow = TransactionRow(
    kind: string, counterparty: string, token: string, amount: string, timestamp: string)

  function TransactionTable(rows: seq<TransactionRow>): (t: seq<seq<string>>)
    ensures |t| == |rows| + 1 && t[0] == ["type", "counterparty", "token", "amount", "timestamp"]
    ensures forall i :: 0 <= i < |rows| ==>
              t[i + 1] == [rows[i].kind, rows[i].counterparty, rows[i].token, rows[i].amount, rows[i].timestamp]
  {
    [["type", "counterparty", "token", "amount", "timestamp"]]
    + seq(|rows|, i requires 0 <= i < |rows| =>
        [rows[i].kind, rows[i].counterparty, rows[i].token, rows[i].amount, rows[i].timestamp])
  }

  function BuildTransactionHistoryCSV(rows: seq<TransactionRow>): string {
    PrintTable(true, TransactionTable(rows))
  }

  // ----- File round trip -----

  predicate BreakFree(s: string) {
    '\r' !in s && '\n' !in s
  }

  predicate BreakFreeRow(cells: seq<string>) {
    forall j :: 0 <= j < |cells| ==> BreakFree(cells[j])
  }

  predicate BreakFreeCells(rows: seq<seq<string>>) {
    forall i :: 0 <= i < |rows| ==> BreakFreeRow(rows[i])
  }

  lemma {:induction false} DoubleQuotesMembers(v: string, c: char)
    requires c != QUOTE
    ensures c in DoubleQuotes(v) <==> c in v
  {
    if v != [] {
      DoubleQuotesMembers(v[1..], c);
      assert v == [v[0]] + v[1..];
    }
  }

  lemma EscapeMembers(v: string, c: char)
    requires c != QUOTE
    ensures c in Escape(v) <==> c in v
  {
    DoubleQuotesMembers(v, c);
  }

  lemma FirstCellMembers(cells: seq<string>, c: char)
    requires cells != [] && c != QUOTE && c != ','
    ensures c in PrintRow(cells) <==> c in cells[0] || (|cells| > 1 && c in PrintRow(cells[1..]))
  {
    PrintRowParts(cells);
    EscapeMembers(cells[0], c);
  }

  /** A printed row contains a line break exactly when one of its cells does. */
  lemma {:induction false} PrintRowMembers(cells: seq<string>, c: char)
    requires c != QUOTE && c != ','
    ensures c in PrintRow(cells) <==> exists j :: 0 <= j < |cells| && c in cells[j]
  {
    if cells != [] {
      FirstCellMembers(cells, c);
      PrintRowMembers(cells[1..], c);
      assert forall j :: 1 <= j < |cells| ==> cells[j] == cells[1..][j - 1];
      assert forall j :: 0 <= j < |cells[1..]| ==> cells[1..][j] == cells[j + 1];
    }
  }

  lemma {:induction false} NoCrUnchanged(text: string)
    requires '\r' !in text
    ensures ReplaceCrLf(text) == text && ReplaceCr(text) == text
  {
    if text != [] {
      assert text == [text[0]] + text[1..];
      NoCrUnchanged(text[1..]);
    }
  }

  lemma {:induction false} JoinWithoutCr(lines: seq<string>)
    requires forall l :: l in lines ==> '\r' !in l
    ensures '\r' !in Join(lines, "\n")
  {
    if |lines| == 1 {
      assert lines[0] in lines;
    } else if |lines| > 1 {
      assert lines[0] in lines;
      assert forall l :: l in lines[1..] ==> l in lines;
      JoinWithoutCr(lines[1..]);
    }
  }

  /** A printed row starts with a quote: it is neither blank nor mistaken for a byte order mark. */
  lemma PrintRowStart(cells: seq<string>)
    requires cells != []
    ensures PrintRow(cells) != "" && PrintRow(cells)[0] == QUOTE && !Blank(PrintRow(cells))
  {
    assert EscapeAll(cells)[0] == Escape(cells[0]);
    NotBlank(PrintRow(cells));
  }

  lemma JoinStart(lines: seq<string>, sep: string)
    requires lines != [] && lines[0] != ""
    ensures Join(lines, sep) != "" && Join(lines, sep)[0] == lines[0][0]
  {
  }

  lemma StripPrintedBom(bom: bool, body: string)
    requires body != "" && body[0] == QUOTE
    ensures StripBom((if bom then [BOM] else "") + body) == body
  {
    if bom {
      assert ([BOM] + body)[1..] == body;
    } else {
      assert "" + body == body;
    }
  }

  lemma LinesOfPrinted(text: string, lines: seq<string>)
    requires lines != [] && !Blank(lines[|lines| - 1])
    requires forall l :: l in lines ==> BreakFree(l)
    requires StripBom(text) == Join(lines, "\n")
    ensures Lines(text) == lines
  {
    JoinWithoutCr(lines);
    NoCrUnchanged(Join(lines, "\n"));
    SplitJoinChar(lines, '\n');
  }

  lemma {:induction false} MemberOfJoin(parts: seq<string>, part: string, c: char)
    requires part in parts
    ensures c in part ==> c in Join(parts, "\n")
  {
    if |parts| > 1 && part != parts[0] {
      assert part in parts[1..];
      MemberOfJoin(parts[1..], part, c);
    }
  }

  lemma PartsBreakFree(normalized: string, parts: seq<string>)
    requires parts == Split(normalized, "\n") && '\r' !in normalized
    ensures forall l :: l in parts ==> BreakFree(l)
  {
    SplitPartsCharFree(normalized, '\n');
    JoinSplit(normalized, "\n");
    forall l | l in parts
      ensures '\r' !in l
    {
      MemberOfJoin(parts, l, '\r');
    }
  }

  /** No line that the reader produces contains a line break. */
  lemma LinesBreakFree(text: string)
    ensures forall l :: l in Lines(text) ==> BreakFree(l)
  {
    PartsBreakFree(Normalize(text), Split(Normalize(text), "\n"));
  }

  lemma RowBreakFree(cells: seq<string>)
    ensures BreakFree(PrintRow(cells)) <==> BreakFreeRow(cells)
  {
    PrintRowMembers(cells, '\r');
    PrintRowMembers(cells, '\n');
  }

  lemma RowsBreakFree(rows: seq<seq<string>>)
    ensures BreakFreeCells(rows) <==> forall l :: l in PrintRows(rows) ==> BreakFree(l)
  {
    var lines := PrintRows(rows);
    forall i | 0 <= i < |rows|
      ensures BreakFree(lines[i]) <==> BreakFreeRow(rows[i])
      ensures lines[i] in lines
    {
      RowBreakFree(rows[i]);
    }
  }

  lemma PrintedTableLines(bom: bool, rows: seq<seq<string>>)
    requires rows != [] && forall i :: 0 <= i < |rows| ==> rows[i] != []
    ensures StripBom(PrintTable(bom, rows)) == Join(PrintRows(rows), "\n")
    ensures !Blank(PrintRows(rows)[|rows| - 1])
  {
    PrintRowStart(rows[0]);
    PrintRowStart(rows[|rows| - 1]);
    JoinStart(PrintRows(rows), "\n");
    StripPrintedBom(bom, Join(PrintRows(rows), "\n"));
  }

  /**
   * Splitting an exported file gives back the printed rows exactly when no cell contains a carriage
   * return or line feed: the reader splits lines before it looks at quotes.
   */
  lemma FileLinesRoundTrip(bom: bool, rows: seq<seq<string>>)
    requires rows != [] && forall i :: 0 <= i < |rows| ==> rows[i] != []
    ensures Lines(PrintTable(bom, rows)) == PrintRows(rows) <==> BreakFreeCells(rows)
  {
    RowsBreakFree(rows);
    PrintedTableLines(bom, rows);
    LinesBreakFree(PrintTable(bom, rows));
    if BreakFreeCells(rows) {
      LinesOfPrinted(PrintTable(bom, rows), PrintRows(rows));
    }
  }

  /** The exporters end lines by line feeds alone: a carriage return in a file comes from a cell. */
  lemma NoCarriageReturns(bom: bool, rows: seq<seq<string>>)
    requires BreakFreeCells(rows)
    ensures '\r' !in PrintTable(bom, rows)
  {
    RowsBreakFree(rows);
    JoinWithoutCr(PrintRows(rows));
  }

  /** The cells of every line. */
  function ReadLines(lines: seq<string>): (t: seq<seq<string>>)
    ensures |t| == |lines| && forall i :: 0 <= i < |t| ==> t[i] == ReadLine(lines[i])
  {
    seq(|lines|, i requires 0 <= i < |lines| => ReadLine(lines[i]))
  }

  function TrimTable(table: seq<seq<string>>): (t: seq<seq<string>>)
    ensures |t| == |table| && forall i :: 0 <= i < |t| ==> t[i] == TrimAll(table[i])
  {
    seq(|table|, i requires 0 <= i < |table| => TrimAll(table[i]))
  }

  /** What the bulk validator makes of a file: its own lines, every cell trimmed. */
  function ValidatorTable(text: string): seq<seq<string>> {
    TrimTable(ReadLines(Lines(text)))
  }

  /** What the simple importers make of a file before they trim the cells they use. */
  function ImporterTable(strips: bool, text: string): seq<seq<string>> {
    ReadLines(ImportLines(strips, text))
  }

  ghost predicate TrimmedCells(rows: seq<seq<string>>) {
    forall i :: 0 <= i < |rows| ==> forall j :: 0 <= j < |rows[i]| ==> Trimmed(rows[i][j])
  }

  /** Reading a line adds no character. */
  lemma {:induction false} CellsAddNothing(rest: string, current: string, inQuotes: bool, cell: string, c: char)
    requires cell in Cells(rest, current, inQuotes) && c in cell
    ensures c in rest || c in current
    decreases |rest|
  {
    if rest != [] {
      if inQuotes && rest[0] == QUOTE && |rest| > 1 && rest[1] == QUOTE {
        CellsAddNothing(rest[2..], current + [QUOTE], true, cell, c);
      } else if rest[0] == QUOTE {
        CellsAddNothing(rest[1..], current, !inQuotes, cell, c);
      } else if !inQuotes && rest[0] == ',' {
        if cell != current {
          CellsAddNothing(rest[1..], "", false, cell, c);
        }
      } else {
        CellsAddNothing(rest[1..], current + [rest[0]], inQuotes, cell, c);
      }
    }
  }

  lemma CellBreakFree(line: string, cell: string)
    requires BreakFree(line) && cell in ReadLine(line)
    ensures BreakFree(cell) && BreakFree(Trim(cell))
  {
    forall c | c in cell
      ensures c in line
    {
      CellsAddNothing(line, "", false, cell, c);
    }
    TrimAddsNothing(cell);
  }

  /** So cells of lines without line breaks hold none, trimmed or not. */
  lemma CellsBreakFree(lines: seq<string>)
    requires forall l :: l in lines ==> BreakFree(l)
    ensures BreakFreeCells(ReadLines(lines)) && BreakFreeCells(TrimTable(ReadLines(lines)))
  {
    var table := ReadLines(lines);
    forall i, j | 0 <= i < |table| && 0 <= j < |table[i]|
      ensures BreakFree(table[i][j]) && BreakFree(TrimTable(table)[i][j])
    {
      CellBreakFree(lines[i], table[i][j]);
    }
  }

  lemma PrintedRead(rows: seq<seq<string>>)
    requires forall i :: 0 <= i < |rows| ==> rows[i] != []
    ensures ReadLines(PrintRows(rows)) == rows
  {
    forall i | 0 <= i < |rows|
      ensures ReadLine(PrintRows(rows)[i]) == rows[i]
    {
      RowRoundTrip(rows[i]);
    }
  }

  lemma TrimTableFixpoint(rows: seq<seq<string>>)
    ensures TrimTable(rows) == rows <==> TrimmedCells(rows)
  {
    forall i, j | 0 <= i < |rows| && 0 <= j < |rows[i]|
      ensures TrimTable(rows)[i][j] == rows[i][j] <==> Trimmed(rows[i][j])
    {
      TrimFixpoint(rows[i][j]);
    }
    if TrimmedCells(rows) {
      forall i | 0 <= i < |rows|
        ensures TrimTable(rows)[i] == rows[i]
      {
      }
    }
  }

  /**
   * From the exporter to the bulk validator: header and every cell come back exactly, with or without
   * a byte order mark, if and only if no cell contains a line break or has white space around it.
   */
  lemma ValidatorRoundTrip(bom: bool, rows: seq<seq<string>>)
    requires rows != [] && forall i :: 0 <= i < |rows| ==> rows[i] != []
    ensures ValidatorTable(PrintTable(bom, rows)) == rows <==> BreakFreeCells(rows) && TrimmedCells(rows)
  {
    LinesBreakFree(PrintTable(bom, rows));
    CellsBreakFree(Lines(PrintTable(bom, rows)));
    if BreakFreeCells(rows) {
      FileLinesRoundTrip(bom, rows);
      PrintedRead(rows);
      TrimTableFixpoint(rows);
    }
  }

  // ----- The simple importers -----

  lemma ImportLinesBreakFree(strips: bool, text: string)
    ensures forall l :: l in ImportLines(strips, text) ==> BreakFree(l)
  {
    var body := if strips then StripBom(text) else text;
    SplitBreaksIsSplit(body);
    PartsBreakFree(ReplaceCr(ReplaceCrLf(body)), SplitBreaks(body));
  }

  /** The printed lines as the importer sees them: a byte order mark that is not stripped stays on the first. */
  function SeenLines(bom: bool, strips: bool, lines: seq<string>): seq<string>
    requires lines != []
  {
    if bom && !strips then Prepend(BOM, lines) else lines
  }

  lemma SeenLinesShape(bom: bool, strips: bool, rows: seq<seq<string>>)
    requires rows != [] && (forall i :: 0 <= i < |rows| ==> rows[i] != [])
    requires forall l :: l in PrintRows(rows) ==> BreakFree(l)
    ensures forall l :: l in SeenLines(bom, strips, PrintRows(rows)) ==> BreakFree(l) && !Blank(l)
  {
    var lines, seen := PrintRows(rows), SeenLines(bom, strips, PrintRows(rows));
    forall i | 0 <= i < |rows|
      ensures BreakFree(seen[i]) && !Blank(seen[i])
    {
      PrintRowStart(rows[i]);
      assert lines[i] in lines && QUOTE in seen[i];
      TrimKeeps(seen[i], QUOTE);
    }
  }

  lemma ImportedLines(bom: bool, strips: bool, rows: seq<seq<string>>)
    requires rows != [] && (forall i :: 0 <= i < |rows| ==> rows[i] != []) && BreakFreeCells(rows)
    ensures ImportLines(strips, PrintTable(bom, rows)) == SeenLines(bom, strips, PrintRows(rows))
  {
    var text, seen := PrintTable(bom, rows), SeenLines(bom, strips, PrintRows(rows));
    var body := if strips then StripBom(text) else text;
    PrintedTableLines(bom, rows);
    RowsBreakFree(rows);
    JoinPrepend(BOM, PrintRows(rows), "\n");
    assert "" + Join(PrintRows(rows), "\n") == Join(PrintRows(rows), "\n");
    assert body == Join(seen, "\n");
    SeenLinesShape(bom, strips, rows);
    JoinWithoutCr(seen);
    NoCrUnchanged(body);
    SplitBreaksIsSplit(body);
    SplitJoinChar(seen, '\n');
  }

  /** With a byte order mark that is not stripped, the first cell reads with the mark in front. */
  function Marked(rows: seq<seq<string>>): seq<seq<string>>
    requires rows != [] && rows[0] != []
  {
    [Prepend(BOM, rows[0])] + rows[1..]
  }

  lemma MarkedRow(cells: seq<string>, line: string)
    requires cells != [] && line == [BOM] + PrintRow(cells)
    ensures ReadLine(line) == Prepend(BOM, cells)
  {
    assert line[1..] == PrintRow(cells) && "" + [BOM] == [BOM];
    ReadPrinted(cells, [BOM]);
  }

  lemma MarkIsSpace(s: string)
    ensures Trim([BOM] + s) == Trim(s)
  {
    assert ([BOM] + s)[1..] == s;
  }

  lemma MarkedLines(lines: seq<string>, rows: seq<seq<string>>)
    requires rows != [] && rows[0] != [] && ReadLines(lines) == rows
    requires ReadLine([BOM] + lines[0]) == Prepend(BOM, rows[0])
    ensures ReadLines(Prepend(BOM, lines)) == Marked(rows)
  {
    var seen := Prepend(BOM, lines);
    assert forall i :: 1 <= i < |seen| ==> seen[i] == lines[i];
  }

  lemma MarkedRead(rows: seq<seq<string>>)
    requires rows != [] && forall i :: 0 <= i < |rows| ==> rows[i] != []
    ensures ReadLines(Prepend(BOM, PrintRows(rows))) == Marked(rows)
  {
    PrintedRead(rows);
    MarkedRow(rows[0], [BOM] + PrintRows(rows)[0]);
    MarkedLines(PrintRows(rows), rows);
  }

  lemma MarkedTrimmed(rows: seq<seq<string>>)
    requires rows != [] && rows[0] != []
    ensures TrimTable(Marked(rows)) == TrimTable(rows)
  {
    var marked := Marked(rows);
    MarkIsSpace(rows[0][0]);
    assert TrimAll(marked[0]) == TrimAll(rows[0]);
    forall i | 0 <= i < |rows|
      ensures TrimTable(marked)[i] == TrimTable(rows)[i]
    {
    }
  }

  /**
   * From the exporter to the simple importers. The cells they cut out are the exported ones if and only if
   * no cell contains a line break and a byte order mark, if there is one, is stripped. As they trim
   * every cell they use, the mark does no harm after all.
   */
  lemma FileRoundTrip(bom: bool, strips: bool, rows: seq<seq<string>>)
    requires rows != [] && forall i :: 0 <= i < |rows| ==> rows[i] != []
    ensures ImporterTable(strips, PrintTable(bom, rows)) == rows <==> BreakFreeCells(rows) && (bom ==> strips)
    ensures TrimTable(ImporterTable(strips, PrintTable(bom, rows))) == rows
            <==> BreakFreeCells(rows) && TrimmedCells(rows)
    ensures BreakFreeCells(rows) && bom && !strips ==> ImporterTable(strips, PrintTable(bom, rows)) == Marked(rows)
  {
    ImportLinesBreakFree(strips, PrintTable(bom, rows));
    CellsBreakFree(ImportLines(strips, PrintTable(bom, rows)));
    if BreakFreeCells(rows) {
      ImportedLines(bom, strips, rows);
      PrintedRead(rows);
      TrimTableFixpoint(rows);
      if bom && !strips {
        MarkedRead(rows);
        MarkedTrimmed(rows);
        assert |Marked(rows)[0][0]| == |rows[0][0]| + 1;
      }
    }
  }

  lemma TransactionCells(rows: seq<TransactionRow>)
    ensures BreakFreeCells(TransactionTable(rows)) <==> forall r :: r in rows ==>
              && BreakFree(r.kind) && BreakFree(r.counterparty) && BreakFree(r.token)
              && BreakFree(r.amount) && BreakFree(r.timestamp)
  {
    var table := TransactionTable(rows);
    forall i | 0 <= i < |rows|
      ensures BreakFreeRow(table[i + 1]) <==>
                var r := rows[i];
                && BreakFree(r.kind) && BreakFree(r.counterparty) && BreakFree(r.token)
                && BreakFree(r.amount) && BreakFree(r.timestamp)
    {
      var r, cells := rows[i], table[i + 1];
      assert cells[0] == r.kind && cells[1] == r.counterparty && cells[2] == r.token
          && cells[3] == r.amount && cells[4] == r.timestamp;
    }
    assert BreakFreeRow(table[0]);
    if BreakFreeCells(table) {
      forall r | r in rows
        ensures BreakFree(r.kind) && BreakFree(r.counterparty) && BreakFree(r.token)
             && BreakFree(r.amount) && BreakFree(r.timestamp)
      {
        var i :| 0 <= i < |rows| && rows[i] == r;
        assert BreakFreeRow(table[i + 1]);
      }
    } else {
      var i :| 0 <= i < |table| && !BreakFreeRow(table[i]);
      assert i > 0 && rows[i - 1] in rows;
    }
  }

  /** The cells of a transaction history that the user did not choose are harmless. */
  lemma TransactionHistoryRoundTrip(rows: seq<TransactionRow>, strips: bool)
    ensures var text, table := BuildTransactionHistoryCSV(rows), TransactionTable(rows);
            && (ValidatorTable(text) == table <==> BreakFreeCells(table) && TrimmedCells(table))
            && (ImporterTable(strips, text) == table <==> BreakFreeCells(table) && strips)
    ensures BreakFreeCells(TransactionTable(rows)) <==> forall r :: r in rows ==>
              && BreakFree(r.kind) && BreakFree(r.counterparty) && BreakFree(r.token)
              && BreakFree(r.amount) && BreakFree(r.timestamp)
  {
    var table := TransactionTable(rows);
    forall i | 0 <= i < |table|
      ensures table[i] != []
    {
      if i > 0 {
        var r := rows[i - 1];
        assert table[i] == [r.kind, r.counterparty, r.token, r.amount, r.timestamp];
      }
    }
    ValidatorRoundTrip(true, table);
    FileRoundTrip(true, strips, table);
    TransactionCells(rows);
  }
}
