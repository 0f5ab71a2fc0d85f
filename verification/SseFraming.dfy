/**
 * The text layer of the notification stream: cutting the response into frames as it arrives,
 * and reading one frame. It is a subset of sections 9.2.5 "Parsing an event stream" and 9.2.6
 * "Interpreting an event stream" of the WHATWG HTML standard.
 */
module SseFraming {
  import opened JsString
  import opened Wrappers

  // ----- Frames -----

  const LINE_BREAK := "\n"
  const FRAME_BREAK := "\n\n"

  /** The complete frames of a text. */
  function FramesOf(text: string): seq<string> {
    AllButLast(Split(text, FRAME_BREAK))
  }

  /** The unfinished text after the last frame break. */
  function RestOf(text: string): string {
    Last(Split(text, FRAME_BREAK))
  }

  /** One read: only the buffered rest of the earlier text matters for what comes next. */
  lemma FeedChunk(text: string, chunk: string)
    ensures FramesOf(text + chunk) == FramesOf(text) + FramesOf(RestOf(text) + chunk)
    ensures RestOf(text + chunk) == RestOf(RestOf(text) + chunk)
  {
    SplitAppend(text, chunk, FRAME_BREAK);
  }

  // ----- Reading one frame -----

  datatype Parsed = Parsed(id: Option<string>, data: string)

  datatype Fields = Fields(id: Option<string>, dataLines: seq<string>)

  predicate StartsWith(s: string, prefix: string) {
    |prefix| <= |s| && s[..|prefix|] == prefix
  }

  /** What one line of a frame contributes. */
  function ReadLine(fields: Fields, line: string): Fields {
    if StartsWith(line, ":") then fields
    else if StartsWith(line, "id:") then fields.(id := Some(Trim(line[3..])))
    else if StartsWith(line, "data:") then fields.(dataLines := fields.dataLines + [TrimStart(line[5..])])
    else fields
  }

  /** `for (const line of lines) acc = step(acc, line)` */
  function FoldLines(step: (Fields, string) -> Fields, acc: Fields, lines: seq<string>): Fields
    decreases |lines|
  {
    if lines == [] then acc else FoldLines(step, step(acc, lines[0]), lines[1..])
  }

  function ReadLines(fields: Fields, lines: seq<string>): Fields {
    FoldLines(ReadLine, fields, lines)
  }

  function ReadFrame(frame: string): Option<Parsed> {
    if Trim(frame) == [] then None
    else
      var fields := ReadLines(Fields(None, []), Split(frame, LINE_BREAK));
      if fields.dataLines == [] then None else Some(Parsed(fields.id, Join(fields.dataLines, LINE_BREAK)))
  }

  lemma {:induction false} FoldOneMore(step: (Fields, string) -> Fields, acc: Fields, lines: seq<string>, line: string)
    ensures FoldLines(step, acc, lines + [line]) == step(FoldLines(step, acc, lines), line)
    decreases |lines|
  {
    if lines == [] {
      assert [] + [line] == [line] && [line][1..] == [];
    } else {
      assert (lines + [line])[1..] == lines[1..] + [line];
      FoldOneMore(step, step(acc, lines[0]), lines[1..], line);
    }
  }

  /**
   * What each line of a frame does to what was read before: a data line adds its text without leading white space, an
   * id line replaces the id, and comments and all other lines do nothing.
   */
  lemma LineByLine(fields: Fields, lines: seq<string>, rest: string, line: string)
    ensures var before := ReadLines(fields, lines);
            && ReadLines(fields, lines + ["data:" + rest])
               == Fields(before.id, before.dataLines + [TrimStart(rest)])
            && ReadLines(fields, lines + ["id:" + rest]) == Fields(Some(Trim(rest)), before.dataLines)
            && ReadLines(fields, lines + [":" + rest]) == before
            && (!("data:" <= line) && !("id:" <= line) ==> ReadLines(fields, lines + [line]) == before)
  {
    FoldOneMore(ReadLine, fields, lines, "data:" + rest);
    FoldOneMore(ReadLine, fields, lines, "id:" + rest);
    FoldOneMore(ReadLine, fields, lines, ":" + rest);
    FoldOneMore(ReadLine, fields, lines, line);
    assert ("data:" + rest)[..1] == "d" && ("data:" + rest)[..3] == "dat" && ("data:" + rest)[..5] == "data:";
    assert ("id:" + rest)[..1] == "i" && ("id:" + rest)[..3] == "id:";
    assert (":" + rest)[..1] == ":";
  }

  /** A frame says something exactly if it has a data line, and then the id and the data lines joined. */
  lemma FrameSays(frame: string, fields: Fields)
    requires fields == ReadLines(Fields(None, []), Split(frame, "\n"))
    ensures Trim(frame) == "" || fields.dataLines == [] ==> ReadFrame(frame) == None
    ensures Trim(frame) != "" && fields.dataLines != [] ==>
              ReadFrame(frame) == Some(Parsed(fields.id, Join(fields.dataLines, "\n")))
  {
  }

  /** `parseFrame`, as the loop over the frame's lines. */
  method ParseFrame(frame: string) returns (r: Option<Parsed>)
    ensures r == ReadFrame(frame)
  {
    if Trim(frame) == [] {
      return None;
    }
    var fields := Fields(None, []);
    var lines := Split(frame, LINE_BREAK);
    for i := 0 to |lines|
      invariant ReadLines(fields, lines[i..]) == ReadLines(Fields(None, []), lines)
    {
      assert lines[i..][1..] == lines[i + 1..];
      fields := ReadLine(fields, lines[i]);
    }
    r := if fields.dataLines == [] then None else Some(Parsed(fields.id, Join(fields.dataLines, LINE_BREAK)));
  }

  // ----- What a server writes -----

  /** A message with an optional id, or a comment such as the indexer's `: ping`. */
  datatype Item = Message(id: Option<string>, lines: seq<string>) | Comment(text: string)

  predicate OneLine(s: string) {
    '\n' !in s
  }

  /** An item that can be put on the wire at all. */
  predicate Sendable(item: Item) {
    match item
    case Message(id, lines) => lines != [] && (id.Some? ==> OneLine(id.value)) && forall l :: l in lines ==> OneLine(l)
    case Comment(text) => OneLine(text)
  }

  function DataFields(lines: seq<string>): (r: seq<string>)
    ensures |r| == |lines| && forall i :: 0 <= i < |r| ==> r[i] == "data: " + lines[i]
  {
    if lines == [] then [] else ["data: " + lines[0]] + DataFields(lines[1..])
  }

  function WireLines(item: Item): seq<string> {
    match item
    case Message(id, lines) => (if id.Some? then ["id: " + id.value] else []) + DataFields(lines)
    case Comment(text) => [":" + text]
  }

  function FrameText(item: Item): string {
    Join(WireLines(item), LINE_BREAK)
  }

  function WireText(items: seq<Item>): string {
    if items == [] then "" else WireText(items[..|items| - 1]) + FrameText(items[|items| - 1]) + FRAME_BREAK
  }

  /** No two adjacent line breaks, and none at the end. */
  predicate NoBlankLine(s: string) {
    && (forall i :: 0 <= i < |s| - 1 ==> s[i] != '\n' || s[i + 1] != '\n')
    && (s != [] ==> s[|s| - 1] != '\n')
  }

  lemma {:induction false} NoBlankLineEndsCleanly(s: string)
    requires NoBlankLine(s)
    ensures EndsCleanly(s, FRAME_BREAK)
  {
    var whole := s + FRAME_BREAK;
    if s == [] {
      assert whole == FRAME_BREAK && whole[2..] == "";
    } else {
      NoBlankLineEndsCleanly(s[1..]);
      assert whole[0] == s[0] && whole[1] == (s[1..] + FRAME_BREAK)[0];
      assert whole[1..] == s[1..] + FRAME_BREAK;
      assert !(FRAME_BREAK <= whole);
      assert [s[0]] + s[1..] == s;
    }
  }

  lemma NoBlankLineJoined(line: string, rest: string)
    requires line != [] && OneLine(line) && rest != [] && rest[0] != '\n' && NoBlankLine(rest)
    ensures NoBlankLine(line + LINE_BREAK + rest)
  {
    var s := line + LINE_BREAK + rest;
    forall i | 0 <= i < |s| - 1
      ensures s[i] != '\n' || s[i + 1] != '\n'
    {
      if i < |line| {
        assert s[i] == line[i];
      } else {
        assert s[i + 1] == rest[i - |line|];
        assert i > |line| ==> s[i] == rest[i - |line| - 1];
      }
    }
  }

  /** A non-empty line that does not start with white space. */
  predicate WireLine(l: string) {
    l != [] && !IsSpace(l[0]) && OneLine(l)
  }

  lemma {:induction false} JoinedLinesNoBlankLine(lines: seq<string>)
    requires lines != [] && forall i :: 0 <= i < |lines| ==> WireLine(lines[i])
    ensures var s := Join(lines, LINE_BREAK);
            NoBlankLine(s) && s != [] && lines[0] != [] && s[0] == lines[0][0]
  {
    if |lines| == 1 {
      assert WireLine(lines[0]);
    } else {
      JoinedLinesNoBlankLine(lines[1..]);
      assert WireLine(lines[0]) && WireLine(lines[1]);
      NoBlankLineJoined(lines[0], Join(lines[1..], LINE_BREAK));
    }
  }

  lemma WireLinesAreLines(item: Item)
    requires Sendable(item)
    ensures WireLines(item) != []
    ensures forall i :: 0 <= i < |WireLines(item)| ==> WireLine(WireLines(item)[i])
  {
    if item.Message? {
      forall i | 0 <= i < |item.lines|
        ensures WireLine(DataFields(item.lines)[i])
      {
        assert item.lines[i] in item.lines;
      }
    }
  }

  lemma FrameTextEndsCleanly(item: Item)
    requires Sendable(item)
    ensures FramesOf(FrameText(item) + FRAME_BREAK) == [FrameText(item)]
    ensures RestOf(FrameText(item) + FRAME_BREAK) == ""
  {
    WireLinesAreLines(item);
    JoinedLinesNoBlankLine(WireLines(item));
    NoBlankLineEndsCleanly(FrameText(item));
  }

  function FrameTexts(items: seq<Item>): (r: seq<string>)
    ensures |r| == |items| && forall i :: 0 <= i < |r| ==> r[i] == FrameText(items[i])
  {
    if items == [] then []
    else FrameTexts(items[..|items| - 1]) + [FrameText(items[|items| - 1])]
  }

  /** The frames of a rendered text are the rendered frames, with nothing left over. */
  lemma {:induction false} FramesOfWireText(items: seq<Item>)
    requires forall item :: item in items ==> Sendable(item)
    ensures FramesOf(WireText(items)) == FrameTexts(items)
    ensures RestOf(WireText(items)) == ""
  {
    if items != [] {
      var last := |items| - 1;
      var text, frame := WireText(items[..last]), FrameText(items[last]) + FRAME_BREAK;
      assert items[last] in items;
      FramesOfWireText(items[..last]);
      FrameTextEndsCleanly(items[last]);
      FeedChunk(text, frame);
      assert text + frame == WireText(items);
      assert "" + frame == frame;
    }
  }

  /** The fields of a message as a reader should see them. */
  function Meaning(item: Item): Option<Parsed> {
    match item
    case Message(id, lines) => Some(Parsed(id, Join(lines, LINE_BREAK)))
    case Comment(_) => None
  }

  /** What the reader keeps of each data line. */
  function TrimmedStarts(lines: seq<string>): (r: seq<string>)
    ensures |r| == |lines| && forall i :: 0 <= i < |r| ==> r[i] == TrimStart(lines[i])
  {
    if lines == [] then [] else [TrimStart(lines[0])] + TrimmedStarts(lines[1..])
  }

  lemma SpacePrefixDropped(s: string)
    ensures TrimStart(" " + s) == TrimStart(s)
    ensures Trim(" " + s) == Trim(s)
  {
    assert (" " + s)[1..] == s;
  }

  lemma PrefixAndRest(prefix: string, rest: string)
    ensures StartsWith(prefix + rest, prefix) && (prefix + rest)[|prefix|..] == rest
  {
  }

  /** Prefixes that differ in their first character exclude each other. */
  lemma OtherPrefix(line: string, prefix: string)
    requires line != [] && prefix != [] && line[0] != prefix[0]
    ensures !StartsWith(line, prefix)
  {
    assert forall k :: 0 < k <= |line| ==> line[..k][0] == line[0];
  }

  lemma ReadDataLine(fields: Fields, l: string)
    ensures ReadLine(fields, "data: " + l) == fields.(dataLines := fields.dataLines + [TrimStart(l)])
  {
    var line := "data: " + l;
    assert line == "data:" + (" " + l);
    PrefixAndRest("data:", " " + l);
    OtherPrefix(line, ":");
    OtherPrefix(line, "id:");
    SpacePrefixDropped(l);
  }

  lemma ReadIdLine(fields: Fields, id: string)
    ensures ReadLine(fields, "id: " + id) == fields.(id := Some(Trim(id)))
  {
    var line := "id: " + id;
    assert line == "id:" + (" " + id);
    PrefixAndRest("id:", " " + id);
    OtherPrefix(line, ":");
    SpacePrefixDropped(id);
  }

  lemma ReadCons(fields: Fields, line: string, rest: seq<string>)
    ensures ReadLines(fields, [line] + rest) == ReadLines(ReadLine(fields, line), rest)
  {
    assert ([line] + rest)[1..] == rest;
  }

  /** A line that, whatever was read before it, adds exactly `kept` to the data. */
  ghost predicate Adds(step: (Fields, string) -> Fields, line: string, kept: string) {
    forall acc: Fields {:trigger step(acc, line)} :: step(acc, line) == acc.(dataLines := acc.dataLines + [kept])
  }

  lemma {:induction false} FoldAddingLines(step: (Fields, string) -> Fields, acc: Fields,
                                           lines: seq<string>, kept: seq<string>)
    requires |lines| == |kept| && forall i :: 0 <= i < |lines| ==> Adds(step, lines[i], kept[i])
    ensures FoldLines(step, acc, lines) == acc.(dataLines := acc.dataLines + kept)
    decreases |lines|
  {
    if lines == [] {
      assert acc.dataLines + kept == acc.dataLines;
    } else {
      assert Adds(step, lines[0], kept[0]);
      FoldAddingLines(step, step(acc, lines[0]), lines[1..], kept[1..]);
      assert (acc.dataLines + [kept[0]]) + kept[1..] == acc.dataLines + kept;
    }
  }

  lemma ReadDataFields(fields: Fields, lines: seq<string>)
    ensures ReadLines(fields, DataFields(lines))
         == fields.(dataLines := fields.dataLines + TrimmedStarts(lines))
  {
    forall i | 0 <= i < |lines|
      ensures Adds(ReadLine, DataFields(lines)[i], TrimmedStarts(lines)[i])
    {
      forall f: Fields { ReadDataLine(f, lines[i]); }
    }
    FoldAddingLines(ReadLine, fields, DataFields(lines), TrimmedStarts(lines));
  }

  /** What the reader makes of an item's lines. */
  function FieldsRead(item: Item): Fields {
    match item
    case Message(id, lines) => Fields(if id.Some? then Some(Trim(id.value)) else None, TrimmedStarts(lines))
    case Comment(_) => Fields(None, [])
  }

  lemma ReadWireLines(item: Item)
    ensures ReadLines(Fields(None, []), WireLines(item)) == FieldsRead(item)
  {
    match item
    case Message(id, lines) =>
      assert [] + TrimmedStarts(lines) == TrimmedStarts(lines) && [] + DataFields(lines) == DataFields(lines);
      if id.Some? {
        ReadCons(Fields(None, []), "id: " + id.value, DataFields(lines));
        ReadIdLine(Fields(None, []), id.value);
        ReadDataFields(Fields(Some(Trim(id.value)), []), lines);
      } else {
        ReadDataFields(Fields(None, []), lines);
      }
    case Comment(text) =>
      assert [":" + text] + [] == [":" + text] && (":" + text)[..1] == ":";
      ReadCons(Fields(None, []), ":" + text, []);
  }

  function Heard(item: Item): Option<Parsed> {
    match item
    case Message(id, lines) => Some(Parsed(FieldsRead(item).id, Join(TrimmedStarts(lines), LINE_BREAK)))
    case Comment(_) => None
  }

  /** Reading back one rendered frame: the id is trimmed, each data line loses leading white space. */
  lemma ReadFrameText(item: Item)
    requires Sendable(item)
    ensures ReadFrame(FrameText(item)) == Heard(item)
  {
    var lines := WireLines(item);
    WireLinesAreLines(item);
    JoinedLinesNoBlankLine(lines);
    assert WireLine(lines[0]);
    NotBlank(FrameText(item));
    forall l | l in lines
      ensures '\n' !in l
    {
      var i :| 0 <= i < |lines| && lines[i] == l;
      assert WireLine(lines[i]);
    }
    SplitJoinChar(lines, '\n');
    ReadWireLines(item);
  }

  /** The items that survive the trip unchanged. */
  predicate Faithful(item: Item) {
    item.Message? ==>
      && (item.id.Some? ==> Trimmed(item.id.value))
      && forall l :: l in item.lines ==> l == [] || !IsSpace(l[0])
  }

  lemma {:induction false} JoinLength(a: seq<string>, b: seq<string>, sep: string)
    requires |a| == |b| && forall i :: 0 <= i < |a| ==> |a[i]| <= |b[i]|
    ensures |Join(a, sep)| <= |Join(b, sep)|
    ensures |Join(a, sep)| == |Join(b, sep)| ==> forall i :: 0 <= i < |a| ==> |a[i]| == |b[i]|
  {
    if |a| > 1 {
      JoinLength(a[1..], b[1..], sep);
      if |Join(a, sep)| == |Join(b, sep)| {
        forall i | 0 <= i < |a|
          ensures |a[i]| == |b[i]|
        {
          assert i > 0 ==> a[1..][i - 1] == a[i] && b[1..][i - 1] == b[i];
        }
      }
    }
  }

  lemma TrimmedStartsJoin(lines: seq<string>)
    ensures Join(TrimmedStarts(lines), LINE_BREAK) == Join(lines, LINE_BREAK)
       <==> forall l :: l in lines ==> l == [] || !IsSpace(l[0])
  {
    var starts := TrimmedStarts(lines);
    forall i | 0 <= i < |lines|
      ensures starts[i] == lines[i] <==> lines[i] == [] || !IsSpace(lines[i][0])
      ensures |starts[i]| <= |lines[i]|
      ensures |starts[i]| == |lines[i]| ==> starts[i] == lines[i]
    {
      TrimFixpoint(lines[i]);
    }
    JoinLength(starts, lines, LINE_BREAK);
    assert (forall i :: 0 <= i < |lines| ==> starts[i] == lines[i]) ==> starts == lines;
  }

  lemma HeardAsMeant(item: Item)
    ensures Heard(item) == Meaning(item) <==> Faithful(item)
  {
    if item.Message? {
      TrimmedStartsJoin(item.lines);
      if item.id.Some? {
        TrimFixpoint(item.id.value);
      }
    }
  }

  /**
   * A rendered item is read back as it was meant exactly when its id carries no surrounding
   * white space and no data line starts with any: the reader strips all leading white space of a
   * line where the standard strips at most one space.
   */
  lemma FrameRoundTrip(item: Item)
    requires Sendable(item)
    ensures ReadFrame(FrameText(item)) == Meaning(item) <==> Faithful(item)
  {
    ReadFrameText(item);
    HeardAsMeant(item);
  }
}
