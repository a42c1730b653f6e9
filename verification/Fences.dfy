/** Finding the fenced code blocks of a reply (section 4.5 of CommonMark, as far
    as the program follows it). A parse into pieces says what the scanner finds. */
module Fences {
  import opened Wrappers
  import opened Text

  datatype Block = Block(language: string, body: string)

  /** An open fence: its length and character, its language, and the lines since. */
  datatype OpenFence = OpenFence(length: nat, mark: char, language: string, body: seq<Line>)

  function Run(s: string, c: char): (n: nat)
    ensures n <= |s|
    ensures forall i | 0 <= i < n :: s[i] == c
    ensures n < |s| ==> s[n] != c
  {
    if s != [] && s[0] == c then 1 + Run(s[1..], c) else 0
  }

  predicate IsMark(c: char) {
    c == '`' || c == '~'
  }

  /** A line with what the scanner looks at: the fence run it starts with after
      its indentation, the run's character, and what follows, trimmed. */
  datatype Line = Line(text: string, length: nat, mark: char, tail: string)

  function Read(text: string): Line {
    var trimmed := TrimStart(text);
    if trimmed != [] && IsMark(trimmed[0]) then
      var n := Run(trimmed, trimmed[0]);
      Line(text, n, trimmed[0], Trim(trimmed[n..]))
    else Line(text, 0, ' ', Trim(trimmed))
  }

  function ReadAll(texts: seq<string>): seq<Line> {
    Map(Read, texts)
  }

  function Texts(lines: seq<Line>): (texts: seq<string>)
    ensures |texts| == |lines|
  {
    seq(|lines|, i requires 0 <= i < |lines| => lines[i].text)
  }

  predicate Opens(line: Line) {
    line.length >= 3
  }

  predicate Closes(line: Line, length: nat, mark: char) {
    line.length >= length && line.mark == mark && line.tail == []
  }

  function Opened(line: Line): OpenFence {
    OpenFence(line.length, line.mark, Lower(line.tail), [])
  }

  function Finished(open: OpenFence): Block {
    Block(open.language, Join(Texts(open.body), "\n"))
  }

  // ----- The scanner -----

  /** The blocks still to come when `lines` follow a possibly open fence. */
  function Scan(lines: seq<Line>, open: Option<OpenFence>): seq<Block>
    decreases |lines|
  {
    if lines == [] then
      (if open.Some? then [Finished(open.value)] else [])
    else match open
      case Some(fence) =>
        if Closes(lines[0], fence.length, fence.mark) then [Finished(fence)] + Scan(lines[1..], None)
        else Scan(lines[1..], Some(fence.(body := fence.body + [lines[0]])))
      case None =>
        Scan(lines[1..], if Opens(lines[0]) then Some(Opened(lines[0])) else None)
  }

  lemma ScanStep(line: Line, rest: seq<Line>, open: Option<OpenFence>)
    ensures Scan([line] + rest, open) ==
            match open
            case Some(fence) =>
              if Closes(line, fence.length, fence.mark) then [Finished(fence)] + Scan(rest, None)
              else Scan(rest, Some(fence.(body := fence.body + [line])))
            case None => Scan(rest, if Opens(line) then Some(Opened(line)) else None)
  {
    Cons(line, rest);
  }

  ghost function Blocks(text: string): seq<Block> {
    Scan(ReadAll(Lines(text)), None)
  }

  method FencedBlocks(text: string) returns (blocks: seq<Block>)
    ensures blocks == Blocks(text)
  {
    blocks := [];
    var open: Option<OpenFence> := None;
    var lines := ReadAll(Lines(text));
    for i := 0 to |lines|
      invariant Scan(lines, None) == blocks + Scan(lines[i..], open)
    {
      var line := lines[i];
      ghost var found, rest := blocks, lines[i + 1..];
      assert lines[i..] == [line] + rest;
      ScanStep(line, rest, open);
      match open {
        case Some(fence) =>
          if line.length >= fence.length && line.mark == fence.mark && line.tail == [] {
            open := None;
            blocks := blocks + [Finished(fence)];
            Brackets(found, [Finished(fence)], Scan(rest, None));
          } else {
            open := Some(fence.(body := fence.body + [line]));
          }
        case None =>
          if line.length >= 3 {
            open := Some(OpenFence(line.length, line.mark, Lower(line.tail), []));
          }
      }
    }
    if open.Some? {
      blocks := blocks + [Finished(open.value)];
    }
  }

  // ----- Pieces of a document -----

  /** A line outside any block, or a block with its fences; only at the end of a
      document may the closing fence be missing. */
  datatype Piece =
    | Outside(line: Line)
    | Fenced(opener: Line, body: seq<Line>, closer: Option<Line>)

  /** The lines of a piece, before those that follow it. */
  function Prepend(piece: Piece, later: seq<Line>): seq<Line> {
    match piece
    case Outside(line) => [line] + later
    case Fenced(opener, body, closer) =>
      [opener] + (body + (if closer.Some? then [closer.value] + later else later))
  }

  function Flatten(pieces: seq<Piece>): seq<Line> {
    if pieces == [] then [] else Prepend(pieces[0], Flatten(pieces[1..]))
  }

  predicate WellFormed(pieces: seq<Piece>) {
    if pieces == [] then true
    else
      && WellFormed(pieces[1..])
      && match pieces[0]
         case Outside(line) => !Opens(line)
         case Fenced(opener, body, closer) =>
           && Opens(opener)
           && (forall i | 0 <= i < |body| :: !Closes(body[i], opener.length, opener.mark))
           && (closer.Some? ==> Closes(closer.value, opener.length, opener.mark))
           && (closer.None? ==> |pieces| == 1)
  }

  function BlocksOf(pieces: seq<Piece>): seq<Block> {
    if pieces == [] then []
    else
      var later := BlocksOf(pieces[1..]);
      match pieces[0]
      case Outside(_) => later
      case Fenced(opener, body, _) => [Finished(Opened(opener).(body := body))] + later
  }

  /** How many lines come before the fence of this kind closes. */
  function BodyLength(lines: seq<Line>, length: nat, mark: char): (n: nat)
    ensures n <= |lines|
    ensures forall i | 0 <= i < n :: !Closes(lines[i], length, mark)
    ensures n < |lines| ==> Closes(lines[n], length, mark)
  {
    if lines == [] || Closes(lines[0], length, mark) then 0 else 1 + BodyLength(lines[1..], length, mark)
  }

  function Parse(lines: seq<Line>): seq<Piece>
    decreases |lines|
  {
    if lines == [] then []
    else if !Opens(lines[0]) then [Outside(lines[0])] + Parse(lines[1..])
    else
      var rest := lines[1..];
      var n := BodyLength(rest, lines[0].length, lines[0].mark);
      if n == |rest| then [Fenced(lines[0], rest, None)]
      else [Fenced(lines[0], rest[..n], Some(rest[n]))] + Parse(rest[n + 1..])
  }

  // ----- What the scanner finds -----

  lemma CoversFenced(opener: Line, rest: seq<Line>, pieces: seq<Piece>)
    requires Opens(opener)
    requires BodyLength(rest, opener.length, opener.mark) < |rest|
    requires WellFormed(pieces)
    requires Flatten(pieces) == rest[BodyLength(rest, opener.length, opener.mark) + 1..]
    ensures var n := BodyLength(rest, opener.length, opener.mark);
            var all := [Fenced(opener, rest[..n], Some(rest[n]))] + pieces;
            Flatten(all) == [opener] + rest && WellFormed(all)
  {
    var n := BodyLength(rest, opener.length, opener.mark);
    Cons(Fenced(opener, rest[..n], Some(rest[n])), pieces);
    SplitAt(rest, n);
  }

  /** Every line of a document is outside, a fence or a body line, in order. */
  lemma {:induction false} ParseCoversEveryLine(lines: seq<Line>)
    ensures Flatten(Parse(lines)) == lines
    ensures WellFormed(Parse(lines))
    decreases |lines|
  {
    if lines == [] {
    } else {
      var first, rest := lines[0], lines[1..];
      assert lines == [first] + rest;
      if !Opens(first) {
        ParseCoversEveryLine(rest);
        Cons(Outside(first), Parse(rest));
      } else {
        var n := BodyLength(rest, first.length, first.mark);
        if n < |rest| {
          ParseCoversEveryLine(rest[n + 1..]);
          CoversFenced(first, rest, Parse(rest[n + 1..]));
        } else {
          assert rest + [] == rest;
        }
      }
    }
  }

  /** Body lines accumulate until the fence closes or the document ends. */
  lemma {:induction false} ScanBody(body: seq<Line>, rest: seq<Line>, fence: OpenFence)
    requires forall i | 0 <= i < |body| :: !Closes(body[i], fence.length, fence.mark)
    ensures Scan(body + rest, Some(fence)) == Scan(rest, Some(fence.(body := fence.body + body)))
    decreases |body|
  {
    if body == [] {
      assert body + rest == rest && fence.body + body == fence.body;
    } else {
      assert (body + rest)[1..] == body[1..] + rest;
      assert fence.body + [body[0]] + body[1..] == fence.body + body;
      ScanBody(body[1..], rest, fence.(body := fence.body + [body[0]]));
    }
  }

  /** A block's lines, after its opening fence, and what follows. */
  lemma ScanFenced(opener: Line, body: seq<Line>, closer: Line, later: seq<Line>)
    requires Opens(opener) && Closes(closer, opener.length, opener.mark)
    requires forall i | 0 <= i < |body| :: !Closes(body[i], opener.length, opener.mark)
    ensures Scan([opener] + (body + ([closer] + later)), None) ==
            [Finished(Opened(opener).(body := body))] + Scan(later, None)
  {
    ScanStep(opener, body + ([closer] + later), None);
    ScanBody(body, [closer] + later, Opened(opener));
    assert [] + body == body;
    ScanStep(closer, later, Some(Opened(opener).(body := body)));
  }

  lemma ScanUnfinished(opener: Line, body: seq<Line>)
    requires Opens(opener)
    requires forall i | 0 <= i < |body| :: !Closes(body[i], opener.length, opener.mark)
    ensures Scan([opener] + (body + []), None) == [Finished(Opened(opener).(body := body))]
  {
    ScanStep(opener, body + [], None);
    ScanBody(body, [], Opened(opener));
    assert [] + body == body;
  }

  /** The scanner finds exactly the blocks a document was put together from. */
  lemma {:induction false} ScanFindsBlocks(pieces: seq<Piece>)
    requires WellFormed(pieces)
    ensures Scan(Flatten(pieces), None) == BlocksOf(pieces)
  {
    if pieces == [] {
    } else {
      var later := Flatten(pieces[1..]);
      ScanFindsBlocks(pieces[1..]);
      match pieces[0]
      case Outside(line) => ScanStep(line, later, None);
      case Fenced(opener, body, Some(closer)) => ScanFenced(opener, body, closer, later);
      case Fenced(opener, body, None) => ScanUnfinished(opener, body);
    }
  }

  lemma BodyEnds(body: seq<Line>, closer: Line, later: seq<Line>, length: nat, mark: char)
    requires Closes(closer, length, mark)
    requires forall i | 0 <= i < |body| :: !Closes(body[i], length, mark)
    ensures BodyLength(body + ([closer] + later), length, mark) == |body|
  {
    var rest := body + ([closer] + later);
    var n := BodyLength(rest, length, mark);
    assert rest[|body|] == closer;
    assert forall i | 0 <= i < |body| :: rest[i] == body[i];
  }

  lemma ParseFenced(opener: Line, body: seq<Line>, closer: Line, later: seq<Line>)
    requires Opens(opener) && Closes(closer, opener.length, opener.mark)
    requires forall i | 0 <= i < |body| :: !Closes(body[i], opener.length, opener.mark)
    ensures Parse([opener] + (body + ([closer] + later))) == [Fenced(opener, body, Some(closer))] + Parse(later)
  {
    var rest := body + ([closer] + later);
    Cons(opener, rest);
    BodyEnds(body, closer, later, opener.length, opener.mark);
    assert rest[..|body|] == body && rest[|body|] == closer && rest[|body| + 1..] == later;
  }

  /** A document has one reading: no other pieces flatten to the same lines. */
  lemma {:induction false} PiecesAreUnique(pieces: seq<Piece>)
    requires WellFormed(pieces)
    ensures Parse(Flatten(pieces)) == pieces
  {
    if pieces == [] {
    } else {
      var later := Flatten(pieces[1..]);
      PiecesAreUnique(pieces[1..]);
      assert pieces == [pieces[0]] + pieces[1..];
      match pieces[0]
      case Outside(line) => Cons(line, later);
      case Fenced(opener, body, Some(closer)) => ParseFenced(opener, body, closer, later);
      case Fenced(opener, body, None) =>
        Cons(opener, body + later);
        assert body + later == body;
    }
  }

  // ----- Rendering blocks -----

  /** Something to render: lines of prose, then a block. */
  datatype Section = Section(prose: seq<string>, language: string, body: seq<string>)

  function Fence(length: nat, mark: char, language: string): string {
    seq(length, _ => mark) + language
  }

  predicate Renderable(s: Section, length: nat, mark: char) {
    && (forall line <- ReadAll(s.prose) :: !Opens(line))
    && Trimmed(s.language) && Lower(s.language) == s.language
    && (s.language != [] ==> s.language[0] != mark)
    // No body line starts with a run of this mark as long as the fence.
    && (forall line <- ReadAll(s.body) :: line.mark == mark ==> line.length < length)
  }

  /** A section's lines, before those that follow it. */
  function RenderSection(s: Section, length: nat, mark: char, later: seq<string>): seq<string> {
    s.prose + ([Fence(length, mark, s.language)] + (s.body + ([Fence(length, mark, "")] + later)))
  }

  function Render(sections: seq<Section>, length: nat, mark: char): seq<string> {
    if sections == [] then [] else RenderSection(sections[0], length, mark, Render(sections[1..], length, mark))
  }

  function SectionBlock(s: Section): Block {
    Block(s.language, Join(s.body, "\n"))
  }

  function Rendered(sections: seq<Section>): seq<Block> {
    Map(SectionBlock, sections)
  }

  lemma RunOfFence(length: nat, mark: char, language: string)
    requires language != [] ==> language[0] != mark
    ensures Run(Fence(length, mark, language), mark) == length
  {
    var line := Fence(length, mark, language);
    var n := Run(line, mark);
    assert forall i | 0 <= i < length :: line[i] == mark;
    assert length < |line| ==> line[length] == language[0];
  }

  lemma NotIndented(line: string)
    requires line != [] && IsMark(line[0])
    ensures TrimStart(line) == line
  {
  }

  lemma FenceReads(length: nat, mark: char, language: string)
    requires length >= 3 && IsMark(mark) && Trimmed(language)
    requires language != [] ==> language[0] != mark
    ensures Read(Fence(length, mark, language)) == Line(Fence(length, mark, language), length, mark, language)
  {
    var line := Fence(length, mark, language);
    NotIndented(line);
    assert line[length..] == language;
    RunOfFence(length, mark, language);
    TrimOfTrimmed(language);
  }

  lemma {:induction false} ScanProse(prose: seq<Line>, rest: seq<Line>)
    requires forall i | 0 <= i < |prose| :: !Opens(prose[i])
    ensures Scan(prose + rest, None) == Scan(rest, None)
    decreases |prose|
  {
    if prose == [] {
      assert prose + rest == rest;
    } else {
      assert (prose + rest)[1..] == prose[1..] + rest;
      ScanProse(prose[1..], rest);
    }
  }

  lemma ReadSection(s: Section, length: nat, mark: char, later: seq<string>)
    ensures ReadAll(RenderSection(s, length, mark, later)) ==
            ReadAll(s.prose) + ([Read(Fence(length, mark, s.language))]
              + (ReadAll(s.body) + ([Read(Fence(length, mark, ""))] + ReadAll(later))))
  {
    var opener, closer := Fence(length, mark, s.language), Fence(length, mark, "");
    MapCons(Read, closer, later);
    MapSum(Read, s.body, [closer] + later);
    MapCons(Read, opener, s.body + ([closer] + later));
    MapSum(Read, s.prose, [opener] + (s.body + ([closer] + later)));
  }

  lemma ReadKeepsText(text: string)
    ensures Read(text).text == text
  {
  }

  lemma TextsOfRead(texts: seq<string>)
    ensures Texts(ReadAll(texts)) == texts
  {
    forall i | 0 <= i < |texts| ensures ReadAll(texts)[i].text == texts[i] {
      ReadKeepsText(texts[i]);
    }
  }

  ghost predicate SectionLines(prose: seq<Line>, opener: Line, body: seq<Line>, closer: Line) {
    && Opens(opener) && Closes(closer, opener.length, opener.mark)
    && (forall i | 0 <= i < |prose| :: !Opens(prose[i]))
    && (forall i | 0 <= i < |body| :: !Closes(body[i], opener.length, opener.mark))
  }

  lemma ScanSectionLines(prose: seq<Line>, opener: Line, body: seq<Line>, closer: Line, later: seq<Line>)
    requires SectionLines(prose, opener, body, closer)
    ensures Scan(prose + ([opener] + (body + ([closer] + later))), None) ==
            [Finished(Opened(opener).(body := body))] + Scan(later, None)
  {
    ScanProse(prose, [opener] + (body + ([closer] + later)));
    ScanFenced(opener, body, closer, later);
  }

  lemma SectionReads(s: Section, length: nat, mark: char, opener: Line, closer: Line)
    requires length >= 3 && Renderable(s, length, mark)
    requires opener.length == length && opener.mark == mark && opener.tail == s.language
    requires closer.length == length && closer.mark == mark && closer.tail == ""
    ensures SectionLines(ReadAll(s.prose), opener, ReadAll(s.body), closer)
  {
  }

  lemma SectionFinishes(s: Section, opener: Line, body: seq<Line>)
    requires opener.tail == s.language && Lower(s.language) == s.language && Texts(body) == s.body
    ensures Finished(Opened(opener).(body := body)) == SectionBlock(s)
  {
  }

  lemma ScanSection(s: Section, length: nat, mark: char, later: seq<string>)
    requires length >= 3 && IsMark(mark) && Renderable(s, length, mark)
    ensures Scan(ReadAll(RenderSection(s, length, mark, later)), None) ==
            [SectionBlock(s)] + Scan(ReadAll(later), None)
  {
    var opener, closer := Read(Fence(length, mark, s.language)), Read(Fence(length, mark, ""));
    FenceReads(length, mark, s.language);
    FenceReads(length, mark, "");
    SectionReads(s, length, mark, opener, closer);
    TextsOfRead(s.body);
    SectionFinishes(s, opener, ReadAll(s.body));
    ReadSection(s, length, mark, later);
    ScanSectionLines(ReadAll(s.prose), opener, ReadAll(s.body), closer, ReadAll(later));
  }

  /** Rendered blocks are read back with their languages and bodies, when each
      fence is longer than any run of its mark that starts a line of the block. */
  lemma {:induction false} ScanInvertsRender(sections: seq<Section>, length: nat, mark: char)
    requires length >= 3 && IsMark(mark)
    requires forall i | 0 <= i < |sections| :: Renderable(sections[i], length, mark)
    ensures Scan(ReadAll(Render(sections, length, mark)), None) == Rendered(sections)
  {
    if sections == [] {
    } else {
      ScanInvertsRender(sections[1..], length, mark);
      ScanSection(sections[0], length, mark, Render(sections[1..], length, mark));
      MapCons(SectionBlock, sections[0], sections[1..]);
      assert sections == [sections[0]] + sections[1..];
    }
  }

  /** The same on the text itself, when no line contains a line break. */
  lemma BlocksOfRendered(sections: seq<Section>, length: nat, mark: char)
    requires length >= 3 && (mark == '`' || mark == '~')
    requires forall i | 0 <= i < |sections| :: Renderable(sections[i], length, mark)
    requires forall i | 0 <= i < |Render(sections, length, mark)| :: PlainLine(Render(sections, length, mark)[i])
    ensures Blocks(Unlines(Render(sections, length, mark))) == Rendered(sections)
  {
    LinesOfUnlines(Render(sections, length, mark));
    ScanInvertsRender(sections, length, mark);
  }

  lemma {:induction false} TrimStartOfIndented(indent: string, text: string)
    requires Blank(indent)
    ensures TrimStart(indent + text) == TrimStart(text)
    decreases |indent|
  {
    if indent == "" {
      assert indent + text == text;
    } else {
      assert indent[0] in indent && forall c <- indent[1..] :: c in indent;
      assert (indent + text)[1..] == indent[1..] + text;
      TrimStartOfIndented(indent[1..], text);
    }
  }

  /** However far a line is indented, it opens or closes a fence as it would at the margin. */
  lemma IndentMakesNoDifference(indent: string, text: string, length: nat, mark: char)
    requires Blank(indent)
    ensures Opens(Read(indent + text)) <==> Opens(Read(text))
    ensures Opens(Read(text)) ==> Opened(Read(indent + text)) == Opened(Read(text))
    ensures Closes(Read(indent + text), length, mark) <==> Closes(Read(text), length, mark)
  {
    TrimStartOfIndented(indent, text);
  }
}
