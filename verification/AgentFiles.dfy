/** The text of agent files: cutting it, changing a field in it and reading it whole. */
module AgentFiles {
  import opened Wrappers
  import opened Text
  import opened YamlValues
  import opened LineEdits
  import opened Frontmatter

  const DASHES := "---"

  const CLOSING := "\n---"

  // ----- Finding the closing dashes -----

  /** The index of the first line feed with dashes behind it, or the length. */
  function FindClose(s: string): (i: nat)
    ensures i <= |s| && (i < |s| ==> |s| >= i + 4 && StartsWith(s[i..], CLOSING))
  {
    if s == "" || StartsWith(s, CLOSING) then 0 else 1 + FindClose(s[1..])
  }

  lemma {:induction false} FindCloseSkips(line: string, later: string)
    requires '\n' !in line
    ensures FindClose(line + later) == |line| + FindClose(later)
    decreases |line|
  {
    if line == "" {
      assert line + later == later;
    } else {
      assert (line + later)[1..] == line[1..] + later;
      assert line[0] in line && CLOSING[0] == '\n' && (line + later)[0] == line[0];
      FindCloseSkips(line[1..], later);
    }
  }

  predicate FieldLine(line: string) {
    PlainLine(line) && !StartsWith(line, DASHES)
  }

  predicate FieldLines(lines: seq<string>) {
    forall i | 0 <= i < |lines| :: FieldLine(lines[i])
  }

  lemma LineStartsAlone(line: string, later: string)
    ensures StartsWith(line + (['\n'] + later), DASHES) ==> StartsWith(line, DASHES)
  {
    var s := line + (['\n'] + later);
    if |line| >= 3 {
      assert s[..3] == line[..3];
    } else {
      assert s[|line|] == '\n';
    }
  }

  lemma FeedThenDashes(s: string)
    ensures StartsWith(['\n'] + s, CLOSING) <==> StartsWith(s, DASHES)
  {
    assert CLOSING == ['\n'] + DASHES;
    Cons('\n', s);
    if |s| >= 3 {
      assert (['\n'] + s)[..4] == ['\n'] + s[..3];
    }
  }

  lemma LineDoesNotClose(line: string, later: string)
    requires FieldLine(line)
    ensures !StartsWith(['\n'] + (line + (['\n'] + later)), CLOSING)
  {
    FeedThenDashes(line + (['\n'] + later));
    LineStartsAlone(line, later);
  }

  lemma FindCloseAfterFeed(s: string)
    requires !StartsWith(['\n'] + s, CLOSING)
    ensures FindClose(['\n'] + s) == 1 + FindClose(s)
  {
    Cons('\n', s);
  }

  /** Behind a line feed and lines without dashes comes the closing line. */
  lemma {:induction false} ClosesAfterLines(lines: seq<string>, tail: string)
    requires FieldLines(lines) && StartsWith(tail, DASHES)
    ensures FindClose(['\n'] + (Unlines(lines) + tail)) == |Unlines(lines)|
    decreases |lines|
  {
    if lines == [] {
      assert Unlines(lines) + tail == tail;
      FeedThenDashes(tail);
    } else {
      var later := Unlines(lines[1..]) + tail;
      ClosesAfterLines(lines[1..], tail);
      LineDoesNotClose(lines[0], later);
      FindCloseAfterFeed(lines[0] + (['\n'] + later));
      FindCloseSkips(lines[0], ['\n'] + later);
      UnlinesThen(lines, tail);
    }
  }

  lemma UnlinesThen(lines: seq<string>, tail: string)
    requires lines != []
    ensures Unlines(lines) + tail == lines[0] + (['\n'] + (Unlines(lines[1..]) + tail))
    ensures |Unlines(lines)| == |lines[0]| + 1 + |Unlines(lines[1..])|
  {
    Brackets(lines[0] + ['\n'], Unlines(lines[1..]), tail);
    Brackets(lines[0], ['\n'], Unlines(lines[1..]) + tail);
  }

  // ----- The editor -----

  datatype Refusal = NoFrontmatter | NotClosed

  /** The frontmatter, both lines of dashes included, and what follows it. */
  function SplitFrontmatter(content: string): Result<(string, string), Refusal> {
    if !StartsWith(content, DASHES) then Err(NoFrontmatter)
    else
      var end := FindClose(content[3..]);
      if end == |content[3..]| then Err(NotClosed) else Ok((content[..3 + end + 4], content[3 + end + 4..]))
  }

  /** All lines of a frontmatter with the first fitting one replaced, or with a new one
      before the last. */
  function Replaced(all: seq<string>, hit: string -> bool, entry: string): seq<string>
    requires all != []
  {
    var i := FirstHit(hit, all);
    if i < |all| then all[i := entry] else all[..|all| - 1] + ([entry] + all[|all| - 1..])
  }

  lemma SomeLines(text: string)
    requires text != ""
    ensures Lines(text) != []
  {
  }

  function Edited(content: string, f: Field, value: string): Result<string, Refusal> {
    match SplitFrontmatter(content)
    case Err(e) => Err(e)
    case Ok((frontmatter, body)) =>
      SomeLines(frontmatter);
      Ok(Join(Replaced(Lines(frontmatter), Hits(Key(f)), Entry(Key(f), value)), "\n") + body)
  }

  method ReplaceFrontmatterField(content: string, f: Field, value: string) returns (r: Result<string, Refusal>)
    ensures r == Edited(content, f, value)
  {
    var cut := SplitFrontmatter(content);
    if cut.Err? {
      return Err(cut.error);
    }
    SomeLines(cut.value.0);
    var lines := ReplaceLine(Lines(cut.value.0), Hits(Key(f)), Entry(Key(f), value));
    r := Ok(Join(lines, "\n") + cut.value.1);
  }

  /** The first `i` lines once the line at `at` is replaced. */
  function PartlyReplaced(all: seq<string>, at: nat, entry: string, i: nat): seq<string>
    requires i <= |all|
  {
    if at < i then all[..i][at := entry] else all[..i]
  }

  lemma PartlyReplacedStep(all: seq<string>, at: nat, entry: string, i: nat)
    requires i < |all|
    ensures PartlyReplaced(all, at, entry, i + 1) ==
            PartlyReplaced(all, at, entry, i) + [if i == at then entry else all[i]]
  {
  }

  method ReplaceLine(all: seq<string>, hit: string -> bool, entry: string) returns (lines: seq<string>)
    requires all != []
    ensures lines == Replaced(all, hit, entry)
  {
    var replaced := false;
    lines := [];
    ghost var first := FirstHit(hit, all);
    for i := 0 to |all|
      invariant replaced == (first < i)
      invariant lines == PartlyReplaced(all, first, entry, i)
    {
      PartlyReplacedStep(all, first, entry, i);
      if !replaced && hit(all[i]) {
        replaced := true;
        lines := lines + [entry];
      } else {
        lines := lines + [all[i]];
      }
    }
    assert all[..|all|] == all;
    if !replaced {
      var closing := |lines| - 1;
      lines := lines[..closing] + ([entry] + lines[closing..]);
    }
  }

  // ----- The reader -----

  datatype AgentFrontmatter = AgentFrontmatter(
    name: string, description: string, model: Option<string>, tools: Option<seq<string>>,
    disallowedTools: Option<seq<string>>, maxTurns: Option<nat>, permissionMode: Option<string>,
    color: Option<string>, skills: Option<seq<string>>, mcpServers: Option<seq<string>>,
    maxBudgetUsd: Option<real>, body: string)

  function Fresh(name: string, body: string): AgentFrontmatter {
    AgentFrontmatter(name, "", None, None, None, None, None, None, None, None, None, body)
  }

  function UnlessEmpty(before: Option<string>, text: string): Option<string> {
    if text == "" then before else Some(text)
  }

  function Positive(cap: Option<real>): Option<real> {
    if cap.Some? && cap.value > 0.0 then cap else None
  }

  /** The branch of the reader for a field. */
  function Assign(num: Numbers, fm: AgentFrontmatter, f: Field, text: string, items: seq<string>): AgentFrontmatter {
    match f
    case Name => fm.(name := text)
    case Description => fm.(description := text)
    case Model => fm.(model := UnlessEmpty(fm.model, text))
    case Tools => fm.(tools := Some(items))
    case DisallowedTools => fm.(disallowedTools := Some(items))
    case MaxTurns => fm.(maxTurns := num.turns(text))
    case PermissionMode => fm.(permissionMode := UnlessEmpty(fm.permissionMode, text))
    case Color => fm.(color := UnlessEmpty(fm.color, Lower(text)))
    case Skills => fm.(skills := Some(items))
    case McpServers => fm.(mcpServers := Some(items))
    case MaxBudgetUsd => fm.(maxBudgetUsd := Positive(num.amount(text)))
  }

  function TextOf(t: Option<string>): Value {
    if t.Some? then Value.Text(t.value) else Absent
  }

  function ListOf(t: Option<seq<string>>): Value {
    if t.Some? then List(t.value) else Absent
  }

  function Get(fm: AgentFrontmatter, f: Field): Value {
    match f
    case Name => Value.Text(fm.name)
    case Description => Value.Text(fm.description)
    case Model => TextOf(fm.model)
    case Tools => ListOf(fm.tools)
    case DisallowedTools => ListOf(fm.disallowedTools)
    case MaxTurns => if fm.maxTurns.Some? then Count(fm.maxTurns.value) else Absent
    case PermissionMode => TextOf(fm.permissionMode)
    case Color => TextOf(fm.color)
    case Skills => ListOf(fm.skills)
    case McpServers => ListOf(fm.mcpServers)
    case MaxBudgetUsd => if fm.maxBudgetUsd.Some? then Amount(fm.maxBudgetUsd.value) else Absent
  }

  lemma AssignSets(num: Numbers, fm: AgentFrontmatter, f: Field, text: string, items: seq<string>, g: Field)
    ensures var taken := Taken(num, f, text, items);
      Get(Assign(num, fm, f, text, items), g) == if g == f && taken.Some? then taken.value else Get(fm, g)
    ensures Assign(num, fm, f, text, items).body == fm.body
  {
  }

  function ReadLine(num: Numbers, fm: AgentFrontmatter, line: string): AgentFrontmatter {
    match Read(line)
    case None => fm
    case Some((f, value)) => Assign(num, fm, f, StripYamlQuotes(value), ParseYamlList(value))
  }

  function Reading(num: Numbers): (AgentFrontmatter, string) -> AgentFrontmatter {
    (fm: AgentFrontmatter, line: string) => ReadLine(num, fm, line)
  }

  /** The fields after all lines. */
  function Filled(num: Numbers, lines: seq<string>): AgentFrontmatter {
    Fold(Reading(num), Fresh("", ""), lines)
  }

  lemma ReadLineSays(num: Numbers, fm: AgentFrontmatter, line: string, f: Field)
    ensures Get(ReadLine(num, fm, line), f) == if Said(num, line, f).Some? then Said(num, line, f).value else Get(fm, f)
    ensures ReadLine(num, fm, line).body == fm.body
  {
    if Read(line).Some? {
      var (g, value) := Read(line).value;
      AssignSets(num, fm, g, StripYamlQuotes(value), ParseYamlList(value), f);
    }
  }

  /** The loop over the lines ends with the last word on every field. */
  lemma {:induction false} FilledSays(num: Numbers, lines: seq<string>, f: Field)
    ensures Get(Filled(num, lines), f) == ValueOf(num, lines, f)
    ensures Filled(num, lines).body == ""
  {
    if lines == [] {
    } else {
      FilledSays(num, lines[..|lines| - 1], f);
      ReadLineSays(num, Filled(num, lines[..|lines| - 1]), lines[|lines| - 1], f);
    }
  }

  function SkipFeeds(s: string): string {
    if s != "" && s[0] == '\n' then SkipFeeds(s[1..]) else s
  }

  /** The text between the dashes and the body, if the content starts with dashes and
      they are closed. */
  function Sections(content: string): Option<(string, string)> {
    var trimmed := TrimStart(content);
    if !StartsWith(trimmed, DASHES) then None
    else
      var afterFirst := SkipFeeds(trimmed[3..]);
      var end := FindClose(afterFirst);
      if end == |afterFirst| then None else Some((afterFirst[..end], SkipFeeds(afterFirst[end + 4..])))
  }

  function Finished(fm: AgentFrontmatter, body: string): AgentFrontmatter {
    fm.(name := if fm.name == "" then "untitled" else fm.name, body := body)
  }

  function Parsed(num: Numbers, content: string): AgentFrontmatter {
    match Sections(content)
    case None => Fresh("untitled", content)
    case Some((frontmatter, body)) => Finished(Filled(num, Lines(frontmatter)), body)
  }

  method ParseAgentFrontmatter(num: Numbers, content: string) returns (fm: AgentFrontmatter)
    ensures fm == Parsed(num, content)
  {
    var sections := Sections(content);
    if sections.None? {
      return Fresh("untitled", content);
    }
    fm := FillFields(num, Lines(sections.value.0));
    if fm.name == "" {
      fm := fm.(name := "untitled");
    }
    fm := fm.(body := sections.value.1);
  }

  method FillFields(num: Numbers, lines: seq<string>) returns (fm: AgentFrontmatter)
    ensures fm == Filled(num, lines)
  {
    fm := Fresh("", "");
    for i := 0 to |lines|
      invariant fm == Filled(num, lines[..i])
    {
      FoldStep(Reading(num), Fresh("", ""), lines, i);
      fm := ReadLine(num, fm, lines[i]);
    }
    assert lines[..|lines|] == lines;
  }

  // ----- Files with a proper frontmatter -----

  /** Field lines between two lines of dashes, and whatever follows. */
  datatype File = File(lines: seq<string>, body: string)

  function Render(file: File): string {
    DASHES + (['\n'] + (Unlines(file.lines) + (DASHES + file.body)))
  }

  lemma PrefixGoes(prefix: string, s: string)
    ensures StartsWith(prefix + s, prefix) && (prefix + s)[|prefix|..] == s && (prefix + s)[..|prefix|] == prefix
  {
  }

  /** The frontmatter that the editor sees. */
  function Front(lines: seq<string>): string {
    Unlines([DASHES] + lines) + DASHES
  }

  lemma FrontIs(lines: seq<string>, body: string)
    ensures Render(File(lines, body)) == Front(lines) + body
    ensures |Front(lines)| == 3 + |Unlines(lines)| + 4
  {
    Cons(DASHES, lines);
    assert Unlines([DASHES] + lines) == DASHES + ['\n'] + Unlines(lines);
    Brackets(DASHES + ['\n'] + Unlines(lines), DASHES, body);
    Brackets(DASHES + ['\n'], Unlines(lines), DASHES + body);
    Brackets(DASHES, ['\n'], Unlines(lines) + (DASHES + body));
  }

  lemma SplitOfRendered(file: File)
    requires FieldLines(file.lines)
    ensures SplitFrontmatter(Render(file)) == Ok((Front(file.lines), file.body))
  {
    var tail := DASHES + file.body;
    PrefixGoes(DASHES, ['\n'] + (Unlines(file.lines) + tail));
    PrefixGoes(DASHES, file.body);
    ClosesAfterLines(file.lines, tail);
    FrontIs(file.lines, file.body);
    PrefixGoes(Front(file.lines), file.body);
  }

  lemma LinesOfFront(lines: seq<string>)
    requires FieldLines(lines)
    ensures Lines(Front(lines)) == [DASHES] + lines + [DASHES]
  {
    forall i | 0 <= i < |[DASHES] + lines| ensures PlainLine(([DASHES] + lines)[i]) {
      if i > 0 { assert ([DASHES] + lines)[i] == lines[i - 1]; }
    }
    LinesOfUnlinesAnd([DASHES] + lines, DASHES);
  }

  lemma ReplacedWithin(lines: seq<string>, hit: string -> bool, entry: string)
    requires !hit(DASHES)
    ensures Replaced([DASHES] + lines + [DASHES], hit, entry) == [DASHES] + Put(hit, lines, entry) + [DASHES]
  {
    var all, i := [DASHES] + lines + [DASHES], FirstHit(hit, lines);
    PutAtIs(lines, i, entry);
    forall j | 0 <= j <= i ensures !hit(all[j]) {
      if j > 0 { assert all[j] == lines[j - 1]; }
    }
    if i < |lines| {
      assert all[i + 1] == lines[i];
      FirstHitIs(hit, all, i + 1);
    } else {
      assert all[|lines| + 1] == DASHES;
      FirstHitIs(hit, all, |all|);
    }
  }

  lemma DashesAreNoField(f: Field)
    ensures !Hits(Key(f))(DASHES)
  {
    TrimOfTrimmed(DASHES);
    assert (Key(f) + [':'])[0] == Key(f)[0];
  }

  lemma EntryIsFieldLine(f: Field, value: string)
    requires PlainLine(value)
    ensures FieldLine(Entry(Key(f), value))
  {
    var rest := [':'] + ([' '] + value);
    assert Entry(Key(f), value)[0] == Key(f)[0];
    assert '\n' !in [':'] + ([' '] + value);
    assert Entry(Key(f), value)[|Entry(Key(f), value)| - 1] == rest[|rest| - 1];
  }

  lemma SetKeepsFieldLines(lines: seq<string>, f: Field, value: string)
    requires FieldLines(lines) && PlainLine(value)
    ensures FieldLines(Set(lines, f, value))
  {
    EntryIsFieldLine(f, value);
    PutAtIs(lines, FirstHit(Hits(Key(f)), lines), Entry(Key(f), value));
  }

  /** Editing the text sets the field in its lines and leaves the body as it is. */
  lemma EditOfRendered(file: File, f: Field, value: string)
    requires FieldLines(file.lines) && PlainLine(value)
    ensures Edited(Render(file), f, value) == Ok(Render(File(Set(file.lines, f, value), file.body)))
  {
    var lines := Set(file.lines, f, value);
    SplitOfRendered(file);
    LinesOfFront(file.lines);
    DashesAreNoField(f);
    ReplacedWithin(file.lines, Hits(Key(f)), Entry(Key(f), value));
    JoinIsUnlines([DASHES] + lines, DASHES);
    FrontIs(lines, file.body);
  }

  // ----- Reading a rendered file -----

  /** A frontmatter with no line but empty ones is read as none at all. */
  predicate HasText(lines: seq<string>) {
    exists i | 0 <= i < |lines| :: lines[i] != ""
  }

  function Kept(lines: seq<string>): seq<string> {
    WithoutLeading("", lines)
  }

  lemma {:induction false} KeptHasText(lines: seq<string>)
    requires HasText(lines) && FieldLines(lines)
    ensures Kept(lines) != [] && Kept(lines)[0] != "" && FieldLines(Kept(lines))
  {
    if lines[0] != "" {
    } else {
      var i :| 0 <= i < |lines| && lines[i] != "";
      assert lines[1..][i - 1] == lines[i];
      KeptHasText(lines[1..]);
    }
  }

  lemma {:induction false} SkipFeedsOfLines(lines: seq<string>, tail: string)
    requires HasText(lines) && FieldLines(lines)
    ensures SkipFeeds(Unlines(lines) + tail) == Unlines(Kept(lines)) + tail
    decreases |lines|
  {
    UnlinesThen(lines, tail);
    var later := ['\n'] + (Unlines(lines[1..]) + tail);
    if lines[0] == "" {
      assert lines[0] + later == later;
      Cons('\n', Unlines(lines[1..]) + tail);
      var i :| 0 <= i < |lines| && lines[i] != "";
      assert lines[1..][i - 1] == lines[i];
      SkipFeedsOfLines(lines[1..], tail);
    } else {
      assert FieldLine(lines[0]) && lines[0][0] in lines[0];
      assert (lines[0] + later)[0] == lines[0][0] != '\n';
    }
  }

  lemma {:induction false} UnlinesOfMore(lines: seq<string>, last: string)
    ensures Unlines(lines + [last]) == Unlines(lines) + last + ['\n']
    decreases |lines|
  {
    if lines == [] {
      assert lines + [last] == [last];
      assert Unlines([last]) == last + ['\n'] + Unlines([last][1..]);
    } else {
      assert (lines + [last])[1..] == lines[1..] + [last];
      UnlinesOfMore(lines[1..], last);
      Brackets(lines[0] + ['\n'], Unlines(lines[1..]), last + ['\n']);
      Brackets(Unlines(lines[1..]), last, ['\n']);
      Brackets(Unlines(lines), last, ['\n']);
    }
  }

  /** The lines as text without the last line feed. */
  function Inner(lines: seq<string>): string
    requires lines != []
  {
    Unlines(lines[..|lines| - 1]) + lines[|lines| - 1]
  }

  lemma InnerIs(init: seq<string>, last: string)
    ensures Inner(init + [last]) == Unlines(init) + last
  {
    assert (init + [last])[..|init|] == init;
  }

  lemma UnlinesIsInner(lines: seq<string>)
    requires lines != []
    ensures Unlines(lines) == Inner(lines) + ['\n']
  {
    var init, last := UpToLast(lines);
    UnlinesOfMore(init, last);
    InnerIs(init, last);
  }

  lemma FeedMoves(inner: string, body: string)
    ensures (inner + ['\n']) + (DASHES + body) == inner + (CLOSING + body)
  {
    assert CLOSING == ['\n'] + DASHES;
    Brackets(inner, ['\n'], DASHES + body);
    Brackets(['\n'], DASHES, body);
  }

  lemma InnerThen(lines: seq<string>, body: string)
    requires lines != []
    ensures Unlines(lines) + (DASHES + body) == Inner(lines) + (CLOSING + body)
    ensures |Unlines(lines)| == |Inner(lines)| + 1
  {
    UnlinesIsInner(lines);
    FeedMoves(Inner(lines), body);
  }

  lemma ClosesAfterFirst(lines: seq<string>, tail: string)
    requires lines != [] && FieldLines(lines) && StartsWith(tail, DASHES)
    ensures FindClose(Unlines(lines) + tail) == |Unlines(lines)| - 1
  {
    UnlinesThen(lines, tail);
    FindCloseSkips(lines[0], ['\n'] + (Unlines(lines[1..]) + tail));
    ClosesAfterLines(lines[1..], tail);
  }

  lemma StartOfRendered(file: File)
    ensures StartsWith(TrimStart(Render(file)), DASHES)
    ensures TrimStart(Render(file))[3..] == ['\n'] + (Unlines(file.lines) + (DASHES + file.body))
  {
    assert Render(file)[0] == '-';
    PrefixGoes(DASHES, ['\n'] + (Unlines(file.lines) + (DASHES + file.body)));
  }

  lemma SkipFirstFeed(s: string)
    ensures SkipFeeds(['\n'] + s) == SkipFeeds(s)
  {
    Cons('\n', s);
  }

  lemma AroundClosing(inner: string, body: string)
    ensures var s := inner + (CLOSING + body); |s| >= |inner| + 4 && s[..|inner|] == inner && s[|inner| + 4..] == body
  {
  }

  lemma SectionsAre(content: string, inner: string, body: string)
    requires StartsWith(TrimStart(content), DASHES) && SkipFeeds(TrimStart(content)[3..]) == inner + (CLOSING + body)
    requires FindClose(inner + (CLOSING + body)) == |inner|
    ensures Sections(content) == Some((inner, SkipFeeds(body)))
  {
    AroundClosing(inner, body);
  }

  lemma SectionsOfRendered(file: File)
    requires FieldLines(file.lines) && HasText(file.lines)
    ensures Kept(file.lines) != []
    ensures Sections(Render(file)) == Some((Inner(Kept(file.lines)), SkipFeeds(file.body)))
  {
    var kept, tail := Kept(file.lines), DASHES + file.body;
    StartOfRendered(file);
    SkipFirstFeed(Unlines(file.lines) + tail);
    SkipFeedsOfLines(file.lines, tail);
    KeptHasText(file.lines);
    PrefixGoes(DASHES, file.body);
    ClosesAfterFirst(kept, tail);
    InnerThen(kept, file.body);
    SectionsAre(Render(file), Inner(kept), file.body);
  }

  // ----- Empty lines do not count -----

  lemma EmptyLineReads(num: Numbers, fm: AgentFrontmatter)
    ensures ReadLine(num, fm, "") == fm
  {
    TrimOfTrimmed("");
  }

  lemma EmptyLineIsIdle(num: Numbers)
    ensures Idle(Reading(num), "")
  {
    forall fm: AgentFrontmatter ensures ReadLine(num, fm, "") == fm {
      EmptyLineReads(num, fm);
    }
  }

  lemma FilledOfText(num: Numbers, init: seq<string>, last: string)
    requires FieldLines(init) && FieldLine(last)
    ensures Filled(num, Lines(Unlines(init) + last)) == Filled(num, init + [last])
  {
    if last == "" {
      assert Unlines(init) + last == Unlines(init);
      LinesOfUnlines(init);
      EmptyLineReads(num, Filled(num, init));
      FoldOfMore(Reading(num), Fresh("", ""), init, last);
    } else {
      LinesOfUnlinesAnd(init, last);
    }
  }

  lemma FilledOfInner(num: Numbers, lines: seq<string>)
    requires lines != [] && FieldLines(lines)
    ensures Filled(num, Lines(Inner(lines))) == Filled(num, lines)
  {
    var init, last := UpToLast(lines);
    assert FieldLines(init) by {
      forall i | 0 <= i < |init| ensures FieldLine(init[i]) { assert init[i] == lines[i]; }
    }
    InnerIs(init, last);
    FilledOfText(num, init, last);
  }

  /** Reading a file gives what its lines say last of every field, and its body. */
  lemma ParseOfRendered(num: Numbers, file: File)
    requires FieldLines(file.lines) && HasText(file.lines)
    ensures Parsed(num, Render(file)) == Finished(Filled(num, file.lines), SkipFeeds(file.body))
  {
    SectionsOfRendered(file);
    KeptHasText(file.lines);
    FilledOfInner(num, Kept(file.lines));
    EmptyLineIsIdle(num);
    FoldWithoutLeading(Reading(num), Fresh("", ""), "", file.lines);
  }

  // ----- Editing and then reading -----

  lemma TextOfLine(lines: seq<string>, line: string)
    requires line in lines && line != ""
    ensures HasText(lines)
  {
  }

  /** What reading finds in a field: a missing name is untitled. */
  function Found(value: Value, f: Field): Value {
    if f.Name? && value == Value.Text("") then Value.Text("untitled") else value
  }

  lemma GetOfFinished(num: Numbers, lines: seq<string>, body: string, f: Field)
    ensures Get(Finished(Filled(num, lines), body), f) == Found(ValueOf(num, lines, f), f)
  {
    FilledSays(num, lines, f);
    FilledSays(num, lines, Name);
  }

  lemma FieldOfEdited(num: Numbers, file: File, f: Field, value: string, g: Field)
    requires FieldLines(file.lines) && PlainLine(value)
    ensures Edited(Render(file), f, value).Ok?
    ensures var after := Parsed(num, Edited(Render(file), f, value).value);
      Get(after, g) == Found(ValueOf(num, Set(file.lines, f, value), g), g) && after.body == SkipFeeds(file.body)
  {
    var lines := Set(file.lines, f, value);
    EditOfRendered(file, f, value);
    SetKeepsFieldLines(file.lines, f, value);
    PutHolds(Hits(Key(f)), file.lines, Entry(Key(f), value));
    TextOfLine(lines, Entry(Key(f), value));
    ParseOfRendered(num, File(lines, file.body));
    GetOfFinished(num, lines, SkipFeeds(file.body), g);
  }

  /** As far as values of the field look different, no other line stands against one. */
  predicate Unopposed(f: Field, later: Option<Value>, earlier: Option<Value>, meaning: Option<Value>) {
    if meaning.Some? then later.None? || Found(later.value, f) == Found(meaning.value, f)
    else later.None? && earlier.None?
  }

  lemma UnopposedIs(f: Field, later: Option<Value>, earlier: Option<Value>, meaning: Option<Value>)
    requires meaning.Some? || (!f.Name? && Default(f) == Absent && later != Some(Absent) && earlier != Some(Absent))
    ensures Found(Settled(Or(later, Or(meaning, earlier)), f), f) == Found(Settled(meaning, f), f) <==>
            Unopposed(f, later, earlier, meaning)
  {
  }

  lemma FoundAnyhow(num: Numbers, lines: seq<string>, f: Field, value: string)
    ensures Found(ValueOf(num, Set(lines, f, value), f), f) == Found(Settled(Meaning(num, f, value), f), f) <==>
            Unopposed(f, LaterWord(num, lines, f), EarlierWord(num, lines, f), Meaning(num, f, value))
  {
    ReadsBackExactly(num, lines, f, value);
    if Meaning(num, f, value).None? {
      WordIsNotAbsent(num, f, value, Below(Hits(Key(f)), lines));
      WordIsNotAbsent(num, f, value, Above(Hits(Key(f)), lines));
    }
    UnopposedIs(f, LaterWord(num, lines, f), EarlierWord(num, lines, f), Meaning(num, f, value));
  }

  /** Whatever lines there are of a field, it reads as the value set exactly when no other
      of them stands against it. */
  lemma EditReadsExactly(num: Numbers, file: File, f: Field, value: string)
    requires FieldLines(file.lines) && PlainLine(value)
    ensures Edited(Render(file), f, value).Ok?
    ensures Get(Parsed(num, Edited(Render(file), f, value).value), f) ==
            Found(Settled(Meaning(num, f, value), f), f) <==>
            Unopposed(f, LaterWord(num, file.lines, f), EarlierWord(num, file.lines, f), Meaning(num, f, value))
  {
    FieldOfEdited(num, file, f, value, f);
    FoundAnyhow(num, file.lines, f, value);
  }

  lemma OnceUnopposed(num: Numbers, lines: seq<string>, f: Field, value: string)
    ensures OnceAtMost(lines, f) ==>
              (Unopposed(f, LaterWord(num, lines, f), EarlierWord(num, lines, f), Meaning(num, f, value)) <==>
               Settable(num, lines, f, value))
  {
    if OnceAtMost(lines, f) {
      NoneBelow(num, lines, f);
      EarlierSilentExactly(num, lines, f);
    }
  }

  lemma OnceFound(num: Numbers, lines: seq<string>, f: Field, value: string)
    requires OnceAtMost(lines, f)
    ensures Found(ValueOf(num, Set(lines, f, value), f), f) == Found(Settled(Meaning(num, f, value), f), f) <==>
            Settable(num, lines, f, value)
  {
    FoundAnyhow(num, lines, f, value);
    OnceUnopposed(num, lines, f, value);
  }

  lemma OtherFieldOfEdited(num: Numbers, file: File, f: Field, value: string, g: Field)
    requires FieldLines(file.lines) && HasText(file.lines) && PlainLine(value)
    ensures Edited(Render(file), f, value).Ok?
    ensures var before, after := Parsed(num, Render(file)), Parsed(num, Edited(Render(file), f, value).value);
      after.body == before.body && (g != f ==> Get(after, g) == Get(before, g))
  {
    ParseOfRendered(num, file);
    GetOfFinished(num, file.lines, SkipFeeds(file.body), g);
    FieldOfEdited(num, file, f, value, g);
    if g != f { OthersUnchanged(num, file.lines, f, value, g); }
  }

  lemma OwnFieldOfEdited(num: Numbers, file: File, f: Field, value: string)
    requires FieldLines(file.lines) && PlainLine(value)
    ensures Edited(Render(file), f, value).Ok?
    ensures OnceAtMost(file.lines, f) ==>
              (Get(Parsed(num, Edited(Render(file), f, value).value), f) ==
                  Found(Settled(Meaning(num, f, value), f), f) <==>
               Settable(num, file.lines, f, value))
  {
    FieldOfEdited(num, file, f, value, f);
    if OnceAtMost(file.lines, f) { OnceFound(num, file.lines, f, value); }
  }

  /** Setting a field to a one-line value and reading the file: every other field and
      the body read as before, and the field, when it is at most once in the file, reads
      as the value exactly when that says something or the other spelling says nothing. */
  lemma EditThenParse(num: Numbers, file: File, f: Field, value: string, g: Field)
    requires FieldLines(file.lines) && HasText(file.lines) && PlainLine(value)
    ensures Edited(Render(file), f, value).Ok?
    ensures var before, after := Parsed(num, Render(file)), Parsed(num, Edited(Render(file), f, value).value);
      after.body == before.body && (g != f ==> Get(after, g) == Get(before, g))
    ensures OnceAtMost(file.lines, f) ==>
              (Get(Parsed(num, Edited(Render(file), f, value).value), f) ==
                  Found(Settled(Meaning(num, f, value), f), f) <==>
               Settable(num, file.lines, f, value))
  {
    OtherFieldOfEdited(num, file, f, value, g);
    OwnFieldOfEdited(num, file, f, value);
  }

  lemma OtherModeIsFieldLine(mode: string)
    requires PlainLine(mode)
    ensures FieldLine(Entry(OTHER_MODE_KEY, mode))
  {
    var line, rest := Entry(OTHER_MODE_KEY, mode), [':'] + ([' '] + mode);
    assert line[0] == 'p' && '\n' !in OTHER_MODE_KEY;
    assert line[|line| - 1] == rest[|rest| - 1];
  }

  lemma FoundOtherMode(num: Numbers, mode: string)
    requires BareEnds(mode) && mode != ""
    ensures var lines := Set([Entry(OTHER_MODE_KEY, mode)], PermissionMode, "");
      Found(ValueOf(num, lines, PermissionMode), PermissionMode) == Value.Text(mode)
  {
    EmptyModeLeavesOther(num, mode);
  }

  /** Setting an empty permission mode does not clear one in the other spelling. */
  lemma EmptyModeDoesNotClear(num: Numbers, mode: string, body: string)
    requires BareEnds(mode) && mode != "" && PlainLine(mode)
    ensures var content := Render(File([Entry(OTHER_MODE_KEY, mode)], body));
      && Edited(content, PermissionMode, "").Ok?
      && Get(Parsed(num, Edited(content, PermissionMode, "").value), PermissionMode) == Value.Text(mode)
  {
    OtherModeIsFieldLine(mode);
    FoundOtherMode(num, mode);
    FieldOfEdited(num, File([Entry(OTHER_MODE_KEY, mode)], body), PermissionMode, "", PermissionMode);
  }

  const PLAN_LINE := "permission_mode: plan"

  const PLAN_FILE := DASHES + (['\n'] + ((PLAN_LINE + ['\n']) + (DASHES + "\n")))

  lemma PlanFileIs()
    ensures Render(File([Entry(OTHER_MODE_KEY, "plan")], "\n")) == PLAN_FILE
  {
    var line := Entry(OTHER_MODE_KEY, "plan");
    assert line == PLAN_LINE;
    assert [line][1..] == [] && Unlines([line]) == PLAN_LINE + ['\n'];
  }

  /** Such a file. */
  lemma PlanModeIsNotCleared(num: Numbers)
    ensures Edited(PLAN_FILE, PermissionMode, "").Ok?
    ensures Get(Parsed(num, Edited(PLAN_FILE, PermissionMode, "").value), PermissionMode) == Value.Text("plan")
  {
    PlanFileIs();
    EmptyModeDoesNotClear(num, "plan", "\n");
  }

  /** A second edit of a field leaves the text that it alone would have left. */
  lemma EditTwice(file: File, f: Field, value: string, other: string)
    requires FieldLines(file.lines) && PlainLine(value) && PlainLine(other)
    ensures Edited(Render(file), f, value).Ok?
    ensures Edited(Edited(Render(file), f, value).value, f, other) == Edited(Render(file), f, other)
  {
    EditOfRendered(file, f, value);
    EditOfRendered(file, f, other);
    SetKeepsFieldLines(file.lines, f, value);
    EditOfRendered(File(Set(file.lines, f, value), file.body), f, other);
    SetTwice(file.lines, f, value, other);
  }

  /** Edits of two fields read alike in either order. */
  lemma EditsCommute(num: Numbers, file: File, f: Field, value: string, g: Field, other: string, h: Field)
    requires FieldLines(file.lines) && PlainLine(value) && PlainLine(other) && f != g
    ensures Edited(Render(file), f, value).Ok? && Edited(Render(file), g, other).Ok?
    ensures var one := Edited(Edited(Render(file), f, value).value, g, other);
      var two := Edited(Edited(Render(file), g, other).value, f, value);
      && one.Ok? && two.Ok?
      && Get(Parsed(num, one.value), h) == Get(Parsed(num, two.value), h)
      && Parsed(num, one.value).body == Parsed(num, two.value).body
  {
    EditsInTurn(num, file, f, value, g, other, h);
    EditsInTurn(num, file, g, other, f, value, h);
    SettingsCommuteInMeaning(num, file.lines, f, value, g, other, h);
  }

  lemma EditsInTurn(num: Numbers, file: File, f: Field, value: string, g: Field, other: string, h: Field)
    requires FieldLines(file.lines) && PlainLine(value) && PlainLine(other)
    ensures Edited(Render(file), f, value).Ok?
    ensures var one := Edited(Edited(Render(file), f, value).value, g, other);
      && one.Ok?
      && Get(Parsed(num, one.value), h) == Found(ValueOf(num, Set(Set(file.lines, f, value), g, other), h), h)
      && Parsed(num, one.value).body == SkipFeeds(file.body)
  {
    var lines := Set(file.lines, f, value);
    var both := Set(lines, g, other);
    EditOfRendered(file, f, value);
    SetKeepsFieldLines(file.lines, f, value);
    EditOfRendered(File(lines, file.body), g, other);
    SetKeepsFieldLines(lines, g, other);
    PutHolds(Hits(Key(g)), lines, Entry(Key(g), other));
    TextOfLine(both, Entry(Key(g), other));
    ParseOfRendered(num, File(both, file.body));
    GetOfFinished(num, both, SkipFeeds(file.body), h);
  }

  // ----- What the command writes for each field -----

  lemma DebugIsPlain(s: string, printable: char -> bool)
    ensures PlainLine(Debug(s, printable))
  {
    EscapedIsOneLine(s, printable);
    assert Debug(s, printable)[|Debug(s, printable)| - 1] == '"';
  }

  lemma TakenWhole(num: Numbers, text: string, items: seq<string>)
    ensures Taken(num, Description, text, items) == Some(Value.Text(text))
    ensures Found(Settled(Some(Value.Text(text)), Description), Description) == Value.Text(text)
    ensures Taken(num, Tools, text, items) == Some(List(items))
    ensures Found(Settled(Some(List(items)), Tools), Tools) == List(items)
  {
  }

  lemma MeaningOfDescription(num: Numbers, value: string)
    ensures Meaning(num, Description, value).Some?
    ensures Found(Settled(Meaning(num, Description, value), Description), Description) ==
            Value.Text(StripYamlQuotes(value))
  {
    TakenWhole(num, StripYamlQuotes(value), ParseYamlList(value));
  }

  lemma DescriptionIsRead(num: Numbers, file: File, value: string)
    requires FieldLines(file.lines) && HasText(file.lines) && OnceAtMost(file.lines, Description) && PlainLine(value)
    ensures Edited(Render(file), Description, value).Ok?
    ensures Parsed(num, Edited(Render(file), Description, value).value).description == StripYamlQuotes(value)
  {
    MeaningOfDescription(num, value);
    EditThenParse(num, file, Description, value, Description);
  }

  /** A description set on a file that has at most one reads back as it was given
      exactly when nothing in it is escaped and it has no single quote at either end. */
  lemma DescriptionReadsBackExactly(num: Numbers, file: File, text: string, printable: char -> bool)
    requires FieldLines(file.lines) && HasText(file.lines) && OnceAtMost(file.lines, Description)
    ensures Edited(Render(file), Description, Debug(text, printable)).Ok?
    ensures Parsed(num, Edited(Render(file), Description, Debug(text, printable)).value).description == text <==>
            Unescaped(text, printable) && EndsFreeOf(text, '\'')
  {
    DebugIsPlain(text, printable);
    DescriptionIsRead(num, file, Debug(text, printable));
    DebugReadsBackExactly(text, printable);
  }

  lemma {:induction false} JoinIsPlain(items: seq<string>, printable: char -> bool)
    ensures '\n' !in Join(DebugAll(items, printable), ", ")
  {
    if items == [] {
    } else {
      DebugIsPlain(items[0], printable);
      JoinIsPlain(items[1..], printable);
      assert items == [items[0]] + items[1..];
      MapCons((item: string) => Debug(item, printable), items[0], items[1..]);
      Cons(Debug(items[0], printable), DebugAll(items[1..], printable));
    }
  }

  lemma WrittenListIsPlain(items: seq<string>, printable: char -> bool)
    ensures PlainLine(WrittenList(items, printable))
  {
    JoinIsPlain(items, printable);
    assert WrittenList(items, printable)[|WrittenList(items, printable)| - 1] == ']';
  }

  lemma MeaningOfTools(num: Numbers, value: string)
    ensures Meaning(num, Tools, value).Some?
    ensures Found(Settled(Meaning(num, Tools, value), Tools), Tools) == List(ParseYamlList(value))
  {
    TakenWhole(num, StripYamlQuotes(value), ParseYamlList(value));
  }

  lemma ToolsOf(fm: AgentFrontmatter, items: seq<string>)
    requires Get(fm, Tools) == List(items)
    ensures fm.tools == Some(items)
  {
  }

  lemma ToolsAreRead(num: Numbers, file: File, value: string)
    requires FieldLines(file.lines) && HasText(file.lines) && OnceAtMost(file.lines, Tools) && PlainLine(value)
    ensures Edited(Render(file), Tools, value).Ok?
    ensures Parsed(num, Edited(Render(file), Tools, value).value).tools == Some(ParseYamlList(value))
  {
    MeaningOfTools(num, value);
    EditThenParse(num, file, Tools, value, Tools);
    ToolsOf(Parsed(num, Edited(Render(file), Tools, value).value), ParseYamlList(value));
  }

  /** A list of tools, given with commas between, reads back exactly when each of its
      items does. */
  lemma ToolsReadBackExactly(num: Numbers, file: File, value: string, printable: char -> bool)
    requires FieldLines(file.lines) && HasText(file.lines) && OnceAtMost(file.lines, Tools)
    ensures var written := Edited(Render(file), Tools, WrittenList(ItemsOf(value), printable));
      && written.Ok?
      && (Parsed(num, written.value).tools == Some(ItemsOf(value)) <==>
            forall i | 0 <= i < |ItemsOf(value)| :: ReadsBack(ItemsOf(value)[i], printable))
  {
    var items := ItemsOf(value);
    ItemsAreListItems(value);
    WrittenListIsPlain(items, printable);
    ToolsAreRead(num, file, WrittenList(items, printable));
    ListReadsBackExactly(items, printable);
  }

  /** A new prompt goes behind the frontmatter. */
  function WithPrompt(content: string, prompt: string): Result<string, Refusal> {
    match SplitFrontmatter(content)
    case Err(e) => Err(e)
    case Ok((frontmatter, _)) => Ok(frontmatter + ("\n\n" + (Trim(prompt) + "\n")))
  }

  lemma FeedsSkipped(s: string)
    requires s != "" && s[0] != '\n'
    ensures SkipFeeds("\n\n" + (s + "\n")) == s + "\n"
  {
    assert "\n\n" + (s + "\n") == ['\n'] + (['\n'] + (s + "\n"));
    SkipFirstFeed(['\n'] + (s + "\n"));
    SkipFirstFeed(s + "\n");
    assert (s + "\n")[0] == s[0];
  }

  lemma FeedsOnly()
    ensures SkipFeeds("\n\n" + ("" + "\n")) == ""
  {
    assert "\n\n" + ("" + "\n") == ['\n'] + (['\n'] + (['\n'] + ""));
    SkipFirstFeed(['\n'] + (['\n'] + ""));
    SkipFirstFeed(['\n'] + "");
    SkipFirstFeed("");
  }

  /** What a prompt reads back as: trimmed, ended by one line feed, unless it is blank. */
  function PromptBody(prompt: string): string {
    if Trim(prompt) == "" then "" else Trim(prompt) + "\n"
  }

  lemma BodyOfPrompt(prompt: string)
    ensures SkipFeeds("\n\n" + (Trim(prompt) + "\n")) == PromptBody(prompt)
  {
    TrimIsTrimmed(prompt);
    if Trim(prompt) == "" {
      FeedsOnly();
    } else {
      FeedsSkipped(Trim(prompt));
    }
  }

  /** A prompt set reads back as its body, with every field as it was. */
  lemma PromptReadsBack(num: Numbers, file: File, prompt: string)
    requires FieldLines(file.lines) && HasText(file.lines)
    ensures WithPrompt(Render(file), prompt).Ok?
    ensures Parsed(num, WithPrompt(Render(file), prompt).value) ==
            Parsed(num, Render(file)).(body := PromptBody(prompt))
  {
    var body := "\n\n" + (Trim(prompt) + "\n");
    SplitOfRendered(file);
    FrontIs(file.lines, body);
    ParseOfRendered(num, file);
    ParseOfRendered(num, File(file.lines, body));
    BodyOfPrompt(prompt);
  }
}
