/** Agent files as people write them: fields in any order and either spelling, texts
    without quotes, lists with brackets or without, and a prompt below. */
module AgentDocuments {
  import opened Wrappers
  import opened Text
  import opened YamlValues
  import opened LineEdits
  import opened Frontmatter
  import opened AgentFiles

  // ----- Spellings -----

  function FieldOf(i: nat): Field {
    match i
    case 0 => Name
    case 1 => Description
    case 2 => Model
    case 3 => Tools
    case 4 => DisallowedTools
    case 5 => MaxTurns
    case 6 => PermissionMode
    case 7 => Color
    case 8 => Skills
    case 9 => McpServers
    case _ => MaxBudgetUsd
  }

  const KEYS: seq<string> := [
    "name", "description", "model", "tools", "disallowedTools", "maxTurns", "permissionMode", "color", "skills",
    "mcpServers", "maxBudgetUsd"]

  const OTHER_KEYS: seq<string> := [
    "name", "description", "model", "tools", "disallowed_tools", "max_turns", "permission_mode", "color", "skills",
    "mcp_servers", "max_budget_usd"]

  /** How a field is spelled and whether a list has brackets, by number of the field. */
  datatype Style = Style(other: nat -> bool, brackets: nat -> bool)

  function KeyOf(i: nat, style: Style): string
    requires i < 11
  {
    if style.other(i) then OTHER_KEYS[i] else KEYS[i]
  }

  predicate ProperKey(key: string) {
    key != "" && !IsWhitespace(key[0]) && key[0] != '-' && ':' !in key && '\n' !in key
  }

  lemma MainKeyIsProper(i: nat)
    requires i < 11
    ensures ProperKey(KEYS[i]) && KEYS[i] == Key(FieldOf(i))
  {
  }

  lemma OtherKeyIsProper(i: nat)
    requires i < 11
    ensures ProperKey(OTHER_KEYS[i])
    ensures OTHER_KEYS[i] == if OtherKey(FieldOf(i)).Some? then OtherKey(FieldOf(i)).value else Key(FieldOf(i))
  {
  }

  lemma KeyIsProper(i: nat, style: Style)
    requires i < 11
    ensures ProperKey(KeyOf(i, style)) && Spells(KeyOf(i, style), FieldOf(i))
  {
    MainKeyIsProper(i);
    OtherKeyIsProper(i);
  }

  lemma LineSays(num: Numbers, i: nat, style: Style, value: string, g: Field)
    requires i < 11
    ensures Said(num, Entry(KeyOf(i, style), value), g) == if g == FieldOf(i) then Meaning(num, g, value) else None
  {
    var key, more := KeyOf(i, style), TrimEnd([' '] + value);
    KeyIsProper(i, style);
    EntryTrims(key, value);
    ReadsKeyed(Entry(key, value), key, FieldOf(i), more);
    EntryValueTrims(value);
    MeaningOfTrimmed(num, FieldOf(i), more, value);
  }

  // ----- Values -----

  datatype Definition = Definition(
    name: string, description: string, model: string, tools: seq<string>, disallowedTools: seq<string>,
    turns: string, permissionMode: string, color: string, skills: seq<string>, mcpServers: seq<string>, budget: string)

  predicate BareText(s: string) {
    s != "" && BareEnds(s) && '\n' !in s
  }

  predicate StartsOpen(s: string) {
    s != "" ==> s[0] != '['
  }

  predicate BareList(items: seq<string>) {
    BareItems(items) && (forall item <- items :: '\n' !in item) && StartsOpen(items[0])
  }

  predicate Proper(d: Definition) {
    && BareText(d.name) && BareText(d.description) && BareText(d.model) && BareText(d.turns)
    && BareText(d.permissionMode) && BareText(d.color) && BareText(d.budget)
    && BareList(d.tools) && BareList(d.disallowedTools) && BareList(d.skills) && BareList(d.mcpServers)
  }

  function ListText(items: seq<string>, brackets: bool): string {
    if brackets then ['['] + (Join(items, ", ") + [']']) else Join(items, ", ")
  }

  function ValueText(d: Definition, i: nat, style: Style): string
    requires i < 11
  {
    match i
    case 0 => d.name
    case 1 => d.description
    case 2 => d.model
    case 3 => ListText(d.tools, style.brackets(i))
    case 4 => ListText(d.disallowedTools, style.brackets(i))
    case 5 => d.turns
    case 6 => d.permissionMode
    case 7 => d.color
    case 8 => ListText(d.skills, style.brackets(i))
    case 9 => ListText(d.mcpServers, style.brackets(i))
    case _ => d.budget
  }

  lemma {:induction false} JoinHasNoFeed(items: seq<string>)
    requires forall item <- items :: '\n' !in item
    ensures '\n' !in Join(items, ", ")
  {
    if |items| <= 1 {
    } else {
      assert items[0] in items && forall item <- items[1..] :: item in items;
      JoinHasNoFeed(items[1..]);
      assert Join(items, ", ") == items[0] + ", " + Join(items[1..], ", ");
    }
  }

  lemma ListTextReads(items: seq<string>, brackets: bool)
    requires BareList(items)
    ensures ParseYamlList(ListText(items, brackets)) == items
  {
    var first, last := items[0], items[|items| - 1];
    BareListReads(items, first, last);
  }

  lemma BareTextIsPlain(s: string)
    requires BareText(s)
    ensures PlainLine(s)
  {
  }

  lemma PlainWithin(inner: string)
    requires '\n' !in inner
    ensures PlainLine(['['] + (inner + [']']))
  {
    var s := ['['] + (inner + [']']);
    assert s[|s| - 1] == ']';
  }

  lemma PlainEnd(s: string, last: string)
    requires '\n' !in s && s != "" && last != "" && LastChar(s) == LastChar(last) && PlainLine(last)
    ensures PlainLine(s)
  {
  }

  lemma ListTextIsPlain(items: seq<string>, brackets: bool)
    requires BareList(items)
    ensures ListText(items, brackets) != "" && PlainLine(ListText(items, brackets))
  {
    var last := items[|items| - 1];
    JoinHasNoFeed(items);
    PlainWithin(Join(items, ", "));
    assert BareItem(last) && '\n' !in last by { assert last in items; }
    BareTextIsPlain(last);
    JoinHasLast(items, last);
    PlainEnd(Join(items, ", "), last);
  }

  predicate TakesList(f: Field) {
    f.Tools? || f.DisallowedTools? || f.Skills? || f.McpServers?
  }

  lemma ListIsTaken(num: Numbers, f: Field, text: string, items: seq<string>)
    requires TakesList(f)
    ensures Taken(num, f, text, items) == Some(List(items))
  {
  }

  lemma ListMeans(num: Numbers, f: Field, text: string, items: seq<string>)
    requires ParseYamlList(text) == items && TakesList(f)
    ensures Meaning(num, f, text) == Some(List(items))
  {
    ListIsTaken(num, f, StripYamlQuotes(text), items);
  }

  function ListValue(d: Definition, i: nat): seq<string> {
    if i == 3 then d.tools else if i == 4 then d.disallowedTools else if i == 8 then d.skills else d.mcpServers
  }

  lemma ValueIsPlain(d: Definition, i: nat, style: Style)
    requires Proper(d) && i < 11
    ensures ValueText(d, i, style) != "" && PlainLine(ValueText(d, i, style))
  {
    if i == 3 || i == 4 || i == 8 || i == 9 {
      ListTextIsPlain(ListValue(d, i), style.brackets(i));
    } else {
      BareTextIsPlain(ValueText(d, i, style));
    }
  }

  lemma BareListMeans(num: Numbers, f: Field, items: seq<string>, brackets: bool)
    requires BareList(items) && TakesList(f)
    ensures Meaning(num, f, ListText(items, brackets)) == Some(List(items))
  {
    ListTextReads(items, brackets);
    ListMeans(num, f, ListText(items, brackets), items);
  }

  /** A text that reading leaves as it is. */
  predicate Stays(text: string) {
    text != "" && StripYamlQuotes(text) == text
  }

  lemma BareTextStays(text: string)
    requires BareText(text)
    ensures Stays(text)
  {
    BareEndsStay(text);
  }

  // ----- Documents -----

  /** Numbers of fields, each at most once. */
  predicate Fields(order: seq<nat>) {
    && order != []
    && (forall k | 0 <= k < |order| :: order[k] < 11)
    && (forall k, l | 0 <= k < l < |order| :: order[k] != order[l])
  }

  function LineOf(d: Definition, i: nat, style: Style): string
    requires i < 11
  {
    KeyOf(i, style) + ": " + ValueText(d, i, style)
  }

  function LinesOf(d: Definition, order: seq<nat>, style: Style): (lines: seq<string>)
    requires Fields(order)
    ensures |lines| == |order|
  {
    seq(|order|, k requires 0 <= k < |order| => LineOf(d, order[k], style))
  }

  /** The fields of a definition named in `order`, and a prompt. */
  function Document(d: Definition, order: seq<nat>, style: Style, prompt: string): string
    requires Fields(order)
  {
    "---\n" + Unlines(LinesOf(d, order, style)) + "---\n\n" + prompt
  }

  lemma LineIsEntry(d: Definition, i: nat, style: Style)
    requires i < 11
    ensures LineOf(d, i, style) == Entry(KeyOf(i, style), ValueText(d, i, style))
  {
    assert ": " == [':'] + [' '];
    Brackets(KeyOf(i, style), [':'] + [' '], ValueText(d, i, style));
    Brackets([':'], [' '], ValueText(d, i, style));
  }

  lemma EntryIsLine(key: string, value: string)
    requires key != "" && key[0] != '-' && '\n' !in key && value != "" && PlainLine(value)
    ensures FieldLine(Entry(key, value)) && Entry(key, value) != ""
  {
    var line := Entry(key, value);
    assert line[|line| - 1] == value[|value| - 1] && line[0] == key[0];
  }

  lemma LineIsFieldLine(d: Definition, i: nat, style: Style)
    requires Proper(d) && i < 11
    ensures FieldLine(LineOf(d, i, style)) && LineOf(d, i, style) != ""
  {
    KeyIsProper(i, style);
    ValueIsPlain(d, i, style);
    LineIsEntry(d, i, style);
    EntryIsLine(KeyOf(i, style), ValueText(d, i, style));
  }

  lemma LinesAreFieldLines(d: Definition, order: seq<nat>, style: Style)
    requires Proper(d) && Fields(order)
    ensures FieldLines(LinesOf(d, order, style)) && HasText(LinesOf(d, order, style))
  {
    var lines := LinesOf(d, order, style);
    forall k | 0 <= k < |lines| ensures FieldLine(lines[k]) && lines[k] != "" {
      LineIsFieldLine(d, order[k], style);
    }
    assert lines[0] != "";
  }

  lemma {:induction false} OneWord<T, V>(said: T -> Option<V>, items: seq<T>, k: nat)
    requires k <= |items| && forall j | 0 <= j < |items| :: j == k || said(items[j]).None?
    ensures LastWord(said, items) == if k < |items| then said(items[k]) else None
  {
    if items == [] {
    } else if k == |items| - 1 {
      if said(items[k]).None? { OneWord(said, items[..k], k); }
    } else {
      OneWord(said, items[..|items| - 1], if k == |items| then k - 1 else k);
    }
  }

  /** Of a document the reader finds in every field what its one line says. */
  lemma FieldOfDocument(num: Numbers, d: Definition, order: seq<nat>, style: Style, i: nat)
    requires Proper(d) && Fields(order) && i < 11
    ensures ValueOf(num, LinesOf(d, order, style), FieldOf(i)) ==
            Settled(if i in order then Meaning(num, FieldOf(i), ValueText(d, i, style)) else None, FieldOf(i))
  {
    var lines := LinesOf(d, order, style);
    var k :| 0 <= k <= |order| && (k < |order| ==> order[k] == i) && (k == |order| ==> i !in order);
    forall j | 0 <= j < |lines|
      ensures Saying(num, FieldOf(i))(lines[j]) ==
              if j == k then Meaning(num, FieldOf(i), ValueText(d, i, style)) else None
    {
      LineIsEntry(d, order[j], style);
      LineSays(num, order[j], style, ValueText(d, order[j], style), FieldOf(i));
      DistinctFields(order[j], i);
    }
    OneWord(Saying(num, FieldOf(i)), lines, k);
  }

  lemma DistinctFields(i: nat, j: nat)
    requires i < 11 && j < 11
    ensures FieldOf(i) == FieldOf(j) <==> i == j
  {
    assert IndexOfField(FieldOf(i)) == i && IndexOfField(FieldOf(j)) == j;
  }

  // ----- What is read of a document -----

  lemma Assembled(dashes: string, feed: string, inner: string, gap: string, prompt: string)
    ensures ((dashes + feed) + inner) + (dashes + gap) + prompt ==
            dashes + (feed + (inner + (dashes + (gap + prompt))))
  {
  }

  lemma DocumentIsRendered(d: Definition, order: seq<nat>, style: Style, prompt: string)
    requires Fields(order)
    ensures Document(d, order, style, prompt) == Render(File(LinesOf(d, order, style), "\n\n" + prompt))
  {
    assert "---\n" == DASHES + ['\n'] && "---\n\n" == DASHES + "\n\n";
    Assembled(DASHES, ['\n'], Unlines(LinesOf(d, order, style)), "\n\n", prompt);
  }

  lemma FeedsGo(s: string)
    requires s != "" && s[0] != '\n'
    ensures SkipFeeds("\n\n" + s) == s
  {
    assert "\n\n" + s == ['\n'] + (['\n'] + s);
    SkipFirstFeed(['\n'] + s);
    SkipFirstFeed(s);
  }

  lemma DocumentIsParsed(num: Numbers, d: Definition, order: seq<nat>, style: Style, prompt: string)
    requires Proper(d) && Fields(order) && prompt != "" && prompt[0] != '\n'
    ensures Parsed(num, Document(d, order, style, prompt)) == Finished(Filled(num, LinesOf(d, order, style)), prompt)
  {
    DocumentIsRendered(d, order, style, prompt);
    LinesAreFieldLines(d, order, style);
    ParseOfRendered(num, File(LinesOf(d, order, style), "\n\n" + prompt));
    FeedsGo(prompt);
  }

  lemma FieldOfFinished(num: Numbers, d: Definition, order: seq<nat>, style: Style, prompt: string, i: nat)
    requires Proper(d) && Fields(order) && i < 11
    ensures var f := FieldOf(i);
      Get(Finished(Filled(num, LinesOf(d, order, style)), prompt), f) ==
      Found(Settled(if i in order then Meaning(num, f, ValueText(d, i, style)) else None, f), f)
  {
    FieldOfDocument(num, d, order, style, i);
    GetOfFinished(num, LinesOf(d, order, style), prompt, FieldOf(i));
  }

  lemma ColorWord(num: Numbers, f: Field, text: string)
    requires Stays(text) && f.Color?
    ensures Meaning(num, f, text) == Some(Value.Text(Lower(text)))
  {
    assert |Lower(text)| == |text|;
  }

  lemma TurnsWord(num: Numbers, f: Field, text: string)
    requires Stays(text) && f.MaxTurns?
    ensures Meaning(num, f, text) == Some(if num.turns(text).Some? then Count(num.turns(text).value) else Absent)
  {
  }

  lemma BudgetWord(num: Numbers, f: Field, text: string)
    requires Stays(text) && f.MaxBudgetUsd?
    ensures var cap := num.amount(text);
      Meaning(num, f, text) == Some(if cap.Some? && cap.value > 0.0 then Amount(cap.value) else Absent)
  {
  }

  lemma PlainTextWord(num: Numbers, f: Field, text: string)
    requires Stays(text) && (f.Name? || f.Description? || f.Model? || f.PermissionMode?)
    ensures Meaning(num, f, text) == Some(Value.Text(text))
  {
  }

  /** What a field is to hold of a text, or of items. */
  function Word(num: Numbers, f: Field, text: string, items: seq<string>): Value {
    match f
    case MaxTurns => if num.turns(text).Some? then Count(num.turns(text).value) else Absent
    case MaxBudgetUsd =>
      var cap := num.amount(text);
      if cap.Some? && cap.value > 0.0 then Amount(cap.value) else Absent
    case Color => Value.Text(Lower(text))
    case _ => if TakesList(f) then List(items) else Value.Text(text)
  }

  lemma TextIsMeant(num: Numbers, f: Field, text: string, items: seq<string>)
    requires Stays(text) && !TakesList(f)
    ensures Meaning(num, f, text) == Some(Word(num, f, text, items))
  {
    match f
    case Color => ColorWord(num, f, text);
    case MaxTurns => TurnsWord(num, f, text);
    case MaxBudgetUsd => BudgetWord(num, f, text);
    case _ => PlainTextWord(num, f, text);
  }

  predicate IsList(i: nat) {
    i == 3 || i == 4 || i == 8 || i == 9
  }

  lemma ListFields(i: nat)
    requires i < 11
    ensures TakesList(FieldOf(i)) <==> IsList(i)
  {
  }

  lemma TextValue(d: Definition, i: nat, style: Style, text: string)
    requires Proper(d) && i < 11 && !IsList(i) && text == ValueText(d, i, style)
    ensures Stays(text)
  {
    BareTextStays(text);
  }

  lemma ListValueIs(d: Definition, i: nat, style: Style, items: seq<string>)
    requires Proper(d) && IsList(i) && items == ListValue(d, i)
    ensures BareList(items) && ValueText(d, i, style) == ListText(items, style.brackets(i))
  {
  }

  lemma ListIsMeant(num: Numbers, f: Field, text: string, items: seq<string>, brackets: bool)
    requires BareList(items) && TakesList(f) && text == ListText(items, brackets)
    ensures Meaning(num, f, text) == Some(Word(num, f, text, items))
  {
    BareListMeans(num, f, items, brackets);
  }

  lemma FieldIsMeant(num: Numbers, d: Definition, i: nat, style: Style, f: Field, text: string, items: seq<string>)
    requires Proper(d) && i < 11 && f == FieldOf(i) && text == ValueText(d, i, style) && items == ListValue(d, i)
    ensures Meaning(num, f, text) == Some(Word(num, f, text, items))
  {
    ListFields(i);
    if IsList(i) {
      ListValueIs(d, i, style, items);
      ListIsMeant(num, f, text, items, style.brackets(i));
    } else {
      TextValue(d, i, style, text);
      TextIsMeant(num, f, text, items);
    }
  }

  function WordOf(num: Numbers, d: Definition, i: nat, style: Style): Value
    requires i < 11
  {
    Word(num, FieldOf(i), ValueText(d, i, style), ListValue(d, i))
  }

  /** In the reader's record every field is as its line in the document says. */
  ghost predicate ReadFrom(fm: AgentFrontmatter, num: Numbers, d: Definition, order: seq<nat>, style: Style) {
    forall i: nat | i < 11 ::
      Get(fm, FieldOf(i)) == Found(if i in order then WordOf(num, d, i, style) else Default(FieldOf(i)), FieldOf(i))
  }

  lemma LeftIsReadFrom(num: Numbers, d: Definition, order: seq<nat>, style: Style, prompt: string)
    requires Proper(d) && Fields(order)
    ensures ReadFrom(Finished(Filled(num, LinesOf(d, order, style)), prompt), num, d, order, style)
  {
    forall i: nat | i < 11
      ensures var f := FieldOf(i);
        Get(Finished(Filled(num, LinesOf(d, order, style)), prompt), f) ==
        Found(if i in order then WordOf(num, d, i, style) else Default(f), f)
    {
      FieldOfFinished(num, d, order, style, prompt, i);
      FieldIsMeant(num, d, i, style, FieldOf(i), ValueText(d, i, style), ListValue(d, i));
    }
  }

  /** The record of a definition of which these fields are there. */
  function RecordFor(there: nat -> bool, d: Definition, turns: Option<nat>, cap: Option<real>, prompt: string)
    : AgentFrontmatter
  {
    AgentFrontmatter(
      if there(0) then d.name else "untitled",
      if there(1) then d.description else "",
      if there(2) then Some(d.model) else None,
      if there(3) then Some(d.tools) else None,
      if there(4) then Some(d.disallowedTools) else None,
      if there(5) then turns else None,
      if there(6) then Some(d.permissionMode) else None,
      if there(7) then Some(Lower(d.color)) else None,
      if there(8) then Some(d.skills) else None,
      if there(9) then Some(d.mcpServers) else None,
      if there(10) && cap.Some? && cap.value > 0.0 then cap else None,
      prompt)
  }

  lemma FieldsAre()
    ensures FieldOf(0) == Name && FieldOf(1) == Description && FieldOf(2) == Model && FieldOf(3) == Tools
    ensures FieldOf(4) == DisallowedTools && FieldOf(5) == MaxTurns && FieldOf(6) == PermissionMode
    ensures FieldOf(7) == Color && FieldOf(8) == Skills && FieldOf(9) == McpServers && FieldOf(10) == MaxBudgetUsd
  {
  }

  lemma TextsAreRead(fm: AgentFrontmatter, num: Numbers, d: Definition, order: seq<nat>, style: Style)
    requires ReadFrom(fm, num, d, order, style) && d.name != ""
    ensures fm.name == (if 0 in order then d.name else "untitled")
    ensures fm.description == (if 1 in order then d.description else "")
    ensures fm.model == (if 2 in order then Some(d.model) else None)
    ensures fm.permissionMode == (if 6 in order then Some(d.permissionMode) else None)
    ensures fm.color == (if 7 in order then Some(Lower(d.color)) else None)
  {
    FieldsAre();
  }

  lemma ListsAreRead(fm: AgentFrontmatter, num: Numbers, d: Definition, order: seq<nat>, style: Style)
    requires ReadFrom(fm, num, d, order, style)
    ensures fm.tools == (if 3 in order then Some(d.tools) else None)
    ensures fm.disallowedTools == (if 4 in order then Some(d.disallowedTools) else None)
    ensures fm.skills == (if 8 in order then Some(d.skills) else None)
    ensures fm.mcpServers == (if 9 in order then Some(d.mcpServers) else None)
  {
    FieldsAre();
  }

  lemma NumbersAreRead(fm: AgentFrontmatter, num: Numbers, d: Definition, order: seq<nat>, style: Style)
    requires ReadFrom(fm, num, d, order, style)
    ensures fm.maxTurns == (if 5 in order then num.turns(d.turns) else None)
    ensures var cap := num.amount(d.budget);
      fm.maxBudgetUsd == if 10 in order && cap.Some? && cap.value > 0.0 then cap else None
  {
    FieldsAre();
  }

  lemma RecordIsRead(fm: AgentFrontmatter, num: Numbers, d: Definition, order: seq<nat>, style: Style)
    requires ReadFrom(fm, num, d, order, style) && d.name != ""
    ensures fm == RecordFor(i => i in order, d, num.turns(d.turns), num.amount(d.budget), fm.body)
  {
    TextsAreRead(fm, num, d, order, style);
    ListsAreRead(fm, num, d, order, style);
    NumbersAreRead(fm, num, d, order, style);
  }

  /** A document with any of the fields in any order, each in either spelling, and lists
      with brackets or without, reads as what stands in it; of the other fields nothing
      is known, and the text below is the prompt. */
  lemma DocumentReads(num: Numbers, d: Definition, order: seq<nat>, style: Style, prompt: string)
    requires Proper(d) && Fields(order) && prompt != "" && prompt[0] != '\n'
    ensures Parsed(num, Document(d, order, style, prompt)) ==
            RecordFor(i => i in order, d, num.turns(d.turns), num.amount(d.budget), prompt)
  {
    var fm := Finished(Filled(num, LinesOf(d, order, style)), prompt);
    DocumentIsParsed(num, d, order, style, prompt);
    LeftIsReadFrom(num, d, order, style, prompt);
    RecordIsRead(fm, num, d, order, style);
  }

  // ----- Texts that are no such document -----

  lemma {:induction false} NeverClosed(s: string)
    requires forall i | 0 <= i <= |s| :: !StartsWith(s[i..], "\n---")
    ensures FindClose(s) == |s|
    decreases |s|
  {
    assert s[0..] == s;
    if s == "" {
    } else {
      forall i | 0 <= i <= |s[1..]| ensures !StartsWith(s[1..][i..], "\n---") {
        assert s[1..][i..] == s[i + 1..];
      }
      NeverClosed(s[1..]);
    }
  }

  lemma DashesLead(content: string)
    requires StartsWith(content, "---")
    ensures TrimStart(content) == content
  {
    assert content[0] == '-';
  }

  /** A text that does not start with dashes is all prompt to the reader, and the editor
      refuses it. */
  lemma OtherTextIsPrompt(num: Numbers, content: string, f: Field, value: string)
    requires !StartsWith(TrimStart(content), "---")
    ensures Parsed(num, content) ==
            AgentFrontmatter("untitled", "", None, None, None, None, None, None, None, None, None, content)
    ensures Edited(content, f, value) == Err(NoFrontmatter)
  {
    if StartsWith(content, "---") { DashesLead(content); }
  }

  /** The editor refuses a text in which no line of dashes follows the first. */
  lemma UnclosedIsRefused(content: string, f: Field, value: string)
    requires StartsWith(content, "---") && forall i | 3 <= i <= |content| :: !StartsWith(content[i..], "\n---")
    ensures Edited(content, f, value) == Err(NotClosed)
  {
    var rest := content[3..];
    forall i | 0 <= i <= |rest| ensures !StartsWith(rest[i..], "\n---") {
      assert rest[i..] == content[i + 3..];
    }
    NeverClosed(rest);
  }
}
