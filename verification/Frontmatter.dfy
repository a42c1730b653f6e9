/** Agent files: a frontmatter of fields between two lines of dashes, and a body. The
    editor changes one line of it; the reader takes the last word on every field. */
module Frontmatter {
  import opened Wrappers
  import opened Text
  import opened YamlValues
  import opened LineEdits

  // ----- Lines -----

  datatype Field =
    | Name | Description | Model | Tools | DisallowedTools | MaxTurns
    | PermissionMode | Color | Skills | McpServers | MaxBudgetUsd

  function Key(f: Field): (key: string)
    ensures key != "" && ':' !in key && '\n' !in key && !IsWhitespace(key[0]) && key[0] != '-'
  {
    match f
    case Name => "name"
    case Description => "description"
    case Model => "model"
    case Tools => "tools"
    case DisallowedTools => "disallowedTools"
    case MaxTurns => "maxTurns"
    case PermissionMode => "permissionMode"
    case Color => "color"
    case Skills => "skills"
    case McpServers => "mcpServers"
    case MaxBudgetUsd => "maxBudgetUsd"
  }

  /** Five fields are read under a second spelling. */
  function OtherKey(f: Field): Option<string> {
    match f
    case DisallowedTools => Some("disallowed_tools")
    case MaxTurns => Some("max_turns")
    case PermissionMode => Some("permission_mode")
    case McpServers => Some("mcp_servers")
    case MaxBudgetUsd => Some("max_budget_usd")
    case _ => None
  }

  const FIELDS := [Name, Description, Model, Tools, DisallowedTools, MaxTurns,
                   PermissionMode, Color, Skills, McpServers, MaxBudgetUsd]

  predicate Spells(key: string, f: Field) {
    key == Key(f) || OtherKey(f) == Some(key)
  }

  /** The field a key spells, trying the fields in turn. */
  function FieldFrom(key: string, i: nat): Option<Field>
    requires i <= |FIELDS|
    decreases |FIELDS| - i
  {
    if i == |FIELDS| then None else if Spells(key, FIELDS[i]) then Some(FIELDS[i]) else FieldFrom(key, i + 1)
  }

  /** What a line is about: every spelling ends at its only colon, so a line starts with
      one exactly when that is what stands before its first colon. */
  function Read(line: string): Option<(Field, string)> {
    var t := Trim(line);
    var i := IndexOf(t, ':');
    if i == |t| then None
    else match FieldFrom(t[..i], 0)
      case None => None
      case Some(f) => Some((f, t[i + 1..]))
  }

  lemma SpellingIsUnique(key: string, f: Field, g: Field)
    requires Spells(key, f) && Spells(key, g)
    ensures f == g
  {
    match f
    case Name =>
    case Description =>
    case Model =>
    case Tools =>
    case DisallowedTools =>
    case MaxTurns =>
    case PermissionMode =>
    case Color =>
    case Skills =>
    case McpServers =>
    case MaxBudgetUsd =>
  }

  function IndexOfField(f: Field): (i: nat)
    ensures i < |FIELDS| && FIELDS[i] == f
  {
    match f
    case Name => 0
    case Description => 1
    case Model => 2
    case Tools => 3
    case DisallowedTools => 4
    case MaxTurns => 5
    case PermissionMode => 6
    case Color => 7
    case Skills => 8
    case McpServers => 9
    case MaxBudgetUsd => 10
  }

  lemma {:induction false} FieldFromFinds(key: string, f: Field, i: nat)
    requires Spells(key, f) && i <= IndexOfField(f)
    ensures FieldFrom(key, i) == Some(f)
    decreases |FIELDS| - i
  {
    if Spells(key, FIELDS[i]) {
      SpellingIsUnique(key, FIELDS[i], f);
    } else {
      assert i != IndexOfField(f);
      FieldFromFinds(key, f, i + 1);
    }
  }

  // ----- Reading one line -----

  /** A line as the reader and the editor see it: spaces, then a key, a colon and more. */
  predicate Matches(line: string, key: string) {
    StartsWith(TrimStart(line), key + [':'])
  }

  lemma KeyOfText(key: string, more: string)
    requires ':' !in key
    ensures var t := key + [':'] + more; IndexOf(t, ':') == |key| < |t| && t[..|key|] == key && t[|key| + 1..] == more
  {
    CutAtFirst(key, ':', more);
  }

  lemma TrimOfKeyed(key: string, more: string)
    requires key != "" && !IsWhitespace(key[0])
    ensures Trim(key + [':'] + more) == key + [':'] + TrimEnd(more)
  {
    var t := key + [':'] + more;
    assert t[0] == key[0];
    TrimEndOfSum(key + [':'], more);
  }

  lemma ReadsKeyed(line: string, key: string, f: Field, more: string)
    requires Spells(key, f) && ':' !in key && Trim(line) == key + [':'] + more
    ensures Read(line) == Some((f, more))
  {
    KeyOfText(key, more);
    FieldFromFinds(key, f, 0);
  }

  lemma MatchTrims(line: string, key: string) returns (more: string)
    requires key != "" && !IsWhitespace(key[0]) && Matches(line, key)
    ensures Trim(line) == key + [':'] + more
  {
    var t := TrimStart(line);
    more := TrimEnd(t[|key| + 1..]);
    assert t == key + [':'] + t[|key| + 1..];
    TrimOfTrimStart(line);
    TrimOfKeyed(key, t[|key| + 1..]);
  }

  predicate Mentions(line: string, f: Field) {
    Read(line).Some? && Read(line).value.0 == f
  }

  lemma MatchIsRead(line: string, f: Field)
    requires Matches(line, Key(f))
    ensures Mentions(line, f)
  {
    var more := MatchTrims(line, Key(f));
    ReadsKeyed(line, Key(f), f, more);
  }

  lemma FieldFromOnly(key: string, f: Field, i: nat)
    requires i <= |FIELDS| && FieldFrom(key, i) == Some(f)
    ensures Spells(key, f)
    decreases |FIELDS| - i
  {
  }

  lemma PrefixMentions(line: string, key: string, f: Field)
    ensures Spells(key, f) && ':' !in key && StartsWith(Trim(line), key + [':']) ==> Mentions(line, f)
  {
    var t := Trim(line);
    if Spells(key, f) && ':' !in key && StartsWith(t, key + [':']) {
      assert t == key + [':'] + t[|key| + 1..];
      ReadsKeyed(line, key, f, t[|key| + 1..]);
    }
  }

  lemma MentionHasPrefix(line: string, f: Field) returns (key: string)
    ensures Mentions(line, f) ==> Spells(key, f) && StartsWith(Trim(line), key + [':'])
  {
    var t := Trim(line);
    var i := IndexOf(t, ':');
    key := t[..i];
    if Mentions(line, f) {
      FieldFromOnly(key, f, 0);
      SplitAt(t, i);
      Brackets(key, [':'], t[i + 1..]);
    }
  }

  /** Reading by the first colon is reading by prefixes: a line is about a field exactly
      when it starts with a spelling of the field and a colon. */
  lemma ReadsByPrefix(line: string, f: Field)
    ensures Mentions(line, f) <==>
            || StartsWith(Trim(line), Key(f) + [':'])
            || (OtherKey(f).Some? && StartsWith(Trim(line), OtherKey(f).value + [':']))
  {
    if Mentions(line, f) {
      var key := MentionHasPrefix(line, f);
    } else if StartsWith(Trim(line), Key(f) + [':']) {
      PrefixMentions(line, Key(f), f);
    } else if OtherKey(f).Some? && StartsWith(Trim(line), OtherKey(f).value + [':']) {
      NoColonInOther(f);
      PrefixMentions(line, OtherKey(f).value, f);
    }
  }

  lemma NoColonInOther(f: Field)
    requires OtherKey(f).Some?
    ensures ':' !in OtherKey(f).value
  {
    match f
    case DisallowedTools =>
    case MaxTurns =>
    case PermissionMode =>
    case McpServers =>
    case MaxBudgetUsd =>
  }

  /** The line the editor writes. */
  function Entry(key: string, value: string): string {
    key + ([':'] + ([' '] + value))
  }

  lemma EntryMatches(key: string, value: string)
    requires key != "" && !IsWhitespace(key[0])
    ensures Matches(Entry(key, value), key)
  {
    Brackets(key, [':'], [' '] + value);
    assert Entry(key, value)[0] == key[0];
  }

  lemma EntryTrims(key: string, value: string)
    requires key != "" && !IsWhitespace(key[0])
    ensures Trim(Entry(key, value)) == key + [':'] + TrimEnd([' '] + value)
  {
    Brackets(key, [':'], [' '] + value);
    TrimOfKeyed(key, [' '] + value);
  }

  lemma EntryValueTrims(value: string)
    ensures Trim(TrimEnd([' '] + value)) == Trim(value)
  {
    TrimOfTrimEnd([' '] + value);
    TrimOfSpaceAnd(value);
  }

  lemma EntryReads(f: Field, value: string)
    ensures Read(Entry(Key(f), value)) == Some((f, TrimEnd([' '] + value)))
  {
    EntryTrims(Key(f), value);
    ReadsKeyed(Entry(Key(f), value), Key(f), f, TrimEnd([' '] + value));
  }

  // ----- What the lines say -----

  /** How numbers are read from text. */
  datatype Numbers = Numbers(turns: string -> Option<nat>, amount: string -> Option<real>)

  datatype Value = Absent | Text(text: string) | List(items: seq<string>) | Count(n: nat) | Amount(usd: real)

  function TextUnlessEmpty(s: string): Option<Value> {
    if s == "" then None else Some(Text(s))
  }

  /** What a field takes from a value, given as one text and as a list; an empty text
      leaves some fields as they were. */
  function Taken(num: Numbers, f: Field, text: string, items: seq<string>): Option<Value> {
    match f
    case Name => Some(Text(text))
    case Description => Some(Text(text))
    case Model => TextUnlessEmpty(text)
    case PermissionMode => TextUnlessEmpty(text)
    case Color => TextUnlessEmpty(Lower(text))
    case MaxTurns => Some(if num.turns(text).Some? then Count(num.turns(text).value) else Absent)
    case MaxBudgetUsd =>
      var cap := num.amount(text);
      Some(if cap.Some? && cap.value > 0.0 then Amount(cap.value) else Absent)
    case _ => Some(List(items))
  }

  function Meaning(num: Numbers, f: Field, value: string): Option<Value> {
    Taken(num, f, StripYamlQuotes(value), ParseYamlList(value))
  }

  function Said(num: Numbers, line: string, f: Field): Option<Value> {
    match Read(line)
    case None => None
    case Some((g, value)) => if g == f then Meaning(num, f, value) else None
  }

  lemma MeaningOfTrimmed(num: Numbers, f: Field, value: string, other: string)
    requires Trim(value) == Trim(other)
    ensures Meaning(num, f, value) == Meaning(num, f, other)
  {
    TrimDecides(value, other);
  }

  lemma EntrySays(num: Numbers, f: Field, value: string, g: Field)
    ensures Said(num, Entry(Key(f), value), g) == if g == f then Meaning(num, f, value) else None
  {
    EntryReads(f, value);
    EntryValueTrims(value);
    MeaningOfTrimmed(num, f, TrimEnd([' '] + value), value);
  }

  function Saying(num: Numbers, f: Field): string -> Option<Value> {
    (line: string) => Said(num, line, f)
  }

  function Hits(key: string): string -> bool {
    (line: string) => Matches(line, key)
  }

  function Default(f: Field): Value {
    if f.Name? || f.Description? then Text("") else Absent
  }

  function Settled(latest: Option<Value>, f: Field): Value {
    if latest.Some? then latest.value else Default(f)
  }

  /** What lines say of a field: the last word on it. */
  function ValueOf(num: Numbers, lines: seq<string>, f: Field): Value {
    Settled(LastWord(Saying(num, f), lines), f)
  }

  // ----- Setting a field -----

  /** The lines of a frontmatter with a field set: the first line with the editor's own
      spelling goes, or a last line comes. */
  function Set(lines: seq<string>, f: Field, value: string): seq<string> {
    Put(Hits(Key(f)), lines, Entry(Key(f), value))
  }

  lemma KeysMatch(f: Field, value: string)
    ensures Hits(Key(f))(Entry(Key(f), value))
  {
    EntryMatches(Key(f), value);
  }

  lemma KeysUnlike(f: Field, g: Field)
    requires f != g
    ensures Unlike(Hits(Key(f)), Hits(Key(g)))
  {
    forall line: string ensures !(Matches(line, Key(f)) && Matches(line, Key(g))) {
      if Matches(line, Key(f)) && Matches(line, Key(g)) {
        MatchIsRead(line, f);
        MatchIsRead(line, g);
      }
    }
  }

  /** Setting a field leaves every other as it was, whatever the lines. */
  lemma OthersUnchanged(num: Numbers, lines: seq<string>, f: Field, value: string, g: Field)
    requires g != f
    ensures ValueOf(num, Set(lines, f, value), g) == ValueOf(num, lines, g)
  {
    EntrySays(num, f, value, g);
    forall line: string ensures Hits(Key(f))(line) ==> Saying(num, g)(line).None? {
      if Matches(line, Key(f)) {
        MatchIsRead(line, f);
      }
    }
    PutSilently(Saying(num, g), Hits(Key(f)), lines, Entry(Key(f), value));
  }

  /** What the lines after the one that is set say of the field. */
  function LaterWord(num: Numbers, lines: seq<string>, f: Field): Option<Value> {
    LastWord(Saying(num, f), Below(Hits(Key(f)), lines))
  }

  /** What the lines before it say: where it is new, that is all of them, and otherwise
      only the other spelling can be there. */
  function EarlierWord(num: Numbers, lines: seq<string>, f: Field): Option<Value> {
    LastWord(Saying(num, f), Above(Hits(Key(f)), lines))
  }

  lemma TakenIsNotAbsent(num: Numbers, f: Field, text: string, items: seq<string>, other: string, others: seq<string>)
    requires Taken(num, f, text, items).None?
    ensures Default(f) == Absent && Taken(num, f, other, others) != Some(Absent)
  {
  }

  lemma MeaningIsNotAbsent(num: Numbers, f: Field, value: string, other: string)
    ensures Meaning(num, f, value).None? ==> Default(f) == Absent && Meaning(num, f, other) != Some(Absent)
  {
    if Meaning(num, f, value).None? {
      TakenIsNotAbsent(num, f, StripYamlQuotes(value), ParseYamlList(value),
                       StripYamlQuotes(other), ParseYamlList(other));
    }
  }

  lemma SaidIsMeaning(num: Numbers, f: Field, line: string) returns (value: string)
    ensures Said(num, line, f).None? || Said(num, line, f) == Meaning(num, f, value)
  {
    value := if Read(line).Some? then Read(line).value.1 else "";
  }

  /** A field that a value can leave as it was is never said to be absent. */
  lemma SaidIsNotAbsent(num: Numbers, f: Field, value: string, line: string)
    ensures Meaning(num, f, value).None? ==> Default(f) == Absent && Saying(num, f)(line) != Some(Absent)
  {
    var said := SaidIsMeaning(num, f, line);
    MeaningIsNotAbsent(num, f, value, said);
  }

  lemma WordIsNotAbsent(num: Numbers, f: Field, value: string, lines: seq<string>)
    ensures Meaning(num, f, value).None? ==> Default(f) == Absent && LastWord(Saying(num, f), lines) != Some(Absent)
  {
    WordOfItem(Saying(num, f), lines);
    SaidIsNotAbsent(num, f, value, "");
    forall i | 0 <= i < |lines|
      ensures Meaning(num, f, value).None? ==> Saying(num, f)(lines[i]) != Some(Absent)
    {
      SaidIsNotAbsent(num, f, value, lines[i]);
    }
  }

  /** No other line stands against a value: a later one says the same if anything, and
      for a value that says nothing no line says anything. */
  predicate Undisputed(later: Option<Value>, earlier: Option<Value>, meaning: Option<Value>) {
    if meaning.Some? then later.None? || later == meaning else later.None? && earlier.None?
  }

  lemma UndisputedIs(f: Field, later: Option<Value>, earlier: Option<Value>, meaning: Option<Value>)
    requires meaning.Some? || (Default(f) == Absent && later != Some(Absent) && earlier != Some(Absent))
    ensures Settled(Or(later, Or(meaning, earlier)), f) == Settled(meaning, f) <==> Undisputed(later, earlier, meaning)
  {
  }

  /** What is set is what is read exactly when no other line stands against it. */
  lemma ReadsBackExactly(num: Numbers, lines: seq<string>, f: Field, value: string)
    ensures ValueOf(num, Set(lines, f, value), f) ==
            Settled(Or(LaterWord(num, lines, f), Or(Meaning(num, f, value), EarlierWord(num, lines, f))), f)
    ensures ValueOf(num, Set(lines, f, value), f) == Settled(Meaning(num, f, value), f) <==>
            Undisputed(LaterWord(num, lines, f), EarlierWord(num, lines, f), Meaning(num, f, value))
  {
    EntrySays(num, f, value, f);
    LastWordOfPut(Saying(num, f), Hits(Key(f)), lines, Entry(Key(f), value));
    if Meaning(num, f, value).None? {
      WordIsNotAbsent(num, f, value, Below(Hits(Key(f)), lines));
      WordIsNotAbsent(num, f, value, Above(Hits(Key(f)), lines));
    }
    UndisputedIs(f, LaterWord(num, lines, f), EarlierWord(num, lines, f), Meaning(num, f, value));
  }

  /** A field that no two lines are about, under either spelling. */
  ghost predicate OnceAtMost(lines: seq<string>, f: Field) {
    forall i, j | 0 <= i < j < |lines| :: !(Mentions(lines[i], f) && Mentions(lines[j], f))
  }

  function About(f: Field): string -> bool {
    (line: string) => Mentions(line, f)
  }

  lemma LinesConcern(num: Numbers, f: Field)
    ensures Concerns(About(f), Saying(num, f), Hits(Key(f)))
  {
    forall line: string ensures Hits(Key(f))(line) ==> About(f)(line) {
      if Matches(line, Key(f)) { MatchIsRead(line, f); }
    }
    forall line: string ensures Saying(num, f)(line).Some? ==> About(f)(line) {
      SaidIsAbout(num, line, f);
    }
  }

  lemma SaidIsAbout(num: Numbers, line: string, f: Field)
    ensures Said(num, line, f).Some? ==> Mentions(line, f)
  {
  }

  lemma OnceAbout(lines: seq<string>, f: Field)
    requires OnceAtMost(lines, f)
    ensures OneAtMost(About(f), lines)
  {
    forall j, k | 0 <= j < k < |lines| ensures !(About(f)(lines[j]) && About(f)(lines[k])) {
      assert !(Mentions(lines[j], f) && Mentions(lines[k], f));
    }
  }

  lemma NoneBelow(num: Numbers, lines: seq<string>, f: Field)
    requires OnceAtMost(lines, f)
    ensures LaterWord(num, lines, f).None?
  {
    LinesConcern(num, f);
    OnceAbout(lines, f);
    SilentBelow(About(f), Saying(num, f), Hits(Key(f)), lines);
  }

  /** No line of the field in its other spelling says anything. */
  predicate OthersSilent(num: Numbers, lines: seq<string>, f: Field) {
    forall i | 0 <= i < |lines| :: Hits(Key(f))(lines[i]) || Saying(num, f)(lines[i]).None?
  }

  predicate Settable(num: Numbers, lines: seq<string>, f: Field, value: string) {
    Meaning(num, f, value).Some? || OthersSilent(num, lines, f)
  }

  lemma EarlierSilentExactly(num: Numbers, lines: seq<string>, f: Field)
    requires OnceAtMost(lines, f)
    ensures EarlierWord(num, lines, f).None? <==> OthersSilent(num, lines, f)
  {
    if OthersSilent(num, lines, f) {
      SilentAbove(Saying(num, f), Hits(Key(f)), lines);
    } else {
      var i :| 0 <= i < |lines| && !Hits(Key(f))(lines[i]) && Saying(num, f)(lines[i]).Some?;
      LinesConcern(num, f);
      OnceAbout(lines, f);
      SaidAbove(About(f), Saying(num, f), Hits(Key(f)), lines, i);
    }
  }

  /** For a field at most once in the lines, what is set is what is read exactly when the
      value says something or no line in the other spelling does. */
  lemma SetThenRead(num: Numbers, lines: seq<string>, f: Field, value: string)
    requires OnceAtMost(lines, f)
    ensures ValueOf(num, Set(lines, f, value), f) == Settled(Meaning(num, f, value), f) <==>
            Settable(num, lines, f, value)
  {
    ReadsBackExactly(num, lines, f, value);
    NoneBelow(num, lines, f);
    EarlierSilentExactly(num, lines, f);
  }

  const OTHER_MODE_KEY := "permission_mode"

  lemma OtherKeySpells()
    ensures Spells(OTHER_MODE_KEY, PermissionMode) && ':' !in OTHER_MODE_KEY
    ensures OTHER_MODE_KEY != "" && !IsWhitespace(OTHER_MODE_KEY[0])
  {
  }

  lemma OtherModeReads(mode: string)
    ensures Read(Entry(OTHER_MODE_KEY, mode)) == Some((PermissionMode, TrimEnd([' '] + mode)))
  {
    OtherKeySpells();
    EntryTrims(OTHER_MODE_KEY, mode);
    ReadsKeyed(Entry(OTHER_MODE_KEY, mode), OTHER_MODE_KEY, PermissionMode, TrimEnd([' '] + mode));
  }

  lemma ModeMeans(num: Numbers, mode: string)
    requires StripYamlQuotes(mode) == mode != ""
    ensures Meaning(num, PermissionMode, mode) == Some(Text(mode))
  {
  }

  lemma OtherModeSays(num: Numbers, mode: string)
    requires StripYamlQuotes(mode) == mode != ""
    ensures Saying(num, PermissionMode)(Entry(OTHER_MODE_KEY, mode)) == Some(Text(mode))
  {
    var value := TrimEnd([' '] + mode);
    OtherModeReads(mode);
    EntryValueTrims(mode);
    MeaningOfTrimmed(num, PermissionMode, value, mode);
    ModeMeans(num, mode);
    SaidOf(num, Entry(OTHER_MODE_KEY, mode), PermissionMode, value);
  }

  lemma SaidOf(num: Numbers, line: string, f: Field, value: string)
    ensures Read(line) == Some((f, value)) ==> Saying(num, f)(line) == Meaning(num, f, value)
  {
  }

  lemma OtherModeDoesNotMatch(mode: string)
    ensures !Hits(Key(PermissionMode))(Entry(OTHER_MODE_KEY, mode))
  {
    var line := Entry(OTHER_MODE_KEY, mode);
    assert line[0] == 'p' && line[10] == '_';
    assert TrimStart(line) == line && (Key(PermissionMode) + [':'])[10] == 'M';
  }

  lemma EmptyModeMeansNothing(num: Numbers)
    ensures Meaning(num, PermissionMode, "").None?
  {
    TrimOfTrimmed("");
  }

  /** An empty permission mode leaves one that is written in the other spelling. */
  lemma EmptyModeLeavesOther(num: Numbers, mode: string)
    requires BareEnds(mode) && mode != ""
    ensures Meaning(num, PermissionMode, "").None?
    ensures ValueOf(num, Set([Entry(OTHER_MODE_KEY, mode)], PermissionMode, ""), PermissionMode) == Text(mode)
  {
    var line, f := Entry(OTHER_MODE_KEY, mode), PermissionMode;
    BareEndsStay(mode);
    OtherModeSays(num, mode);
    OtherModeDoesNotMatch(mode);
    EmptyModeMeansNothing(num);
    EntrySays(num, f, "", f);
    LastWordOfAddedToOne(Saying(num, f), Hits(Key(f)), line, Entry(Key(f), ""));
  }

  /** Setting a field again undoes the first setting, line for line. */
  lemma SetTwice(lines: seq<string>, f: Field, value: string, other: string)
    ensures Set(Set(lines, f, value), f, other) == Set(lines, f, other)
  {
    KeysMatch(f, value);
    PutTwice(Hits(Key(f)), lines, Entry(Key(f), value), Entry(Key(f), other));
  }

  predicate HasLine(lines: seq<string>, f: Field) {
    Has(Hits(Key(f)), lines)
  }

  /** Settings of two fields give the same lines in either order exactly when one of
      the fields has a line already. */
  lemma SettingsCommuteExactly(lines: seq<string>, f: Field, value: string, g: Field, other: string)
    requires f != g
    ensures Set(Set(lines, f, value), g, other) == Set(Set(lines, g, other), f, value) <==>
            HasLine(lines, f) || HasLine(lines, g)
  {
    KeysMatch(f, value);
    KeysMatch(g, other);
    KeysUnlike(f, g);
    PutsCommuteExactly(Hits(Key(f)), Hits(Key(g)), lines, Entry(Key(f), value), Entry(Key(g), other));
  }

  /** What is read is the same in either order, for every field. */
  lemma SettingsCommuteInMeaning(num: Numbers, lines: seq<string>, f: Field, value: string, g: Field, other: string,
      h: Field)
    requires f != g
    ensures ValueOf(num, Set(Set(lines, f, value), g, other), h) == ValueOf(num, Set(Set(lines, g, other), f, value), h)
  {
    KeysMatch(f, value);
    KeysMatch(g, other);
    KeysUnlike(f, g);
    EntrySays(num, f, value, h);
    EntrySays(num, g, other, h);
    PutsCommuteInWord(Saying(num, h), Hits(Key(f)), Hits(Key(g)), lines, Entry(Key(f), value), Entry(Key(g), other));
  }
}
