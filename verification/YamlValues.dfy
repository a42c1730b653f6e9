/** The values of an agent file: how the editor writes them and the reader takes them. */
module YamlValues {
  import opened Wrappers
  import opened Text

  // ----- Reading -----

  function TrimStartChar(s: string, c: char): (r: string)
    ensures |r| <= |s| && r == s[|s| - |r|..] && (r == [] || r[0] != c)
    ensures s == [] || s[0] != c ==> r == s
  {
    if s != [] && s[0] == c then TrimStartChar(s[1..], c) else s
  }

  function TrimEndChar(s: string, c: char): (r: string)
    ensures |r| <= |s| && r == s[..|r|] && (r == [] || r[|r| - 1] != c)
    ensures s == [] || s[|s| - 1] != c ==> r == s
  {
    if s != [] && s[|s| - 1] == c then TrimEndChar(s[..|s| - 1], c) else s
  }

  function TrimChar(s: string, c: char): string {
    TrimEndChar(TrimStartChar(s, c), c)
  }

  predicate EndsFreeOf(s: string, c: char) {
    s == [] || (s[0] != c && s[|s| - 1] != c)
  }

  lemma TrimCharEnds(s: string, c: char)
    ensures EndsFreeOf(TrimChar(s, c), c)
    ensures EndsFreeOf(s, c) ==> TrimChar(s, c) == s
  {
    var t := TrimStartChar(s, c);
    var r := TrimEndChar(t, c);
    if r != [] { assert r[0] == t[0]; }
  }

  function StripYamlQuotes(val: string): string {
    TrimChar(TrimChar(Trim(val), '"'), '\'')
  }

  /** A text without white space or quotes at its ends. */
  predicate BareEnds(s: string) {
    Trimmed(s) && EndsFreeOf(s, '"') && EndsFreeOf(s, '\'')
  }

  lemma BareEndsStay(s: string)
    requires BareEnds(s)
    ensures StripYamlQuotes(s) == s
  {
    TrimOfTrimmed(s);
    TrimCharEnds(s, '"');
    TrimCharEnds(s, '\'');
  }

  function Unbracketed(s: string): string {
    if |s| >= 2 && s[0] == '[' && s[|s| - 1] == ']' then s[1..|s| - 1] else s
  }

  function NonEmpty(items: seq<string>): seq<string> {
    if items == [] then []
    else if items[0] == "" then NonEmpty(items[1..])
    else [items[0]] + NonEmpty(items[1..])
  }

  function ParseYamlList(val: string): seq<string> {
    NonEmpty(Map(StripYamlQuotes, Split(Unbracketed(Trim(val)), ',')))
  }

  /** Only what stands between the outer white space counts. */
  lemma TrimDecides(val: string, other: string)
    requires Trim(val) == Trim(other)
    ensures StripYamlQuotes(val) == StripYamlQuotes(other) && ParseYamlList(val) == ParseYamlList(other)
  {
  }

  // ----- Writing -----

  const HEX_DIGITS := "0123456789abcdef"

  function Hex(n: nat): (s: string)
    ensures forall c <- s :: c in HEX_DIGITS
  {
    (if n < 16 then "" else Hex(n / 16)) + [HEX_DIGITS[n % 16]]
  }

  /** The letter that stands for a character behind a backslash. */
  function EscapeLetter(c: char): Option<char> {
    match c
    case '\0' => Some('0')
    case '\t' => Some('t')
    case '\r' => Some('r')
    case '\n' => Some('n')
    case '"' => Some('"')
    case '\\' => Some('\\')
    case _ => None
  }

  function UnicodeEscape(c: char): (s: string)
    ensures |s| >= 2 && s[0] == '\\' && s[|s| - 1] == '}' && '\n' !in s && '\r' !in s && ',' !in s
  {
    "\\u{" + Hex(c as nat) + "}"
  }

  /** A character as Rust's debug form of a string shows it; `printable` says which
      characters need no escape. */
  function EscapeChar(c: char, printable: char -> bool): (s: string)
    ensures s == [c] || (|s| >= 2 && s[0] == '\\' && s[|s| - 1] != '\'')
    ensures s[|s| - 1] == '"' ==> s == ['\\', '"'] && c == '"'
    ensures '\n' !in s && '\r' !in s && (c != ',' ==> ',' !in s)
  {
    if EscapeLetter(c).Some? then ['\\', EscapeLetter(c).value]
    else if printable(c) then [c]
    else UnicodeEscape(c)
  }

  function Escaped(s: string, printable: char -> bool): string {
    if s == "" then "" else EscapeChar(s[0], printable) + Escaped(s[1..], printable)
  }

  function Debug(s: string, printable: char -> bool): string {
    ['"'] + (Escaped(s, printable) + ['"'])
  }

  /** A text that the debug form shows as it is. */
  predicate Unescaped(s: string, printable: char -> bool) {
    forall c <- s :: EscapeChar(c, printable) == [c]
  }

  lemma {:induction false} EscapedLength(s: string, printable: char -> bool)
    ensures |Escaped(s, printable)| >= |s|
    ensures |Escaped(s, printable)| == |s| <==> Unescaped(s, printable)
    ensures Unescaped(s, printable) ==> Escaped(s, printable) == s
  {
    if s == "" {
    } else {
      EscapedLength(s[1..], printable);
      assert s == [s[0]] + s[1..];
    }
  }

  lemma {:induction false} EscapedSum(s: string, t: string, printable: char -> bool)
    ensures Escaped(s + t, printable) == Escaped(s, printable) + Escaped(t, printable)
  {
    if s == "" {
      assert s + t == t;
    } else {
      assert (s + t)[1..] == s[1..] + t;
      EscapedSum(s[1..], t, printable);
    }
  }

  lemma {:induction false} EscapedIsOneLine(s: string, printable: char -> bool)
    ensures '\n' !in Escaped(s, printable) && '\r' !in Escaped(s, printable)
    ensures ',' !in s ==> ',' !in Escaped(s, printable)
  {
    if s == "" {
    } else {
      EscapedIsOneLine(s[1..], printable);
      assert s == [s[0]] + s[1..];
    }
  }

  /** The first and the last character of an escaped text. */
  lemma EscapedEnds(s: string, printable: char -> bool)
    requires s != ""
    ensures var e := Escaped(s, printable);
      && e != ""
      && (e[0] == s[0] || e[0] == '\\') && e[0] != '"'
      && e == Escaped(s[..|s| - 1], printable) + EscapeChar(s[|s| - 1], printable)
      && (e[|e| - 1] == '\'' ==> s[|s| - 1] == '\'')
  {
    var init, last := s[..|s| - 1], s[|s| - 1];
    assert s == init + [last];
    EscapedSum(init, [last], printable);
    assert [last][1..] == "";
    assert Escaped([last], printable) == EscapeChar(last, printable) + Escaped("", printable);
  }

  // ----- Reading what was written -----

  lemma FirstGoes(c: char, s: string)
    requires s != "" && s[0] != c
    ensures TrimStartChar([c] + s, c) == s
  {
    Cons(c, s);
  }

  lemma LastGoes(s: string, c: char)
    ensures TrimEndChar(s + [c], c) == TrimEndChar(s, c)
  {
    assert (s + [c])[..|s|] == s;
  }

  lemma BothGo(c: char)
    ensures TrimChar([c] + ("" + [c]), c) == ""
  {
    assert [c] + ("" + [c]) == [c] + [c];
    Cons(c, [c]);
    Cons(c, "");
  }

  lemma QuotesStripped(e: string)
    requires e == "" || e[0] != '"'
    ensures TrimChar(['"'] + (e + ['"']), '"') == TrimEndChar(e, '"')
  {
    if e == "" {
      BothGo('"');
    } else {
      assert (e + ['"'])[0] == e[0];
      FirstGoes('"', e + ['"']);
      LastGoes(e, '"');
    }
  }

  /** What is known of an escaped text `e` of `s` without looking at it further. */
  predicate EscapesTo(s: string, e: string, unescaped: bool) {
    && |e| >= |s| && (|e| == |s| <==> unescaped) && (unescaped ==> e == s) && (s == "" ==> unescaped)
    && (s != "" ==>
          && e[0] != '"' && (e[0] == s[0] || e[0] == '\\')
          && (e[|e| - 1] == '\'' ==> s[|s| - 1] == '\'')
          && (e[|e| - 1] == '"' ==> |e| >= 2 && e[|e| - 2] == '\\' && s[|s| - 1] == '"' && !unescaped))
  }

  lemma EscapedEscapes(s: string, printable: char -> bool)
    ensures EscapesTo(s, Escaped(s, printable), Unescaped(s, printable))
  {
    EscapedLength(s, printable);
    if s != "" {
      EscapedEnds(s, printable);
      assert s[|s| - 1] in s;
    }
  }

  lemma LastQuoteGoes(e: string)
    ensures e == "" || e[|e| - 1] != '"' ==> TrimEndChar(e, '"') == e
    ensures |e| >= 2 && e[|e| - 1] == '"' && e[|e| - 2] == '\\' ==> TrimEndChar(e, '"') == e[..|e| - 1]
  {
  }

  /** The comparison alone: `d` is the escaped text less its last quote, and `r` is
      `d` less its single quotes. */
  lemma SameExactly(s: string, e: string, unescaped: bool, d: string, r: string)
    requires EscapesTo(s, e, unescaped)
    requires d == if e != "" && e[|e| - 1] == '"' then e[..|e| - 1] else e
    requires EndsFreeOf(r, '\'') && (EndsFreeOf(d, '\'') ==> r == d)
    ensures r == s <==> unescaped && EndsFreeOf(s, '\'')
  {
    if s != "" && EndsFreeOf(s, '\'') {
      assert d != "" && d[0] == e[0];
    }
  }

  lemma EscapesReadBack(s: string, e: string, unescaped: bool)
    requires EscapesTo(s, e, unescaped)
    ensures TrimChar(TrimEndChar(e, '"'), '\'') == s <==> unescaped && EndsFreeOf(s, '\'')
  {
    var d := if e != "" && e[|e| - 1] == '"' then e[..|e| - 1] else e;
    LastQuoteGoes(e);
    TrimCharEnds(d, '\'');
    SameExactly(s, e, unescaped, d, TrimChar(d, '\''));
  }

  /** A quoted text reads back as it was exactly when nothing in it is escaped and it
      neither starts nor ends with a single quote. */
  lemma DebugReadsBackExactly(s: string, printable: char -> bool)
    ensures StripYamlQuotes(Debug(s, printable)) == s <==> Unescaped(s, printable) && EndsFreeOf(s, '\'')
  {
    TrimOfTrimmed(Debug(s, printable));
    EscapedEscapes(s, printable);
    QuotesStripped(Escaped(s, printable));
    EscapesReadBack(s, Escaped(s, printable), Unescaped(s, printable));
  }

  // ----- Lists -----

  /** What the editor takes from a comma-separated value. */
  function ItemsOf(value: string): seq<string> {
    NonEmpty(Map(Trim, Split(value, ',')))
  }

  function WrittenList(items: seq<string>, printable: char -> bool): string {
    ['['] + (Join(DebugAll(items, printable), ", ") + [']'])
  }

  predicate ListItems(items: seq<string>) {
    forall item <- items :: item != "" && ',' !in item
  }

  lemma {:induction false} SplitPieces(s: string, c: char)
    ensures forall piece <- Split(s, c) :: c !in piece
    decreases |s|
  {
    var i := IndexOf(s, c);
    if i == |s| {
      assert Split(s, c) == [s];
    } else {
      SplitPieces(s[i + 1..], c);
      assert Split(s, c) == [s[..i]] + Split(s[i + 1..], c);
    }
  }

  lemma {:induction false} NonEmptyKeeps(items: seq<string>)
    ensures forall item :: item in NonEmpty(items) <==> item in items && item != ""
  {
    if items == [] {
    } else {
      NonEmptyKeeps(items[1..]);
      assert items == [items[0]] + items[1..];
    }
  }

  lemma {:induction false} NonEmptyLength(items: seq<string>)
    ensures |NonEmpty(items)| <= |items|
    ensures |NonEmpty(items)| == |items| ==> NonEmpty(items) == items
    ensures (forall item <- items :: item != "") ==> NonEmpty(items) == items
  {
    if items == [] {
    } else {
      NonEmptyLength(items[1..]);
      assert items == [items[0]] + items[1..] && items[0] in items;
      assert forall item <- items[1..] :: item in items;
    }
  }

  lemma TrimKeepsOut(s: string, c: char)
    requires c !in s
    ensures c !in Trim(s)
  {
    var t := TrimStart(s);
    var r := TrimEnd(t);
    assert forall x <- t :: x in s;
    assert forall x <- r :: x in t;
  }

  /** The items of a value have no comma and are not empty. */
  lemma ItemsAreListItems(value: string)
    ensures ListItems(ItemsOf(value))
  {
    var pieces := Split(value, ',');
    SplitPieces(value, ',');
    NonEmptyKeeps(Map(Trim, pieces));
    forall item <- ItemsOf(value) ensures item != "" && ',' !in item {
      var i :| 0 <= i < |pieces| && item == Map(Trim, pieces)[i];
      TrimKeepsOut(pieces[i], ',');
    }
  }

  /** The pieces with `lead` before the first and a space before each other. */
  function Spaced(pieces: seq<string>, lead: string): seq<string> {
    if pieces == [] then [] else [lead + pieces[0]] + Spaced(pieces[1..], " ")
  }

  lemma CutAtComma(s: string, before: string, after: string)
    requires s == before + ([','] + after) && ',' !in before
    ensures Split(s, ',') == [before] + Split(after, ',')
  {
    Brackets(before, [','], after);
    IndexOfFirst(before, ',', after);
    assert s[..|before|] == before && s[|before| + 1..] == after;
  }

  lemma {:induction false} SplitOfSpaced(pieces: seq<string>, lead: string)
    requires pieces != [] && ',' !in lead && forall piece <- pieces :: ',' !in piece
    ensures Split(lead + Join(pieces, ", "), ',') == Spaced(pieces, lead)
    decreases |pieces|
  {
    var s := lead + Join(pieces, ", ");
    if |pieces| == 1 {
      assert s == lead + pieces[0] && ',' !in s;
      assert Spaced(pieces[1..], " ") == [];
    } else {
      var later := Join(pieces[1..], ", ");
      assert s == (lead + pieces[0]) + ([','] + (" " + later));
      CutAtComma(s, lead + pieces[0], " " + later);
      SplitOfSpaced(pieces[1..], " ");
    }
  }

  lemma StripAfterSpace(s: string)
    ensures StripYamlQuotes(" " + s) == StripYamlQuotes(s) && StripYamlQuotes("" + s) == StripYamlQuotes(s)
  {
    Cons(' ', s);
    assert " " + s == [' '] + s && "" + s == s;
    assert Trim(" " + s) == Trim(s);
  }

  /** A reading to which a leading space makes no difference. */
  ghost predicate SkipsSpace(f: string -> string) {
    forall s: string :: f(" " + s) == f(s)
  }

  lemma {:induction false} MapOfSpaced(f: string -> string, pieces: seq<string>, lead: string)
    requires SkipsSpace(f) && (lead == "" || lead == " ")
    ensures Map(f, Spaced(pieces, lead)) == Map(f, pieces)
    decreases |pieces|
  {
    if pieces == [] {
    } else {
      assert "" + pieces[0] == pieces[0];
      MapOfSpaced(f, pieces[1..], " ");
      MapCons(f, lead + pieces[0], Spaced(pieces[1..], " "));
      MapCons(f, pieces[0], pieces[1..]);
      assert pieces == [pieces[0]] + pieces[1..];
    }
  }

  lemma MapOfSplit(f: string -> string, pieces: seq<string>)
    requires SkipsSpace(f) && forall piece <- pieces :: ',' !in piece
    requires f("") == ""
    ensures NonEmpty(Map(f, Split(Join(pieces, ", "), ','))) == NonEmpty(Map(f, pieces))
  {
    if pieces == [] {
      assert Split("", ',') == [""] && Map(f, [""]) == [""];
    } else {
      SplitOfSpaced(pieces, "");
      assert "" + Join(pieces, ", ") == Join(pieces, ", ");
      MapOfSpaced(f, pieces, "");
    }
  }

  function DebugAll(items: seq<string>, printable: char -> bool): seq<string> {
    Map((item: string) => Debug(item, printable), items)
  }

  lemma BracketsGo(inner: string)
    ensures Unbracketed(['['] + (inner + [']'])) == inner
    ensures Trimmed(['['] + (inner + [']']))
  {
  }

  lemma DebugHasNoComma(items: seq<string>, printable: char -> bool)
    requires ListItems(items)
    ensures forall piece <- DebugAll(items, printable) :: ',' !in piece
  {
    forall i | 0 <= i < |items| ensures ',' !in DebugAll(items, printable)[i] {
      assert items[i] in items;
      EscapedIsOneLine(items[i], printable);
    }
  }

  lemma ParseOfTrimmed(val: string)
    requires Trimmed(val)
    ensures ParseYamlList(val) == NonEmpty(Map(StripYamlQuotes, Split(Unbracketed(val), ',')))
  {
    TrimOfTrimmed(val);
  }

  /** A written list reads as its items, each less what its quotes lose. */
  lemma ListReads(items: seq<string>, printable: char -> bool)
    requires ListItems(items)
    ensures ParseYamlList(WrittenList(items, printable)) == NonEmpty(Map(StripYamlQuotes, DebugAll(items, printable)))
  {
    BracketsGo(Join(DebugAll(items, printable), ", "));
    ParseOfTrimmed(WrittenList(items, printable));
    DebugHasNoComma(items, printable);
    forall s: string ensures StripYamlQuotes(" " + s) == StripYamlQuotes(s) {
      StripAfterSpace(s);
    }
    MapOfSplit(StripYamlQuotes, DebugAll(items, printable));
  }

  // ----- Lists as people write them -----

  /** An item that needs no quotes. */
  predicate BareItem(item: string) {
    item != "" && BareEnds(item) && ',' !in item
  }

  predicate BareItems(items: seq<string>) {
    items != [] && forall item <- items :: BareItem(item)
  }

  function LastChar(s: string): char
    requires s != ""
  {
    s[|s| - 1]
  }

  lemma {:induction false} JoinHasLast(items: seq<string>, last: string)
    requires items != [] && last == items[|items| - 1] != ""
    ensures Join(items, ", ") != "" && LastChar(Join(items, ", ")) == LastChar(last)
    decreases |items|
  {
    if |items| == 1 {
    } else {
      JoinHasLast(items[1..], last);
      var later := Join(items[1..], ", ");
      assert Join(items, ", ") == (items[0] + ", ") + later;
    }
  }

  lemma JoinHasFirst(items: seq<string>, first: string)
    requires items != [] && first == items[0] != ""
    ensures Join(items, ", ") != "" && Join(items, ", ")[0] == first[0]
  {
  }

  lemma BareItemsStrip(items: seq<string>)
    requires BareItems(items)
    ensures NonEmpty(Map(StripYamlQuotes, Split(Join(items, ", "), ','))) == items
  {
    forall s: string ensures StripYamlQuotes(" " + s) == StripYamlQuotes(s) {
      StripAfterSpace(s);
    }
    MapOfSplit(StripYamlQuotes, items);
    forall i | 0 <= i < |items| ensures StripYamlQuotes(items[i]) == items[i] {
      assert items[i] in items;
      BareEndsStay(items[i]);
    }
    assert Map(StripYamlQuotes, items) == items;
    NonEmptyLength(items);
  }

  /** A list reads as its items with brackets around it, and without, unless its own ends
      are brackets. */
  lemma BareListReads(items: seq<string>, first: string, last: string)
    requires BareItems(items) && first == items[0] && last == items[|items| - 1]
    ensures first != "" && last != ""
    ensures ParseYamlList(['['] + (Join(items, ", ") + [']'])) == items
    ensures !(first[0] == '[' && LastChar(last) == ']') ==> ParseYamlList(Join(items, ", ")) == items
  {
    var s := Join(items, ", ");
    assert first in items && last in items;
    BareItemsStrip(items);
    BracketsGo(s);
    ParseOfTrimmed(['['] + (s + [']']));
    JoinHasFirst(items, first);
    JoinHasLast(items, last);
    ParseOfTrimmed(s);
  }

  lemma AllOrNothing(read: seq<string>, items: seq<string>)
    requires |read| == |items| && forall item <- items :: item != ""
    ensures NonEmpty(read) == items <==> forall i | 0 <= i < |items| :: read[i] == items[i]
  {
    NonEmptyLength(read);
    if forall i | 0 <= i < |items| :: read[i] == items[i] {
      assert read == items;
    }
  }

  predicate ReadsBack(item: string, printable: char -> bool) {
    Unescaped(item, printable) && EndsFreeOf(item, '\'')
  }

  lemma DebugAllReads(items: seq<string>, printable: char -> bool, i: nat)
    requires i < |items|
    ensures Map(StripYamlQuotes, DebugAll(items, printable))[i] == items[i] <==> ReadsBack(items[i], printable)
  {
    DebugReadsBackExactly(items[i], printable);
  }

  /** A written list reads back as it was exactly when each of its items does. */
  lemma ListReadsBackExactly(items: seq<string>, printable: char -> bool)
    requires ListItems(items)
    ensures ParseYamlList(WrittenList(items, printable)) == items <==>
            forall i | 0 <= i < |items| :: ReadsBack(items[i], printable)
  {
    var read := Map(StripYamlQuotes, DebugAll(items, printable));
    ListReads(items, printable);
    AllOrNothing(read, items);
    forall i | 0 <= i < |items| ensures read[i] == items[i] <==> ReadsBack(items[i], printable) {
      DebugAllReads(items, printable, i);
    }
  }
}
