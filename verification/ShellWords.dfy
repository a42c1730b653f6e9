/** Splitting a command's argument into words, with quotes and backslashes. */
module ShellWords {
  import opened Wrappers
  import opened Text

  /** Words so far, the word being read, the quote it is inside, and whether the
      last character was an escaping backslash. */
  datatype Progress = Progress(words: seq<string>, current: string, quote: Option<char>, escaped: bool)

  const START := Progress([], "", None, false)

  predicate IsQuote(c: char) {
    c == '"' || c == '\''
  }

  /** On Windows a backslash separates folders and escapes nothing. */
  predicate IsEscape(c: char, windows: bool) {
    c == '\\' && !windows
  }

  function Step(p: Progress, c: char, windows: bool): Progress {
    if p.escaped then p.(current := p.current + [c], escaped := false)
    else if IsEscape(c, windows) then p.(escaped := true)
    else match p.quote
      case Some(q) => if c == q then p.(quote := None) else p.(current := p.current + [c])
      case None =>
        if IsQuote(c) then p.(quote := Some(c))
        else if IsWhitespace(c) then
          (if p.current == "" then p else p.(words := p.words + [p.current], current := ""))
        else p.(current := p.current + [c])
  }

  function Run(p: Progress, input: string, windows: bool): Progress
    decreases |input|
  {
    if input == "" then p else Run(Step(p, input[0], windows), input[1..], windows)
  }

  function Finish(p: Progress): seq<string> {
    var last := if p.escaped then p.current + "\\" else p.current;
    if last == "" then p.words else p.words + [last]
  }

  function Words(input: string, windows: bool): seq<string> {
    Finish(Run(START, input, windows))
  }

  method SplitShellWords(input: string, windows: bool) returns (words: seq<string>)
    ensures words == Words(input, windows)
  {
    words := [];
    var current := "";
    var quote: Option<char> := None;
    var escaped := false;
    for i := 0 to |input|
      invariant Run(START, input, windows) == Run(Progress(words, current, quote, escaped), input[i..], windows)
    {
      var c := input[i];
      assert input[i..][1..] == input[i + 1..];
      if escaped {
        current := current + [c];
        escaped := false;
        continue;
      }
      if c == '\\' && !windows {
        escaped := true;
        continue;
      }
      match quote {
        case Some(q) =>
          if c == q {
            quote := None;
          } else {
            current := current + [c];
          }
        case None =>
          if c == '"' || c == '\'' {
            quote := Some(c);
          } else if IsWhitespace(c) {
            if current != "" {
              words := words + [current];
              current := "";
            }
          } else {
            current := current + [c];
          }
      }
    }
    if escaped {
      current := current + "\\";
    }
    if current != "" {
      words := words + [current];
    }
  }

  // ----- Ways to write a word -----

  /** One stretch of a written word: a character as it stands, a character behind
      a backslash, or characters between a pair of quotes. */
  datatype Segment = Bare(c: char) | Escaped(c: char) | Quoted(quote: char, inside: seq<Inner>)

  datatype Inner = Plain(c: char) | Backslashed(c: char)

  predicate Writable(s: Segment, windows: bool) {
    match s
    case Bare(c) => !IsWhitespace(c) && !IsQuote(c) && !IsEscape(c, windows)
    case Escaped(_) => !windows
    case Quoted(q, inside) =>
      IsQuote(q) && forall i | 0 <= i < |inside| ::
        if inside[i].Plain? then inside[i].c != q && !IsEscape(inside[i].c, windows) else !windows
  }

  function InnerText(inside: seq<Inner>): string {
    if inside == [] then ""
    else (if inside[0].Plain? then [inside[0].c] else ['\\', inside[0].c]) + InnerText(inside[1..])
  }

  function InnerContent(inside: seq<Inner>): string {
    if inside == [] then "" else [inside[0].c] + InnerContent(inside[1..])
  }

  function SegmentText(s: Segment): string {
    match s
    case Bare(c) => [c]
    case Escaped(c) => ['\\', c]
    case Quoted(q, inside) => [q] + (InnerText(inside) + [q])
  }

  function SegmentContent(s: Segment): string {
    match s
    case Quoted(_, inside) => InnerContent(inside)
    case _ => [s.c]
  }

  type Written = seq<Segment>

  function WordText(w: Written): string {
    if w == [] then "" else SegmentText(w[0]) + WordText(w[1..])
  }

  function WordContent(w: Written): string {
    if w == [] then "" else SegmentContent(w[0]) + WordContent(w[1..])
  }

  predicate WritableWord(w: Written, windows: bool) {
    forall i | 0 <= i < |w| :: Writable(w[i], windows)
  }

  /** A line of written words, each followed by white space. */
  datatype Item = Item(word: Written, space: string)

  function LineText(items: seq<Item>): string {
    if items == [] then "" else WordText(items[0].word) + (items[0].space + LineText(items[1..]))
  }

  /** The words a line stands for. A pair of quotes around nothing is no word. */
  function LineWords(items: seq<Item>): seq<string> {
    if items == [] then []
    else
      var content, later := WordContent(items[0].word), LineWords(items[1..]);
      if content == "" then later else [content] + later
  }

  // ----- Splitting inverts writing -----

  lemma {:induction false} RunSum(p: Progress, a: string, b: string, windows: bool)
    ensures Run(p, a + b, windows) == Run(Run(p, a, windows), b, windows)
    decreases |a|
  {
    if a == "" {
      assert a + b == b;
    } else {
      assert (a + b)[1..] == a[1..] + b;
      RunSum(Step(p, a[0], windows), a[1..], b, windows);
    }
  }

  lemma RunOne(p: Progress, c: char, windows: bool)
    ensures Run(p, [c], windows) == Step(p, c, windows)
  {
    assert [c][1..] == "";
  }

  lemma RunTwo(p: Progress, c: char, d: char, windows: bool)
    ensures Run(p, [c, d], windows) == Step(Step(p, c, windows), d, windows)
  {
    assert [c, d][1..] == [d];
    RunOne(Step(p, c, windows), d, windows);
  }

  lemma {:induction false} RunInside(p: Progress, inside: seq<Inner>, windows: bool)
    requires p.quote.Some? && !p.escaped && Writable(Quoted(p.quote.value, inside), windows)
    ensures Run(p, InnerText(inside), windows) == p.(current := p.current + InnerContent(inside))
    decreases |inside|
  {
    if inside == [] {
      assert p.current + InnerContent(inside) == p.current;
    } else {
      var c := inside[0].c;
      var next := p.(current := p.current + [c]);
      var text := if inside[0].Plain? then [c] else ['\\', c];
      RunOne(p, c, windows);
      RunTwo(p, '\\', c, windows);
      RunSum(p, text, InnerText(inside[1..]), windows);
      RunInside(next, inside[1..], windows);
      Brackets(p.current, [c], InnerContent(inside[1..]));
    }
  }

  lemma RunSegment(p: Progress, s: Segment, windows: bool)
    requires p.quote.None? && !p.escaped && Writable(s, windows)
    ensures Run(p, SegmentText(s), windows) == p.(current := p.current + SegmentContent(s))
  {
    match s
    case Bare(c) => RunOne(p, c, windows);
    case Escaped(c) => RunTwo(p, '\\', c, windows);
    case Quoted(q, inside) =>
      var open := p.(quote := Some(q));
      RunOne(p, q, windows);
      RunSum(p, [q], InnerText(inside) + [q], windows);
      RunSum(open, InnerText(inside), [q], windows);
      RunInside(open, inside, windows);
      RunOne(open.(current := p.current + InnerContent(inside)), q, windows);
  }

  lemma {:induction false} RunWord(p: Progress, w: Written, windows: bool)
    requires p.quote.None? && !p.escaped && WritableWord(w, windows)
    ensures Run(p, WordText(w), windows) == p.(current := p.current + WordContent(w))
    decreases |w|
  {
    if w == [] {
      assert p.current + WordContent(w) == p.current;
    } else {
      RunSegment(p, w[0], windows);
      RunSum(p, SegmentText(w[0]), WordText(w[1..]), windows);
      RunWord(p.(current := p.current + SegmentContent(w[0])), w[1..], windows);
      Brackets(p.current, SegmentContent(w[0]), WordContent(w[1..]));
    }
  }

  lemma {:induction false} RunSpace(p: Progress, space: string, windows: bool)
    requires p.quote.None? && !p.escaped
    requires forall i | 0 <= i < |space| :: IsWhitespace(space[i])
    ensures Run(p, space, windows) ==
            if space == "" || p.current == "" then p else p.(words := p.words + [p.current], current := "")
    decreases |space|
  {
    if space == "" {
    } else {
      RunSpace(Step(p, space[0], windows), space[1..], windows);
    }
  }

  ghost predicate WellSpaced(items: seq<Item>, windows: bool) {
    forall i | 0 <= i < |items| ::
      && WritableWord(items[i].word, windows)
      && (forall k | 0 <= k < |items[i].space| :: IsWhitespace(items[i].space[k]))
      && (i < |items| - 1 ==> items[i].space != "")
  }

  function Between(words: seq<string>, current: string): Progress {
    Progress(words, current, None, false)
  }

  function AddWord(words: seq<string>, content: string): seq<string> {
    if content == "" then words else words + [content]
  }

  lemma RunItem(words: seq<string>, word: Written, space: string, windows: bool)
    requires WritableWord(word, windows)
    requires forall i | 0 <= i < |space| :: IsWhitespace(space[i])
    ensures Run(Between(words, ""), WordText(word) + space, windows) ==
            if space == "" then Between(words, WordContent(word)) else Between(AddWord(words, WordContent(word)), "")
  {
    RunSum(Between(words, ""), WordText(word), space, windows);
    RunWord(Between(words, ""), word, windows);
    assert "" + WordContent(word) == WordContent(word);
    RunSpace(Between(words, WordContent(word)), space, windows);
  }

  lemma {:induction false} RunLine(words: seq<string>, items: seq<Item>, windows: bool)
    requires WellSpaced(items, windows)
    ensures Finish(Run(Between(words, ""), LineText(items), windows)) == words + LineWords(items)
    decreases |items|
  {
    if items == [] {
    } else {
      var word, space, content := items[0].word, items[0].space, WordContent(items[0].word);
      var later := LineText(items[1..]);
      RunItem(words, word, space, windows);
      Brackets(WordText(word), space, later);
      RunSum(Between(words, ""), WordText(word) + space, later, windows);
      if space == "" {
        assert |items| == 1;
      } else {
        RunLine(AddWord(words, content), items[1..], windows);
        Brackets(words, [content], LineWords(items[1..]));
      }
    }
  }

  /** However words are quoted, escaped and spaced, splitting gives back the words. */
  lemma SplitInvertsWriting(items: seq<Item>, windows: bool)
    requires WellSpaced(items, windows)
    ensures Words(LineText(items), windows) == LineWords(items)
  {
    RunLine([], items, windows);
    assert [] + LineWords(items) == LineWords(items);
  }

  // ----- Backslashes everywhere -----

  function Escape(word: string): string {
    if word == "" then "" else ['\\', word[0]] + Escape(word[1..])
  }

  lemma {:induction false} EscapeIsWriting(word: string)
    ensures var w := Map(c => Escaped(c), word);
            WordText(w) == Escape(word) && WordContent(w) == word
  {
    var w := Map(c => Escaped(c), word);
    if word == "" {
    } else {
      EscapeIsWriting(word[1..]);
      assert w[1..] == Map(c => Escaped(c), word[1..]);
    }
  }

  function EscapedItems(words: seq<string>): seq<Item> {
    if words == [] then []
    else [Item(Map(c => Escaped(c), words[0]), if |words| == 1 then "" else " ")] + EscapedItems(words[1..])
  }

  lemma {:induction false} EscapedItemsText(words: seq<string>)
    ensures LineText(EscapedItems(words)) == Join(Map(Escape, words), " ")
  {
    if words == [] {
    } else {
      var items, later := EscapedItems(words), EscapedItems(words[1..]);
      EscapedItemsText(words[1..]);
      EscapeIsWriting(words[0]);
      Cons(items[0], later);
      assert words == [words[0]] + words[1..];
      MapCons(Escape, words[0], words[1..]);
      Cons(Escape(words[0]), Map(Escape, words[1..]));
      assert Escape(words[0]) + ("" + "") == Escape(words[0]);
      Brackets(Escape(words[0]), " ", LineText(later));
    }
  }

  lemma LineWordsCons(item: Item, later: seq<Item>)
    ensures LineWords([item] + later) ==
            if WordContent(item.word) == "" then LineWords(later) else [WordContent(item.word)] + LineWords(later)
  {
    Cons(item, later);
  }

  lemma {:induction false} EscapedItemsWords(words: seq<string>)
    requires forall i | 0 <= i < |words| :: words[i] != ""
    ensures LineWords(EscapedItems(words)) == words
  {
    if words == [] {
    } else {
      EscapedItemsWords(words[1..]);
      EscapeIsWriting(words[0]);
      LineWordsCons(EscapedItems(words)[0], EscapedItems(words[1..]));
      assert words == [words[0]] + words[1..];
    }
  }

  lemma {:induction false} EscapedItemsSpaced(words: seq<string>)
    ensures WellSpaced(EscapedItems(words), false) && |EscapedItems(words)| == |words|
  {
    if words == [] {
    } else {
      EscapedItemsSpaced(words[1..]);
      assert forall i | 0 < i < |words| :: EscapedItems(words)[i] == EscapedItems(words[1..])[i - 1];
    }
  }

  /** Escaping every character of non-empty words and joining them by spaces is undone. */
  lemma SplitInvertsEscaping(words: seq<string>)
    requires forall i | 0 <= i < |words| :: words[i] != ""
    ensures Words(Join(Map(Escape, words), " "), false) == words
  {
    EscapedItemsText(words);
    EscapedItemsWords(words);
    EscapedItemsSpaced(words);
    SplitInvertsWriting(EscapedItems(words), false);
  }

  // ----- Every input -----

  lemma {:induction false} RunKeepsWordsFull(p: Progress, input: string, windows: bool)
    requires forall i | 0 <= i < |p.words| :: p.words[i] != ""
    ensures forall i | 0 <= i < |Run(p, input, windows).words| :: Run(p, input, windows).words[i] != ""
    decreases |input|
  {
    if input == "" {
    } else {
      RunKeepsWordsFull(Step(p, input[0], windows), input[1..], windows);
    }
  }

  lemma NoEmptyWord(input: string, windows: bool)
    ensures forall i | 0 <= i < |Words(input, windows)| :: Words(input, windows)[i] != ""
  {
    RunKeepsWordsFull(START, input, windows);
  }

  lemma InkThenSpace(ink: string, rest: string)
    requires forall i | 0 <= i < |ink| :: !IsWhitespace(ink[i])
    requires rest == "" || IsWhitespace(rest[0])
    ensures SplitWhitespace(ink + rest) ==
            if ink == "" then SplitWhitespace(rest) else [ink] + SplitWhitespace(rest)
  {
    var s := ink + rest;
    if ink == "" {
      assert s == rest;
    } else {
      assert rest != "" ==> s[|ink|] == rest[0];
      assert forall i | 0 <= i < |ink| :: s[i] == ink[i];
      assert InkLength(s) == |ink|;
      assert s[..|ink|] == ink && s[|ink|..] == rest;
    }
  }

  lemma {:induction false} RunPlain(words: seq<string>, current: string, input: string, windows: bool)
    requires forall i | 0 <= i < |current| :: !IsWhitespace(current[i])
    requires forall i | 0 <= i < |input| :: !IsQuote(input[i]) && !IsEscape(input[i], windows)
    ensures Finish(Run(Progress(words, current, None, false), input, windows)) ==
            words + SplitWhitespace(current + input)
    decreases |input|
  {
    if input == "" {
      InkThenSpace(current, "");
    } else {
      var c, rest := input[0], input[1..];
      if IsWhitespace(c) {
        InkThenSpace(current, input);
        assert "" + rest == rest;
        if current == "" {
          RunPlain(words, "", rest, windows);
        } else {
          RunPlain(words + [current], "", rest, windows);
          Brackets(words, [current], SplitWhitespace(rest));
        }
      } else {
        RunPlain(words, current + [c], rest, windows);
        Brackets(current, [c], rest);
        assert [c] + rest == input;
      }
    }
  }

  /** Without quotes and escapes, words are what white space leaves apart. */
  lemma PlainSplitsAtSpaces(input: string, windows: bool)
    requires forall i | 0 <= i < |input| :: !IsQuote(input[i]) && !IsEscape(input[i], windows)
    ensures Words(input, windows) == SplitWhitespace(input)
  {
    RunPlain([], "", input, windows);
    assert "" + input == input && [] + SplitWhitespace(input) == SplitWhitespace(input);
  }

  // ----- Quotes -----

  /** No quote and no backslash in it. */
  predicate Unquoted(s: string) {
    '"' !in s && '\'' !in s && '\\' !in s
  }

  lemma {:induction false} RunQuoted(p: Progress, s: string, q: char, windows: bool)
    requires Unquoted(s) && (q == '"' || q == '\'') && p.quote == Some(q) && !p.escaped
    ensures Run(p, s, windows) == p.(current := p.current + s)
    decreases |s|
  {
    if s == "" {
      assert p.current + s == p.current;
    } else {
      assert s[0] in s && forall c <- s[1..] :: c in s;
      RunQuoted(Step(p, s[0], windows), s[1..], q, windows);
      assert p.current + s == p.current + [s[0]] + s[1..];
    }
  }

  /** A text in double or in single quotes is one word, spaces and all, and it is so too
      when the closing quote is missing. */
  lemma QuotedIsOneWord(s: string, windows: bool)
    requires Unquoted(s) && s != ""
    ensures Words("\"" + s + "\"", windows) == [s] && Words("'" + s + "'", windows) == [s]
    ensures Words("\"" + s, windows) == [s] && Words("'" + s, windows) == [s]
  {
    QuotedBy(s, '"', windows);
    QuotedBy(s, '\'', windows);
    assert "\"" == ['"'] && "'" == ['\''];
  }

  lemma QuotedBy(s: string, q: char, windows: bool)
    requires Unquoted(s) && s != "" && (q == '"' || q == '\'')
    ensures Words([q] + s + [q], windows) == [s] && Words([q] + s, windows) == [s]
  {
    var open := Step(START, q, windows);
    RunSum(START, [q], s, windows);
    RunSum(START, [q] + s, [q], windows);
    RunOne(START, q, windows);
    RunQuoted(open, s, q, windows);
    RunOne(Run(open, s, windows), q, windows);
    assert "" + s == s;
  }

  /** A backslash at the very end stands for itself. */
  lemma LastBackslashStays(s: string)
    requires Unquoted(s) && forall c <- s :: !IsWhitespace(c)
    ensures Words(s + "\\", false) == [s + "\\"]
  {
    RunSum(START, s, ['\\'], false);
    RunInk(START, s, false);
    RunOne(Run(START, s, false), '\\', false);
    assert "" + s == s && "\\" == ['\\'];
  }

  lemma {:induction false} RunInk(p: Progress, s: string, windows: bool)
    requires Unquoted(s) && (forall c <- s :: !IsWhitespace(c)) && p.quote.None? && !p.escaped
    ensures Run(p, s, windows) == p.(current := p.current + s)
    decreases |s|
  {
    if s == "" {
      assert p.current + s == p.current;
    } else {
      assert s[0] in s && forall c <- s[1..] :: c in s;
      RunInk(Step(p, s[0], windows), s[1..], windows);
      assert p.current + s == p.current + [s[0]] + s[1..];
    }
  }
}
