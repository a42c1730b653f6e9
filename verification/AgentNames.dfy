/** Names of agents: the slug a name becomes, and its way through the file. */
module AgentNames {
  import opened Wrappers
  import opened Text
  import opened YamlValues
  import opened Frontmatter
  import opened AgentFiles

  predicate IsLetterOrDigit(c: char) {
    'a' <= c <= 'z' || 'A' <= c <= 'Z' || '0' <= c <= '9'
  }

  predicate IsSlugChar(c: char) {
    c == '-' || 'a' <= c <= 'z' || '0' <= c <= '9'
  }

  predicate EndsInDash(s: string) {
    s != "" && s[|s| - 1] == '-'
  }

  /** Groups of lower-case letters and digits with one dash between them, and perhaps
      one at the end. */
  predicate IsSlugSoFar(s: string) {
    && (forall i | 0 <= i < |s| :: IsSlugChar(s[i]))
    && (forall i | 0 < i < |s| :: s[i - 1] == '-' ==> s[i] != '-')
    && (s == "" || s[0] != '-')
  }

  predicate IsSlug(s: string) {
    IsSlugSoFar(s) && !EndsInDash(s)
  }

  /** The letters and digits of a text, in lower case. */
  function LettersOf(s: string): string {
    if s == "" then ""
    else LettersOf(s[..|s| - 1]) + LetterOf(s[|s| - 1])
  }

  function LetterOf(c: char): string {
    if IsLetterOrDigit(c) then [LowerChar(c)] else ""
  }

  lemma LettersOfMore(s: string, c: char)
    ensures LettersOf(s + [c]) == LettersOf(s) + LetterOf(c)
  {
    assert (s + [c])[..|s|] == s;
  }

  predicate Separates(c: char) {
    c == '-' || c == '_' || c == ' ' || c == '/' || c == ':'
  }

  /** The slug so far after one character more. */
  function Grown(out: string, c: char): string {
    if IsLetterOrDigit(c) then out + [LowerChar(c)]
    else if Separates(c) && !EndsInDash(out) && out != "" then out + ['-']
    else out
  }

  lemma GrownIsSlug(out: string, c: char)
    requires IsSlugSoFar(out)
    ensures IsSlugSoFar(Grown(out, c))
  {
  }

  lemma GrownKeepsLetters(out: string, c: char)
    ensures LettersOf(Grown(out, c)) == LettersOf(out) + LetterOf(c)
  {
    LettersOfMore(out, LowerChar(c));
    LettersOfMore(out, '-');
  }

  /** A slug grows into itself. */
  lemma GrownOfSlug(s: string, i: nat)
    requires IsSlugSoFar(s) && i < |s|
    ensures Grown(s[..i], s[i]) == s[..i + 1]
  {
    assert s[..i + 1] == s[..i] + [s[i]];
    assert IsSlugChar(s[i]) && (i > 0 ==> s[..i][i - 1] == s[i - 1]);
  }

  function GrownFrom(s: string): string {
    if s == "" then "" else Grown(GrownFrom(s[..|s| - 1]), s[|s| - 1])
  }

  function WithoutEndDash(s: string): string
    decreases |s|
  {
    if EndsInDash(s) then WithoutEndDash(s[..|s| - 1]) else s
  }

  function Slug(name: string): string {
    WithoutEndDash(GrownFrom(Trim(name)))
  }

  method SlugifyAgentName(name: string) returns (out: string)
    ensures out == Slug(name)
  {
    out := "";
    var lastDash := false;
    var s := Trim(name);
    for i := 0 to |s|
      invariant out == GrownFrom(s[..i]) && lastDash == EndsInDash(out)
    {
      assert s[..i + 1][..i] == s[..i];
      if IsLetterOrDigit(s[i]) {
        out := out + [LowerChar(s[i])];
        lastDash := false;
      } else if Separates(s[i]) && !lastDash && out != "" {
        out := out + ['-'];
        lastDash := true;
      }
    }
    assert s[..|s|] == s;
    while EndsInDash(out)
      invariant WithoutEndDash(out) == Slug(name)
      decreases |out|
    {
      out := out[..|out| - 1];
    }
  }

  lemma {:induction false} GrownFromIsSlug(s: string)
    ensures IsSlugSoFar(GrownFrom(s)) && LettersOf(GrownFrom(s)) == LettersOf(s)
  {
    if s == "" {
    } else {
      var init, last := s[..|s| - 1], s[|s| - 1];
      GrownFromIsSlug(init);
      GrownIsSlug(GrownFrom(init), last);
      GrownKeepsLetters(GrownFrom(init), last);
    }
  }

  lemma {:induction false} GrownFromSlug(s: string)
    requires IsSlugSoFar(s)
    ensures GrownFrom(s) == s
  {
    if s == "" {
    } else {
      var n := |s| - 1;
      GrownFromSlug(s[..n]);
      GrownOfSlug(s, n);
      assert s[..n + 1] == s;
    }
  }

  lemma {:induction false} DashesGo(s: string)
    requires IsSlugSoFar(s)
    ensures IsSlug(WithoutEndDash(s)) && LettersOf(WithoutEndDash(s)) == LettersOf(s)
    decreases |s|
  {
    if !EndsInDash(s) {
    } else {
      DashesGo(s[..|s| - 1]);
    }
  }

  /** What a name becomes is a slug, with the letters and digits of the name in their
      order and nothing else but dashes; and what is a slug already stays. */
  lemma SlugIsSlug(name: string)
    ensures IsSlug(Slug(name)) && LettersOf(Slug(name)) == LettersOf(Trim(name))
    ensures IsSlug(name) ==> Slug(name) == name
  {
    GrownFromIsSlug(Trim(name));
    DashesGo(GrownFrom(Trim(name)));
    if IsSlug(name) {
      SlugIsTrimmed(name);
      GrownFromSlug(name);
    }
  }

  // ----- The slug of words with gaps between -----

  /** A word, and what stands behind it before the next one. */
  datatype Part = Part(word: string, gap: string)

  /** An ASCII letter or digit. */
  predicate Alphanumeric(c: char) {
    var n := c as int;
    48 <= n <= 57 || 65 <= n <= 90 || 97 <= n <= 122
  }

  predicate HasSeparator(gap: string) {
    exists i | 0 <= i < |gap| :: gap[i] in ['-', '_', ' ', '/', ':']
  }

  predicate ProperPart(p: Part) {
    && p.word != "" && (forall i | 0 <= i < |p.word| :: Alphanumeric(p.word[i]))
    && forall i | 0 <= i < |p.gap| :: !Alphanumeric(p.gap[i])
  }

  predicate ProperParts(parts: seq<Part>) {
    forall i | 0 <= i < |parts| :: ProperPart(parts[i])
  }

  function TextOfParts(parts: seq<Part>): string {
    if parts == [] then ""
    else (TextOfParts(parts[..|parts| - 1]) + parts[|parts| - 1].word) + parts[|parts| - 1].gap
  }

  /** The words in lower case, with one dash where the gap has a separator in it. */
  function Dashed(parts: seq<Part>): string {
    if parts == [] then ""
    else (Dashed(parts[..|parts| - 1]) + Lower(parts[|parts| - 1].word))
         + if HasSeparator(parts[|parts| - 1].gap) then ['-'] else []
  }

  lemma LetterIsAlphanumeric(c: char)
    ensures IsLetterOrDigit(c) <==> Alphanumeric(c)
    ensures Alphanumeric(c) ==> LowerChar(c) != '-'
  {
  }

  lemma GrownByOne(before: string, s: string, c: char)
    ensures GrownFrom(before + (s + [c])) == Grown(GrownFrom(before + s), c)
  {
    assert (before + (s + [c]))[..|before + (s + [c])| - 1] == before + s;
  }

  lemma LowerOfMore(s: string, c: char)
    ensures Lower(s + [c]) == Lower(s) + [LowerChar(c)]
  {
  }

  lemma {:induction false} GrownByWord(before: string, word: string)
    requires forall i | 0 <= i < |word| :: Alphanumeric(word[i])
    ensures GrownFrom(before + word) == GrownFrom(before) + Lower(word)
    decreases |word|
  {
    if word == "" {
      assert before + word == before;
    } else {
      var init, last := UpToLast(word);
      assert forall i | 0 <= i < |init| :: init[i] == word[i];
      GrownByWord(before, init);
      GrownByOne(before, init, last);
      LetterIsAlphanumeric(last);
      LowerOfMore(init, last);
      Brackets(GrownFrom(before), Lower(init), [LowerChar(last)]);
    }
  }

  lemma GrownWordEnds(before: string, word: string)
    requires word != "" && forall i | 0 <= i < |word| :: Alphanumeric(word[i])
    ensures GrownFrom(before + word) != "" && !EndsInDash(GrownFrom(before + word))
  {
    GrownByWord(before, word);
    LetterIsAlphanumeric(word[|word| - 1]);
  }

  lemma SeparatorOfMore(gap: string, c: char)
    ensures HasSeparator(gap + [c]) <==> HasSeparator(gap) || Separates(c)
  {
    if HasSeparator(gap) {
      var i :| 0 <= i < |gap| && gap[i] in ['-', '_', ' ', '/', ':'];
      assert (gap + [c])[i] == gap[i];
    }
    if Separates(c) { assert (gap + [c])[|gap|] == c; }
  }

  lemma {:induction false} GrownByGap(before: string, gap: string)
    requires forall i | 0 <= i < |gap| :: !Alphanumeric(gap[i])
    requires GrownFrom(before) != "" && !EndsInDash(GrownFrom(before))
    ensures GrownFrom(before + gap) == GrownFrom(before) + if HasSeparator(gap) then ['-'] else []
    decreases |gap|
  {
    if gap == "" {
      assert before + gap == before;
    } else {
      var init, last := UpToLast(gap);
      assert forall i | 0 <= i < |init| :: init[i] == gap[i];
      GrownByGap(before, init);
      SeparatorOfMore(init, last);
      LetterIsAlphanumeric(last);
      GrownByOne(before, init, last);
    }
  }

  lemma {:induction false} GrownFromParts(parts: seq<Part>)
    requires ProperParts(parts)
    ensures GrownFrom(TextOfParts(parts)) == Dashed(parts)
    decreases |parts|
  {
    if parts == [] {
    } else {
      var init, last := UpToLast(parts);
      assert parts[..|parts| - 1] == init && ProperPart(parts[|parts| - 1]);
      GrownFromParts(init);
      GrownByWord(TextOfParts(init), last.word);
      GrownWordEnds(TextOfParts(init), last.word);
      GrownByGap(TextOfParts(init) + last.word, last.gap);
    }
  }

  lemma {:induction false} PartsAreTrimmed(parts: seq<Part>)
    requires ProperParts(parts) && parts != [] && parts[|parts| - 1].gap == ""
    ensures Trimmed(TextOfParts(parts))
  {
    FirstIsAlphanumeric(parts);
    var init, last := UpToLast(parts);
    assert ProperPart(parts[|parts| - 1]);
    var text := TextOfParts(parts);
    assert text == TextOfParts(init) + last.word;
    assert Alphanumeric(last.word[|last.word| - 1]);
  }

  lemma {:induction false} FirstIsAlphanumeric(parts: seq<Part>)
    requires ProperParts(parts) && parts != []
    ensures TextOfParts(parts) != "" && Alphanumeric(TextOfParts(parts)[0])
    decreases |parts|
  {
    assert ProperPart(parts[|parts| - 1]);
    if |parts| == 1 {
      assert parts[..0] == [];
    } else {
      FirstIsAlphanumeric(parts[..|parts| - 1]);
    }
  }

  lemma DashedEndsInWord(parts: seq<Part>, last: Part)
    requires parts != [] && last == parts[|parts| - 1] && ProperPart(last) && last.gap == ""
    ensures !EndsInDash(Dashed(parts))
  {
    var n := |last.word| - 1;
    LetterIsAlphanumeric(last.word[n]);
    assert !HasSeparator("");
    assert Dashed(parts) == Dashed(parts[..|parts| - 1]) + Lower(last.word);
    assert Lower(last.word)[n] == LowerChar(last.word[n]);
  }

  /** A name of words becomes the words in lower case, with a dash between two of them
      exactly when a hyphen, an underscore, a space, a slash or a colon stands there. */
  lemma SlugOfWords(parts: seq<Part>)
    requires ProperParts(parts) && parts != [] && parts[|parts| - 1].gap == ""
    ensures Slug(TextOfParts(parts)) == Dashed(parts)
  {
    PartsAreTrimmed(parts);
    TrimOfTrimmed(TextOfParts(parts));
    GrownFromParts(parts);
    DashedEndsInWord(parts, parts[|parts| - 1]);
  }

  lemma SlugIsTrimmed(s: string)
    requires IsSlug(s)
    ensures Trim(s) == s
  {
    if s != "" {
      assert IsSlugChar(s[0]) && IsSlugChar(s[|s| - 1]);
    }
    TrimOfTrimmed(s);
  }

  lemma SlugIsPlain(s: string)
    requires IsSlug(s)
    ensures BareEnds(s) && PlainLine(s)
  {
    if s != "" {
      assert IsSlugChar(s[0]) && IsSlugChar(s[|s| - 1]);
    }
    forall i | 0 <= i < |s| ensures s[i] != '\n' {
      assert IsSlugChar(s[i]);
    }
  }

  lemma MeaningOfName(num: Numbers, value: string)
    requires StripYamlQuotes(value) == value != ""
    ensures Found(Settled(Meaning(num, Name, value), Name), Name) == Value.Text(value)
  {
  }

  /** A renamed file reads back under the slug of its new name. */
  lemma NameReadsBack(num: Numbers, file: File, name: string)
    requires FieldLines(file.lines) && HasText(file.lines) && OnceAtMost(file.lines, Name)
    requires Slug(name) != ""
    ensures Edited(Render(file), Name, Slug(name)).Ok?
    ensures Parsed(num, Edited(Render(file), Name, Slug(name)).value).name == Slug(name)
  {
    var slug := Slug(name);
    SlugIsSlug(name);
    SlugIsPlain(slug);
    BareEndsStay(slug);
    EditThenParse(num, file, Name, slug, Name);
    MeaningOfName(num, slug);
  }
}
