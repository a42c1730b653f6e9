/** The string operations several readers share, as the Rust standard library
    defines them. */
module Text {
  import opened Wrappers

  /** The characters with the Unicode property White_Space. */
  predicate IsWhitespace(c: char) {
    var n := c as int;
    || 9 <= n <= 13 || n == 32 || n == 0x85 || n == 0xA0 || n == 0x1680
    || 0x2000 <= n <= 0x200A || n == 0x2028 || n == 0x2029 || n == 0x202F || n == 0x205F || n == 0x3000
  }

  /** One by one. */
  lemma WhiteSpaceExactly(c: char)
    ensures IsWhitespace(c) <==> c in [
      '\U{9}', '\U{A}', '\U{B}', '\U{C}', '\U{D}', '\U{20}', '\U{85}', '\U{A0}', '\U{1680}', '\U{2000}',
      '\U{2001}', '\U{2002}', '\U{2003}', '\U{2004}', '\U{2005}', '\U{2006}', '\U{2007}', '\U{2008}', '\U{2009}',
      '\U{200A}', '\U{2028}', '\U{2029}', '\U{202F}', '\U{205F}', '\U{3000}']
  {
  }

  predicate Blank(s: string) {
    forall c <- s :: IsWhitespace(c)
  }

  function TrimStart(s: string): (r: string)
    ensures |r| <= |s| && r == s[|s| - |r|..] && Blank(s[..|s| - |r|])
    ensures r != [] ==> !IsWhitespace(r[0])
  {
    if s != [] && IsWhitespace(s[0]) then
      var r := TrimStart(s[1..]);
      assert s[..|s| - |r|] == [s[0]] + s[1..][..|s| - 1 - |r|];
      r
    else s
  }

  function TrimEnd(s: string): (r: string)
    ensures |r| <= |s| && r == s[..|r|] && Blank(s[|r|..])
    ensures r != [] ==> !IsWhitespace(r[|r| - 1])
  {
    if s != [] && IsWhitespace(s[|s| - 1]) then
      var r := TrimEnd(s[..|s| - 1]);
      assert s[|r|..] == s[..|s| - 1][|r|..] + [s[|s| - 1]];
      r
    else s
  }

  function Trim(s: string): string {
    TrimEnd(TrimStart(s))
  }

  /** Neither end of `s` is white space. */
  predicate Trimmed(s: string) {
    s == [] || (!IsWhitespace(s[0]) && !IsWhitespace(s[|s| - 1]))
  }

  lemma TrimOfTrimmed(s: string)
    requires Trimmed(s)
    ensures TrimStart(s) == s && TrimEnd(s) == s && Trim(s) == s
  {
  }

  lemma TrimIsTrimmed(s: string)
    ensures Trimmed(Trim(s))
  {
    var t := TrimStart(s);
    var r := TrimEnd(t);
    if r != [] { assert r[0] == t[0]; }
  }

  lemma {:induction false} TrimEndOfSum(s: string, t: string)
    requires s != "" && !IsWhitespace(s[|s| - 1])
    ensures TrimEnd(s + t) == s + TrimEnd(t)
    decreases |t|
  {
    if t == "" {
      assert s + t == s;
    } else {
      assert (s + t)[..|s + t| - 1] == s + t[..|t| - 1];
      TrimEndOfSum(s, t[..|t| - 1]);
    }
  }

  lemma {:induction false} TrimStartOfMore(s: string, c: char)
    requires IsWhitespace(c)
    ensures TrimStart(s + [c]) == if TrimStart(s) == "" then "" else TrimStart(s) + [c]
    decreases |s|
  {
    if s == "" {
      assert s + [c] == [c];
      assert [c][1..] == "";
    } else if !IsWhitespace(s[0]) {
    } else {
      assert (s + [c])[1..] == s[1..] + [c];
      TrimStartOfMore(s[1..], c);
    }
  }

  lemma TrimEndOfMore(s: string, c: char)
    requires IsWhitespace(c)
    ensures TrimEnd(s + [c]) == TrimEnd(s)
  {
    assert (s + [c])[..|s|] == s;
  }

  lemma TrimOfMore(s: string, c: char)
    requires IsWhitespace(c)
    ensures Trim(s + [c]) == Trim(s)
  {
    TrimStartOfMore(s, c);
    TrimEndOfMore(TrimStart(s), c);
  }

  lemma {:induction false} TrimOfTrimEnd(s: string)
    ensures Trim(TrimEnd(s)) == Trim(s)
    decreases |s|
  {
    if s == "" || !IsWhitespace(s[|s| - 1]) {
      TrimEndOfInk(s);
    } else {
      var t, c := UpToLast(s);
      TrimOfTrimEnd(t);
      TrimOfLonger(t, c);
    }
  }

  lemma TrimEndOfInk(s: string)
    requires s == "" || !IsWhitespace(s[|s| - 1])
    ensures TrimEnd(s) == s
  {
  }

  lemma UpToLast<T>(s: seq<T>) returns (t: seq<T>, c: T)
    requires s != []
    ensures s == t + [c] && c == s[|s| - 1] && |t| < |s|
  {
    t, c := s[..|s| - 1], s[|s| - 1];
  }

  lemma TrimStartOfSpaceAnd(s: string)
    ensures TrimStart([' '] + s) == TrimStart(s)
  {
    Cons(' ', s);
  }

  lemma TrimOfSpaceAnd(s: string)
    ensures Trim([' '] + s) == Trim(s)
  {
    TrimStartOfSpaceAnd(s);
  }

  lemma TrimOfTrimStart(s: string)
    ensures Trim(TrimStart(s)) == Trim(s)
  {
    assert TrimStart(TrimStart(s)) == TrimStart(s);
  }

  lemma TrimOfLonger(s: string, c: char)
    requires IsWhitespace(c)
    ensures Trim(TrimEnd(s)) == Trim(s) ==> Trim(TrimEnd(s + [c])) == Trim(s + [c])
  {
    TrimOfMore(s, c);
    TrimEndOfMore(s, c);
  }

  function LowerChar(c: char): char {
    if 'A' <= c <= 'Z' then (c as int + 32) as char else c
  }

  lemma LowerCharExactly(c: char, i: nat)
    requires i < 26
    ensures LowerChar("ABCDEFGHIJKLMNOPQRSTUVWXYZ"[i]) == "abcdefghijklmnopqrstuvwxyz"[i]
    ensures LowerChar(c) == c || c in "ABCDEFGHIJKLMNOPQRSTUVWXYZ"
  {
    if 'A' <= c <= 'Z' {
      var k := c as int - 'A' as int;
      assert "ABCDEFGHIJKLMNOPQRSTUVWXYZ"[k] == c;
    }
  }

  /** ASCII lower-casing. */
  function Lower(s: string): (r: string)
    ensures |r| == |s|
  {
    seq(|s|, i requires 0 <= i < |s| => LowerChar(s[i]))
  }

  function StripPrefix(s: string, prefix: string): Option<string> {
    if prefix <= s then Some(s[|prefix|..]) else None
  }

  predicate StartsWith(s: string, prefix: string) {
    prefix <= s
  }

  predicate EndsWith(s: string, suffix: string) {
    |suffix| <= |s| && s[|s| - |suffix|..] == suffix
  }

  /** The index of the first `c`, or the length of `s` when there is none. */
  function IndexOf(s: string, c: char): (i: nat)
    ensures i <= |s| && c !in s[..i]
    ensures i < |s| ==> s[i] == c
    ensures i == |s| <==> c !in s
  {
    if s == [] then 0
    else if s[0] == c then 0
    else
      var i := 1 + IndexOf(s[1..], c);
      assert s[..i] == [s[0]] + s[1..][..i - 1];
      i
  }

  lemma IndexOfFirst(before: string, c: char, after: string)
    requires c !in before
    ensures IndexOf(before + [c] + after, c) == |before|
  {
    var s := before + [c] + after;
    var i := IndexOf(s, c);
    assert s[|before|] == c && s[..|before|] == before;
    assert forall k | 0 <= k < i :: s[k] in s[..i];
    assert forall k | 0 <= k < |before| :: s[k] in before;
  }

  // ----- Numbers -----

  predicate IsDigits(s: string) {
    forall i | 0 <= i < |s| :: '0' <= s[i] <= '9'
  }

  function Decimal(n: nat): (digits: string)
    ensures digits != "" && IsDigits(digits)
  {
    if n < 10 then [(48 + n) as char] else Decimal(n / 10) + [(48 + n % 10) as char]
  }

  function DigitsValue(digits: string): nat
    requires IsDigits(digits)
  {
    if digits == "" then 0
    else DigitsValue(digits[..|digits| - 1]) * 10 + (digits[|digits| - 1] as int - 48)
  }

  lemma {:induction false} DecimalReads(n: nat)
    ensures DigitsValue(Decimal(n)) == n
  {
    if n >= 10 {
      DecimalReads(n / 10);
      assert Decimal(n)[..|Decimal(n)| - 1] == Decimal(n / 10);
    } else {
      assert Decimal(n)[..0] == "";
    }
  }

  // ----- Sequences -----

  function Map<T, U>(f: T -> U, xs: seq<T>): (ys: seq<U>)
    ensures |ys| == |xs|
  {
    seq(|xs|, i requires 0 <= i < |xs| => f(xs[i]))
  }

  lemma MapSum<T, U>(f: T -> U, xs: seq<T>, ys: seq<T>)
    ensures Map(f, xs + ys) == Map(f, xs) + Map(f, ys)
  {
  }

  lemma MapCons<T, U>(f: T -> U, x: T, ys: seq<T>)
    ensures Map(f, [x] + ys) == [f(x)] + Map(f, ys)
  {
  }

  lemma Cons<T>(x: T, xs: seq<T>)
    ensures ([x] + xs)[0] == x && ([x] + xs)[1..] == xs
  {
  }

  lemma SplitAt<T>(xs: seq<T>, n: nat)
    requires n < |xs|
    ensures xs == xs[..n] + ([xs[n]] + xs[n + 1..])
  {
  }

  lemma Brackets<T>(a: seq<T>, b: seq<T>, c: seq<T>)
    ensures (a + b) + c == a + (b + c)
  {
  }

  // ----- Joining and splitting -----

  function Join(parts: seq<string>, separator: string): string {
    if parts == [] then []
    else if |parts| == 1 then parts[0]
    else parts[0] + separator + Join(parts[1..], separator)
  }

  /** Splitting at every `c`: one more piece than there are separators. */
  function Split(s: string, c: char): (pieces: seq<string>)
    ensures |pieces| > 0
    decreases |s|
  {
    var i := IndexOf(s, c);
    if i == |s| then [s] else [s[..i]] + Split(s[i + 1..], c)
  }

  lemma {:induction false} SplitOfJoin(parts: seq<string>, c: char)
    requires parts != [] && forall i | 0 <= i < |parts| :: c !in parts[i]
    ensures Split(Join(parts, [c]), c) == parts
  {
    if |parts| <= 1 {
    } else {
      var later := Join(parts[1..], [c]);
      var s := Join(parts, [c]);
      assert s == parts[0] + [c] + later;
      IndexOfFirst(parts[0], c, later);
      assert s[..|parts[0]|] == parts[0] && s[|parts[0]| + 1..] == later;
      SplitOfJoin(parts[1..], c);
    }
  }

  function InkLength(s: string): (n: nat)
    ensures n <= |s|
    ensures forall i | 0 <= i < n :: !IsWhitespace(s[i])
    ensures n < |s| ==> IsWhitespace(s[n])
  {
    if s == "" || IsWhitespace(s[0]) then 0 else 1 + InkLength(s[1..])
  }

  /** The maximal stretches of `s` without white space. */
  function SplitWhitespace(s: string): seq<string>
    decreases |s|
  {
    if s == "" then []
    else if IsWhitespace(s[0]) then SplitWhitespace(s[1..])
    else [s[..InkLength(s)]] + SplitWhitespace(s[InkLength(s)..])
  }

  function StripCarriageReturn(line: string): string {
    if line != [] && line[|line| - 1] == '\r' then line[..|line| - 1] else line
  }

  /** Lines end at a line feed, before which one carriage return goes too; a last
      line without a line feed counts unless it is empty, and keeps its end. */
  function Lines(text: string): seq<string>
    decreases |text|
  {
    if text == [] then []
    else
      var i := IndexOf(text, '\n');
      if i == |text| then [text] else [StripCarriageReturn(text[..i])] + Lines(text[i + 1..])
  }

  /** A text with every line ended by a line feed. */
  function Unlines(lines: seq<string>): string {
    if lines == [] then [] else lines[0] + ['\n'] + Unlines(lines[1..])
  }

  predicate PlainLine(line: string) {
    '\n' !in line && (line == [] || line[|line| - 1] != '\r')
  }

  lemma {:induction false} LinesOfUnlines(lines: seq<string>)
    requires forall i | 0 <= i < |lines| :: PlainLine(lines[i])
    ensures Lines(Unlines(lines)) == lines
  {
    if lines == [] {
    } else {
      LinesOfUnlines(lines[1..]);
      FirstLine(lines[0], Unlines(lines[1..]));
      assert lines == [lines[0]] + lines[1..];
    }
  }

  lemma LinesStep(text: string, i: nat)
    requires i == IndexOf(text, '\n') < |text|
    ensures Lines(text) == [StripCarriageReturn(text[..i])] + Lines(text[i + 1..])
  {
  }

  lemma CutAtFirst(before: string, c: char, after: string)
    requires c !in before
    ensures var s := before + [c] + after;
      IndexOf(s, c) == |before| < |s| && s[..|before|] == before && s[|before| + 1..] == after
  {
    IndexOfFirst(before, c, after);
  }

  lemma FirstLine(line: string, later: string)
    requires PlainLine(line)
    ensures Lines(line + ['\n'] + later) == [line] + Lines(later)
  {
    CutAtFirst(line, '\n', later);
    LinesStep(line + ['\n'] + later, |line|);
  }

  /** The same when a last line has no line feed after it. */
  lemma {:induction false} LinesOfUnlinesAnd(lines: seq<string>, last: string)
    requires forall i | 0 <= i < |lines| :: PlainLine(lines[i])
    requires last != "" && '\n' !in last
    ensures Lines(Unlines(lines) + last) == lines + [last]
    decreases |lines|
  {
    if lines == [] {
      LastLine(last);
      assert Unlines(lines) + last == last;
      assert lines + [last] == [last];
    } else {
      LinesOfUnlinesAnd(lines[1..], last);
      Brackets(lines[0] + ['\n'], Unlines(lines[1..]), last);
      FirstLine(lines[0], Unlines(lines[1..]) + last);
      Brackets([lines[0]], lines[1..], [last]);
      assert lines == [lines[0]] + lines[1..];
    }
  }

  lemma LastLine(last: string)
    requires last != "" && '\n' !in last
    ensures Lines(last) == [last]
  {
  }

  lemma {:induction false} JoinIsUnlines(lines: seq<string>, last: string)
    ensures Join(lines + [last], "\n") == Unlines(lines) + last
    decreases |lines|
  {
    if lines == [] {
      assert lines + [last] == [last];
    } else {
      assert (lines + [last])[1..] == lines[1..] + [last];
      JoinIsUnlines(lines[1..], last);
      assert "\n" == ['\n'];
      Brackets(lines[0] + ['\n'], Unlines(lines[1..]), last);
    }
  }
}
