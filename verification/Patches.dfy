/** The checks a patch passes before it is applied: which files git names, that no
    name climbs out of the project, and that no submodule pointer is moved. Paths
    are read as on Unix. */
module Patches {
  import opened Wrappers
  import opened Text
  import Utf8

  // ----- Names that climb -----

  datatype Component = Normal(name: string) | ParentDir | CurDir

  datatype Refusal = Absolute | Escapes

  function PieceComponents(piece: string, first: bool): seq<Component> {
    if piece == "" then []
    else if piece == "." then (if first then [CurDir] else [])
    else if piece == ".." then [ParentDir]
    else [Normal(piece)]
  }

  function ComponentsFrom(pieces: seq<string>, first: bool): seq<Component>
    decreases |pieces|
  {
    if pieces == [] then [] else PieceComponents(pieces[0], first) + ComponentsFrom(pieces[1..], false)
  }

  /** The components of a relative path: empty pieces and inner dots count for nothing. */
  function Components(name: string): seq<Component> {
    ComponentsFrom(Split(name, '/'), true)
  }

  predicate HasRoot(name: string) {
    name != "" && name[0] == '/'
  }

  function DepthAfter(cs: seq<Component>): int {
    if cs == [] then 0
    else
      DepthAfter(cs[..|cs| - 1]) +
      match cs[|cs| - 1] case Normal(_) => 1 case ParentDir => -1 case CurDir => 0
  }

  /** Walking components from a folder, itself a stack of names; above the top
      folder is the top folder again. */
  function Walk(folder: seq<string>, cs: seq<Component>): seq<string> {
    if cs == [] then folder
    else
      var at := Walk(folder, cs[..|cs| - 1]);
      match cs[|cs| - 1]
      case Normal(name) => at + [name]
      case ParentDir => if at == [] then [] else at[..|at| - 1]
      case CurDir => at
  }

  ghost predicate StaysInside(project: seq<string>, cs: seq<Component>) {
    forall k | 0 <= k <= |cs| :: project <= Walk(project, cs[..k])
  }

  ghost predicate NeverNegative(cs: seq<Component>) {
    forall k | 0 <= k <= |cs| :: DepthAfter(cs[..k]) >= 0
  }

  lemma {:induction false} WalkDepth(project: seq<string>, cs: seq<Component>)
    requires NeverNegative(cs)
    ensures project <= Walk(project, cs) && |Walk(project, cs)| == |project| + DepthAfter(cs)
  {
    if cs == [] {
    } else {
      var before := cs[..|cs| - 1];
      assert forall k | 0 <= k <= |before| :: before[..k] == cs[..k];
      WalkDepth(project, before);
      assert cs[..|cs|] == cs && DepthAfter(cs) >= 0;
    }
  }

  lemma PrefixesNeverNegative(cs: seq<Component>, n: nat)
    requires NeverNegative(cs) && n <= |cs|
    ensures NeverNegative(cs[..n])
  {
    assert forall k | 0 <= k <= n :: cs[..n][..k] == cs[..k];
  }

  lemma {:induction false} ClimbingLeaves(project: seq<string>, cs: seq<Component>)
    requires project != [] && StaysInside(project, cs)
    ensures NeverNegative(cs)
  {
    if cs == [] {
    } else {
      var n := |cs| - 1;
      assert forall k | 0 <= k <= n :: cs[..n][..k] == cs[..k];
      ClimbingLeaves(project, cs[..n]);
      WalkDepth(project, cs[..n]);
      assert cs[..|cs|] == cs;
      forall k | 0 <= k <= |cs| ensures DepthAfter(cs[..k]) >= 0 {
        if k <= n { assert cs[..n][..k] == cs[..k]; }
      }
    }
  }

  /** A walk from the project folder is inside it at every step exactly when the
      depth never falls below zero, which is when the name is let through. */
  lemma InsideExactly(project: seq<string>, cs: seq<Component>)
    requires project != []
    ensures StaysInside(project, cs) <==> NeverNegative(cs)
  {
    if NeverNegative(cs) {
      forall k | 0 <= k <= |cs| ensures project <= Walk(project, cs[..k]) {
        PrefixesNeverNegative(cs, k);
        WalkDepth(project, cs[..k]);
      }
    } else if StaysInside(project, cs) {
      ClimbingLeaves(project, cs);
    }
  }

  // ----- Where a name leads -----

  /** The folder one piece of a path leads to from a folder. */
  function Follow(at: seq<string>, piece: string): seq<string> {
    if piece == "" || piece == "." then at
    else if piece == ".." then (if at == [] then [] else at[..|at| - 1])
    else at + [piece]
  }

  function FollowAll(at: seq<string>, pieces: seq<string>): seq<string> {
    if pieces == [] then at else Follow(FollowAll(at, pieces[..|pieces| - 1]), pieces[|pieces| - 1])
  }

  /** Following a path from the project, piece by piece, never leaves it. */
  ghost predicate StaysWithin(project: seq<string>, pieces: seq<string>) {
    forall k | 0 <= k <= |pieces| :: project <= FollowAll(project, pieces[..k])
  }

  /** A path that does not start at the root. */
  predicate Relative(name: string) {
    name == "" || Split(name, '/')[0] != ""
  }

  /** A relative path that stays within whatever project it is followed from. */
  ghost predicate StaysBelow(name: string) {
    Relative(name) && forall project: seq<string> | project != [] :: StaysWithin(project, Split(name, '/'))
  }

  lemma RootedExactly(name: string)
    ensures HasRoot(name) <==> !Relative(name)
  {
  }

  lemma {:induction false} ComponentsOfMore(pieces: seq<string>, last: string, first: bool)
    ensures ComponentsFrom(pieces + [last], first) ==
            ComponentsFrom(pieces, first) + PieceComponents(last, first && pieces == [])
    decreases |pieces|
  {
    if pieces == [] {
      assert pieces + [last] == [last] && [last][1..] == [];
    } else {
      assert (pieces + [last])[1..] == pieces[1..] + [last];
      ComponentsOfMore(pieces[1..], last, false);
      Brackets(PieceComponents(pieces[0], first), ComponentsFrom(pieces[1..], false), PieceComponents(last, false));
    }
  }

  lemma InsideOneMore(project: seq<string>, cs: seq<Component>, c: Component)
    ensures StaysInside(project, cs + [c]) <==> StaysInside(project, cs) && project <= Walk(project, cs + [c])
  {
    var more := cs + [c];
    assert more[..|more|] == more;
    assert forall k | 0 <= k <= |cs| :: more[..k] == cs[..k];
  }

  lemma WithinOneMore(project: seq<string>, pieces: seq<string>, last: string)
    ensures StaysWithin(project, pieces + [last]) <==>
            StaysWithin(project, pieces) && project <= FollowAll(project, pieces + [last])
  {
    var more := pieces + [last];
    assert more[..|more|] == more;
    assert forall k | 0 <= k <= |pieces| :: more[..k] == pieces[..k];
  }

  lemma FollowsPiece(project: seq<string>, cs: seq<Component>, piece: string, first: bool)
    ensures Walk(project, cs + PieceComponents(piece, first)) == Follow(Walk(project, cs), piece)
    ensures StaysInside(project, cs + PieceComponents(piece, first)) <==>
            StaysInside(project, cs) && project <= Follow(Walk(project, cs), piece)
  {
    assert cs + [] == cs && cs[..|cs|] == cs;
    if PieceComponents(piece, first) != [] {
      var c := PieceComponents(piece, first)[0];
      assert PieceComponents(piece, first) == [c] && (cs + [c])[..|cs|] == cs;
      InsideOneMore(project, cs, c);
    }
  }

  /** Components lead where the pieces of the text do. */
  lemma {:induction false} ComponentsFollowPieces(project: seq<string>, pieces: seq<string>)
    ensures Walk(project, ComponentsFrom(pieces, true)) == FollowAll(project, pieces)
    ensures StaysInside(project, ComponentsFrom(pieces, true)) <==> StaysWithin(project, pieces)
    decreases |pieces|
  {
    if pieces == [] {
    } else {
      var init, last := UpToLast(pieces);
      ComponentsFollowPieces(project, init);
      ComponentsOfMore(init, last, true);
      FollowsPiece(project, ComponentsFrom(init, true), last, init == []);
      WithinOneMore(project, init, last);
    }
  }

  lemma StaysBelowExactly(name: string)
    ensures StaysBelow(name) <==> !HasRoot(name) && NeverNegative(Components(name))
  {
    RootedExactly(name);
    forall project: seq<string> | project != []
      ensures StaysWithin(project, Split(name, '/')) <==> NeverNegative(Components(name))
    {
      ComponentsFollowPieces(project, Split(name, '/'));
      InsideExactly(project, Components(name));
    }
    assert StaysBelow(name) ==> StaysWithin(["project"], Split(name, '/'));
  }

  lemma RefusedExactly(name: string)
    ensures HasRoot(name) <==> !Relative(name)
    ensures !HasRoot(name) ==> (StaysBelow(name) <==> NeverNegative(Components(name)))
    ensures HasRoot(name) ==> !StaysBelow(name)
  {
    RootedExactly(name);
    StaysBelowExactly(name);
  }

  /** Follows the depth of a path from component to component. */
  method FallsBelow(cs: seq<Component>) returns (falls: bool)
    ensures falls <==> !NeverNegative(cs)
  {
    var depth := 0;
    for i := 0 to |cs|
      invariant depth == DepthAfter(cs[..i])
      invariant forall k | 0 <= k <= i :: DepthAfter(cs[..k]) >= 0
    {
      assert cs[..i + 1][..i] == cs[..i];
      match cs[i] {
        case ParentDir => depth := depth - 1;
        case Normal(_) => depth := depth + 1;
        case CurDir =>
      }
      if depth < 0 {
        return true;
      }
    }
    falls := false;
  }

  /** A name is let through exactly when its text, piece by piece, leads nowhere
      outside the project. */
  method RefuseEscapingName(name: string) returns (r: Option<Refusal>)
    ensures r == Some(Absolute) <==> !Relative(name)
    ensures r.None? <==> StaysBelow(name)
  {
    RefusedExactly(name);
    if HasRoot(name) {
      return Some(Absolute);
    }
    var falls := FallsBelow(Components(name));
    r := if falls then Some(Escapes) else None;
  }

  // ----- Submodule pointers -----

  const GITLINK_MODE := "160000"

  const MODE_LINES := ["new file mode ", "deleted file mode ", "old mode ", "new mode "]

  predicate NamesGitlink(line: string) {
    || (exists i | 0 <= i < |MODE_LINES| :: line == MODE_LINES[i] + GITLINK_MODE)
    || (StartsWith(line, "index ") && |SplitWhitespace(line)| > 2 && SplitWhitespace(line)[2] == GITLINK_MODE)
  }

  /** What a line means to the scan. */
  datatype Line = DiffLine(text: string) | HunkLine | GitlinkLine | OtherLine

  function Read(raw: string): Line {
    var line := TrimEnd(raw);
    if StartsWith(line, "diff --git ") then DiffLine(line)
    else if StartsWith(line, "@@ ") then HunkLine
    else if NamesGitlink(line) then GitlinkLine
    else OtherLine
  }

  /** The header line `i` belongs to: the last `diff --git` line before it with no
      hunk since. */
  function HeaderAt(lines: seq<Line>, i: nat): Option<string>
    requires i <= |lines|
  {
    if i == 0 then None
    else match lines[i - 1]
      case DiffLine(text) => Some(text)
      case HunkLine => None
      case _ => HeaderAt(lines, i - 1)
  }

  /** A line that gives a file's header the mode of a submodule pointer. */
  predicate PointsAt(lines: seq<Line>, i: nat) {
    i < |lines| && lines[i].GitlinkLine? && HeaderAt(lines, i).Some?
  }

  ghost predicate FirstGitlink(lines: seq<Line>, r: Option<string>) {
    match r
    case None => forall i | 0 <= i < |lines| :: !PointsAt(lines, i)
    case Some(header) => exists i | 0 <= i < |lines| ::
      PointsAt(lines, i) && HeaderAt(lines, i) == Some(header) && forall j | 0 <= j < i :: !PointsAt(lines, j)
  }

  method GitlinkIn(patch: string) returns (r: Option<string>)
    ensures FirstGitlink(Map(Read, Lines(patch)), r)
  {
    r := ScanGitlink(Map(Read, Lines(patch)));
  }

  method ScanGitlink(lines: seq<Line>) returns (r: Option<string>)
    ensures FirstGitlink(lines, r)
  {
    var header: Option<string> := None;
    for i := 0 to |lines|
      invariant header == HeaderAt(lines, i)
      invariant forall j | 0 <= j < i :: !PointsAt(lines, j)
    {
      match lines[i] {
        case DiffLine(text) => header := Some(text);
        case HunkLine => header := None;
        case GitlinkLine =>
          if header.Some? {
            assert PointsAt(lines, i) && HeaderAt(lines, i) == header;
            return header;
          }
        case OtherLine =>
      }
    }
    r := None;
  }

  lemma FirstGitlinkIsUnique(lines: seq<Line>, r: Option<string>, s: Option<string>)
    requires FirstGitlink(lines, r) && FirstGitlink(lines, s)
    ensures r == s
  {
  }

  /** A file's part of a patch: its `diff --git` line, the rest of its header, and
      hunks, each a hunk line and a body. */
  datatype FilePart = FilePart(name: string, header: seq<Line>, hunks: seq<seq<Line>>)

  predicate Quiet(lines: seq<Line>) {
    forall i | 0 <= i < |lines| :: !lines[i].DiffLine? && !lines[i].HunkLine?
  }

  predicate WellFormed(parts: seq<FilePart>) {
    forall p | 0 <= p < |parts| ::
      Quiet(parts[p].header) && forall h | 0 <= h < |parts[p].hunks| :: Quiet(parts[p].hunks[h])
  }

  function HunkLines(hunks: seq<seq<Line>>): seq<Line> {
    if hunks == [] then [] else [HunkLine] + (hunks[0] + HunkLines(hunks[1..]))
  }

  function PatchLines(parts: seq<FilePart>): seq<Line> {
    if parts == [] then []
    else [DiffLine(parts[0].name)] + (parts[0].header + (HunkLines(parts[0].hunks) + PatchLines(parts[1..])))
  }

  /** The first file whose header, hunks apart, has a line of a submodule pointer. */
  function FirstPointer(parts: seq<FilePart>): Option<string> {
    if parts == [] then None
    else if GitlinkLine in parts[0].header then Some(parts[0].name)
    else FirstPointer(parts[1..])
  }

  /** The scan from a given header on, as the loop goes. */
  function ScanFrom(lines: seq<Line>, header: Option<string>): Option<string>
    decreases |lines|
  {
    if lines == [] then None
    else match lines[0]
      case DiffLine(text) => ScanFrom(lines[1..], Some(text))
      case HunkLine => ScanFrom(lines[1..], None)
      case GitlinkLine => if header.Some? then header else ScanFrom(lines[1..], header)
      case OtherLine => ScanFrom(lines[1..], header)
  }

  lemma {:induction false} ScanFindsFirst(lines: seq<Line>, i: nat)
    requires i <= |lines|
    ensures var r := ScanFrom(lines[i..], HeaderAt(lines, i));
      match r
      case None => forall j | i <= j < |lines| :: !PointsAt(lines, j)
      case Some(header) => exists k | i <= k < |lines| ::
        PointsAt(lines, k) && HeaderAt(lines, k) == Some(header) && forall j | i <= j < k :: !PointsAt(lines, j)
    decreases |lines| - i
  {
    if i >= |lines| {
    } else {
      assert lines[i..][1..] == lines[i + 1..];
      if !PointsAt(lines, i) {
        ScanFindsFirst(lines, i + 1);
      }
    }
  }

  lemma {:induction false} ScanQuiet(lines: seq<Line>, rest: seq<Line>, header: Option<string>)
    requires Quiet(lines)
    ensures ScanFrom(lines + rest, header) ==
            if header.Some? && GitlinkLine in lines then header else ScanFrom(rest, header)
    decreases |lines|
  {
    if lines == [] {
      assert lines + rest == rest;
    } else {
      assert (lines + rest)[1..] == lines[1..] + rest;
      assert lines == [lines[0]] + lines[1..];
      ScanQuiet(lines[1..], rest, header);
    }
  }

  lemma {:induction false} ScanHunks(hunks: seq<seq<Line>>, rest: seq<Line>, header: Option<string>)
    requires forall h | 0 <= h < |hunks| :: Quiet(hunks[h])
    ensures ScanFrom(HunkLines(hunks) + rest, header) == ScanFrom(rest, if hunks == [] then header else None)
    decreases |hunks|
  {
    if hunks == [] {
      assert HunkLines(hunks) + rest == rest;
    } else {
      var later := HunkLines(hunks[1..]);
      Brackets([HunkLine], hunks[0] + later, rest);
      Brackets(hunks[0], later, rest);
      Cons(HunkLine, hunks[0] + (later + rest));
      ScanQuiet(hunks[0], later + rest, None);
      ScanHunks(hunks[1..], rest, None);
    }
  }

  lemma {:induction false} ScanParts(parts: seq<FilePart>, header: Option<string>)
    requires WellFormed(parts)
    ensures ScanFrom(PatchLines(parts), header) == FirstPointer(parts)
    decreases |parts|
  {
    if parts == [] {
    } else {
      var part, later := parts[0], PatchLines(parts[1..]);
      Cons(DiffLine(part.name), part.header + (HunkLines(part.hunks) + later));
      ScanQuiet(part.header, HunkLines(part.hunks) + later, Some(part.name));
      ScanHunks(part.hunks, later, Some(part.name));
      ScanParts(parts[1..], if part.hunks == [] then Some(part.name) else None);
    }
  }

  /** In a well-formed patch the answer is the first file whose header says so;
      whatever the bodies of the hunks hold makes no difference. */
  lemma GitlinkOfPatch(parts: seq<FilePart>)
    requires WellFormed(parts)
    ensures FirstGitlink(PatchLines(parts), FirstPointer(parts))
  {
    var lines := PatchLines(parts);
    assert lines[0..] == lines;
    ScanFindsFirst(lines, 0);
    ScanParts(parts, None);
  }

  /** Content lines of a hunk start with a space, a sign or a backslash, and such a
      line is never taken for the start of a file or a hunk. */
  lemma ContentLineIsQuiet(raw: string)
    requires ContentLine(raw)
    ensures !Read(raw).DiffLine? && !Read(raw).HunkLine?
  {
    var line := TrimEnd(raw);
    if line != "" {
      assert line[0] == raw[0];
    }
  }

  /** Neither empty nor holding white space. */
  predicate Solid(s: string) {
    s != "" && forall i | 0 <= i < |s| :: !IsWhitespace(s[i])
  }

  lemma {:induction false} InkOfSolid(s: string, rest: string)
    requires (forall i | 0 <= i < |s| :: !IsWhitespace(s[i])) && (rest == "" || IsWhitespace(rest[0]))
    ensures InkLength(s + rest) == |s|
    decreases |s|
  {
    if s == "" {
      assert s + rest == rest;
    } else {
      assert (s + rest)[1..] == s[1..] + rest;
      InkOfSolid(s[1..], rest);
    }
  }

  lemma FirstWord(word: string, rest: string)
    requires Solid(word)
    ensures SplitWhitespace(word) == [word]
    ensures SplitWhitespace(word + ([' '] + rest)) == [word] + SplitWhitespace(rest)
  {
    InkOfSolid(word, "");
    assert word + "" == word && word[|word|..] == "";
    var s := word + ([' '] + rest);
    InkOfSolid(word, [' '] + rest);
    assert s[..|word|] == word && s[|word|..] == [' '] + rest && ([' '] + rest)[1..] == rest;
  }

  lemma ReadOfHeader(line: string)
    requires line != "" && !IsWhitespace(line[|line| - 1]) && line[0] in ['i', 'n', 'o', 'd']
    requires line[0] == 'd' ==> |line| > 1 && line[1] == 'e'
    ensures Read(line) == if NamesGitlink(line) then GitlinkLine else OtherLine
  {
    assert TrimEnd(line) == line;
    assert "diff --git "[1] == 'i' && "diff --git "[0] == 'd';
  }

  /** The hashes and the mode that an `index` line gives, and what a mode line gives: the
      mode of a submodule pointer is 160000. */
  lemma ModeIsRead(hashes: string, mode: string)
    requires Solid(hashes) && Solid(mode)
    ensures Read("index " + (hashes + ([' '] + mode))) == if mode == "160000" then GitlinkLine else OtherLine
    ensures Read("new file mode " + mode) == if mode == "160000" then GitlinkLine else OtherLine
    ensures Read("deleted file mode " + mode) == if mode == "160000" then GitlinkLine else OtherLine
    ensures Read("old mode " + mode) == if mode == "160000" then GitlinkLine else OtherLine
    ensures Read("new mode " + mode) == if mode == "160000" then GitlinkLine else OtherLine
  {
    IndexModeIsRead(hashes, mode);
    assert MODE_LINES == ["new file mode ", "deleted file mode ", "old mode ", "new mode "];
    ModeLineIsRead(0, mode);
    ModeLineIsRead(1, mode);
    ModeLineIsRead(2, mode);
    ModeLineIsRead(3, mode);
  }

  lemma ModeLinesApart(i: nat, j: nat)
    requires i < j < 4
    ensures |MODE_LINES[i]| > 4 && |MODE_LINES[j]| > 4
    ensures MODE_LINES[i][0] != MODE_LINES[j][0] || MODE_LINES[i][4] != MODE_LINES[j][4]
  {
  }

  lemma IndexWords(hashes: string, mode: string)
    requires Solid(hashes) && Solid(mode)
    ensures SplitWhitespace("index" + ([' '] + (hashes + ([' '] + mode)))) == ["index"] + ([hashes] + [mode])
  {
    FirstWord("index", hashes + ([' '] + mode));
    FirstWord(hashes, mode);
    FirstWord(mode, "");
  }

  lemma StartsWithoutMode(line: string)
    requires line != "" && line[0] == 'i'
    ensures forall i | 0 <= i < |MODE_LINES| :: line != MODE_LINES[i] + GITLINK_MODE
  {
  }

  lemma IndexModeIsRead(hashes: string, mode: string)
    requires Solid(hashes) && Solid(mode)
    ensures Read("index " + (hashes + ([' '] + mode))) == if mode == "160000" then GitlinkLine else OtherLine
  {
    var line := "index " + (hashes + ([' '] + mode));
    assert line == "index" + ([' '] + (hashes + ([' '] + mode)));
    IndexWords(hashes, mode);
    assert line[|line| - 1] == mode[|mode| - 1] && line[0] == 'i';
    StartsWithoutMode(line);
    ReadOfHeader(line);
    assert StartsWith(line, "index ");
    assert SplitWhitespace(line)[2] == mode;
  }

  lemma ModeLineNames(i: nat, mode: string)
    requires i < 4
    ensures NamesGitlink(MODE_LINES[i] + mode) <==> mode == "160000"
  {
    var line := MODE_LINES[i] + mode;
    assert line[0] == MODE_LINES[i][0] != 'i';
    assert line[|MODE_LINES[i]|..] == mode;
    forall j | 0 <= j < 4 && line == MODE_LINES[j] + GITLINK_MODE ensures mode == "160000" {
      assert line[0] == MODE_LINES[j][0] && line[4] == MODE_LINES[j][4] && line[4] == MODE_LINES[i][4];
      if i < j { ModeLinesApart(i, j); }
      if j < i { ModeLinesApart(j, i); }
    }
  }

  lemma ModeLineIsRead(i: nat, mode: string)
    requires i < 4 && Solid(mode)
    ensures Read(MODE_LINES[i] + mode) == if mode == "160000" then GitlinkLine else OtherLine
  {
    var line := MODE_LINES[i] + mode;
    assert line[|line| - 1] == mode[|mode| - 1] && line[0] == MODE_LINES[i][0] && line[1] == MODE_LINES[i][1];
    ReadOfHeader(line);
    ModeLineNames(i, mode);
  }

  // ----- The text of a patch -----

  datatype TextHunk = TextHunk(start: string, body: seq<string>)

  /** A file's part of a patch as lines of text. */
  datatype TextPart = TextPart(name: string, header: seq<string>, hunks: seq<TextHunk>)

  function HunkText(hunks: seq<TextHunk>): seq<string> {
    if hunks == [] then [] else [hunks[0].start] + (hunks[0].body + HunkText(hunks[1..]))
  }

  function PatchText(parts: seq<TextPart>): seq<string> {
    if parts == [] then []
    else [parts[0].name] + (parts[0].header + (HunkText(parts[0].hunks) + PatchText(parts[1..])))
  }

  /** A line of a hunk's body: content, or a remark that starts with a backslash. */
  predicate ContentLine(raw: string) {
    raw == "" || raw[0] == ' ' || raw[0] == '+' || raw[0] == '-' || raw[0] == '\\'
  }

  /** The line that starts the part of a file, and the one that starts a hunk. */
  predicate StartsFile(raw: string) {
    StartsWith(TrimEnd(raw), "diff --git ")
  }

  predicate StartsHunk(raw: string) {
    StartsWith(TrimEnd(raw), "@@ ")
  }

  lemma StartsAreRead(raw: string)
    ensures Read(raw).DiffLine? <==> StartsFile(raw)
    ensures Read(raw).HunkLine? <==> StartsHunk(raw)
  {
    if StartsHunk(raw) { assert TrimEnd(raw)[0] == '@' != "diff --git "[0]; }
  }

  predicate ProperHunk(h: TextHunk) {
    StartsHunk(h.start) && forall i | 0 <= i < |h.body| :: ContentLine(h.body[i])
  }

  predicate ProperPart(part: TextPart) {
    && StartsFile(part.name)
    && (forall i | 0 <= i < |part.header| :: !StartsFile(part.header[i]) && !StartsHunk(part.header[i]))
    && (forall h | 0 <= h < |part.hunks| :: ProperHunk(part.hunks[h]))
  }

  predicate Points(read: string -> Line, header: seq<string>) {
    exists i | 0 <= i < |header| :: read(header[i]) == GitlinkLine
  }

  /** The first file with a header line that names the mode of a submodule pointer. */
  function FirstPointing(parts: seq<TextPart>): Option<string> {
    if parts == [] then None
    else if Points(Read, parts[0].header) then Some(TrimEnd(parts[0].name))
    else FirstPointing(parts[1..])
  }

  function BodyLines(read: string -> Line, hunks: seq<TextHunk>): seq<seq<Line>> {
    if hunks == [] then [] else [Map(read, hunks[0].body)] + BodyLines(read, hunks[1..])
  }

  function PartLines(read: string -> Line, part: TextPart): FilePart {
    FilePart(TrimEnd(part.name), Map(read, part.header), BodyLines(read, part.hunks))
  }

  function AllPartLines(read: string -> Line, parts: seq<TextPart>): seq<FilePart> {
    if parts == [] then [] else [PartLines(read, parts[0])] + AllPartLines(read, parts[1..])
  }

  lemma {:induction false} HunkTextReads(read: string -> Line, hunks: seq<TextHunk>)
    requires forall h | 0 <= h < |hunks| :: read(hunks[h].start) == HunkLine
    ensures Map(read, HunkText(hunks)) == HunkLines(BodyLines(read, hunks))
  {
    if hunks == [] {
    } else {
      HunkTextReads(read, hunks[1..]);
      MapCons(read, hunks[0].start, hunks[0].body + HunkText(hunks[1..]));
      MapSum(read, hunks[0].body, HunkText(hunks[1..]));
      Cons(Map(read, hunks[0].body), BodyLines(read, hunks[1..]));
    }
  }

  /** The lines that start a file and its hunks are read as such. */
  predicate StartsRead(read: string -> Line, part: TextPart) {
    && read(part.name) == DiffLine(TrimEnd(part.name))
    && forall h | 0 <= h < |part.hunks| :: read(part.hunks[h].start) == HunkLine
  }

  lemma {:induction false} PatchTextReads(read: string -> Line, parts: seq<TextPart>)
    requires forall p | 0 <= p < |parts| :: StartsRead(read, parts[p])
    ensures Map(read, PatchText(parts)) == PatchLines(AllPartLines(read, parts))
  {
    if parts == [] {
    } else {
      var part, later := parts[0], PatchText(parts[1..]);
      PatchTextReads(read, parts[1..]);
      assert StartsRead(read, part);
      HunkTextReads(read, part.hunks);
      MapCons(read, part.name, part.header + (HunkText(part.hunks) + later));
      MapSum(read, part.header, HunkText(part.hunks) + later);
      MapSum(read, HunkText(part.hunks), later);
      Cons(PartLines(read, part), AllPartLines(read, parts[1..]));
    }
  }

  lemma {:induction false} BodiesAreQuiet(hunks: seq<TextHunk>)
    requires forall h | 0 <= h < |hunks| :: ProperHunk(hunks[h])
    ensures forall h | 0 <= h < |BodyLines(Read, hunks)| :: Quiet(BodyLines(Read, hunks)[h])
  {
    if hunks == [] {
    } else {
      BodiesAreQuiet(hunks[1..]);
      forall i | 0 <= i < |hunks[0].body|
        ensures !Map(Read, hunks[0].body)[i].DiffLine? && !Map(Read, hunks[0].body)[i].HunkLine?
      {
        assert ProperHunk(hunks[0]) && ContentLine(hunks[0].body[i]);
        ContentLineIsQuiet(hunks[0].body[i]);
      }
    }
  }

  lemma HeaderIsQuiet(part: TextPart)
    requires ProperPart(part)
    ensures forall i | 0 <= i < |Map(Read, part.header)| ::
      !Map(Read, part.header)[i].DiffLine? && !Map(Read, part.header)[i].HunkLine?
  {
    forall i | 0 <= i < |part.header| { StartsAreRead(part.header[i]); }
  }

  lemma {:induction false} ProperIsWellFormed(parts: seq<TextPart>)
    requires forall p | 0 <= p < |parts| :: ProperPart(parts[p])
    ensures WellFormed(AllPartLines(Read, parts))
  {
    if parts == [] {
    } else {
      ProperIsWellFormed(parts[1..]);
      BodiesAreQuiet(parts[0].hunks);
      HeaderIsQuiet(parts[0]);
    }
  }

  lemma PointsInMap(read: string -> Line, header: seq<string>)
    ensures GitlinkLine in Map(read, header) <==> Points(read, header)
  {
    if Points(read, header) {
      var i :| 0 <= i < |header| && read(header[i]) == GitlinkLine;
      assert Map(read, header)[i] == GitlinkLine;
    }
  }

  lemma {:induction false} FirstPointingIs(parts: seq<TextPart>)
    ensures FirstPointer(AllPartLines(Read, parts)) == FirstPointing(parts)
  {
    if parts == [] {
    } else {
      FirstPointingIs(parts[1..]);
      PointsInMap(Read, parts[0].header);
      Cons(PartLines(Read, parts[0]), AllPartLines(Read, parts[1..]));
    }
  }

  lemma ProperStartsRead(part: TextPart)
    requires ProperPart(part)
    ensures StartsRead(Read, part)
  {
    StartsAreRead(part.name);
    forall h | 0 <= h < |part.hunks| ensures Read(part.hunks[h].start) == HunkLine {
      assert ProperHunk(part.hunks[h]);
      StartsAreRead(part.hunks[h].start);
    }
  }

  lemma ProperReads(parts: seq<TextPart>)
    requires forall p | 0 <= p < |parts| :: ProperPart(parts[p])
    ensures Map(Read, PatchText(parts)) == PatchLines(AllPartLines(Read, parts))
  {
    forall p | 0 <= p < |parts| ensures StartsRead(Read, parts[p]) {
      ProperStartsRead(parts[p]);
    }
    PatchTextReads(Read, parts);
  }

  /** On the text of a proper patch the scan answers with the first file whose header
      names the mode of a submodule pointer, whatever its hunks hold. */
  lemma GitlinkOfText(parts: seq<TextPart>)
    requires forall p | 0 <= p < |parts| :: ProperPart(parts[p])
    requires forall i | 0 <= i < |PatchText(parts)| :: PlainLine(PatchText(parts)[i])
    ensures FirstGitlink(Map(Read, Lines(Unlines(PatchText(parts)))), FirstPointing(parts))
  {
    LinesOfUnlines(PatchText(parts));
    ProperReads(parts);
    ProperIsWellFormed(parts);
    FirstPointingIs(parts);
    GitlinkOfPatch(AllPartLines(Read, parts));
  }

  // ----- The names git lists -----

  type byte = Utf8.byte

  function IndexOfByte(bytes: seq<byte>, b: byte): (i: nat)
    ensures i <= |bytes| && b !in bytes[..i]
    ensures i < |bytes| ==> bytes[i] == b
  {
    if bytes == [] || bytes[0] == b then 0
    else
      var i := 1 + IndexOfByte(bytes[1..], b);
      assert bytes[..i] == [bytes[0]] + bytes[1..][..i - 1];
      i
  }

  /** Cutting at the first separator gives back what stands on either side of it. */
  lemma {:induction false} CutsAt(before: seq<byte>, b: byte, after: seq<byte>)
    requires b !in before
    ensures var s := before + ([b] + after);
      IndexOfByte(s, b) == |before| && s[..|before|] == before && s[|before| + 1..] == after
    decreases |before|
  {
    var s := before + ([b] + after);
    assert s[..|before|] == before && s[|before| + 1..] == after;
    if before == [] {
    } else {
      Brackets([before[0]], before[1..], [b] + after);
      assert before == [before[0]] + before[1..];
      Cons(before[0], before[1..] + ([b] + after));
      CutsAt(before[1..], b, after);
    }
  }

  /** The third field of a record, which runs to its end. */
  function RecordName(record: seq<byte>): Option<string> {
    var i := IndexOfByte(record, 9);
    if i == |record| then None
    else
      var rest := record[i + 1..];
      var j := IndexOfByte(rest, 9);
      if j == |rest| || rest[j + 1..] == [] then None else Utf8.Decode(rest[j + 1..])
  }

  function Prepend(name: Option<string>, later: Option<seq<string>>): Option<seq<string>> {
    if name.Some? && later.Some? then Some([name.value] + later.value) else None
  }

  /** The names of a listing whose records end in NUL, or nothing if one is unreadable. */
  function NumstatNames(listing: seq<byte>): Option<seq<string>>
    decreases |listing|
  {
    if listing == [] then Some([])
    else
      var i := IndexOfByte(listing, 0);
      var later := if i == |listing| then Some([]) else NumstatNames(listing[i + 1..]);
      if i == 0 then later else Prepend(RecordName(listing[..i]), later)
  }

  /** A change as git prints it: two counts without tabs, and a name. */
  datatype Change = Change(added: seq<byte>, deleted: seq<byte>, name: string)

  predicate Printable(c: Change) {
    && 9 !in c.added && 0 !in c.added && 9 !in c.deleted && 0 !in c.deleted
    && c.name != "" && 0 !in Utf8.Encode(c.name)
  }

  function RecordBytes(c: Change): seq<byte> {
    c.added + ([9] + (c.deleted + ([9] + Utf8.Encode(c.name))))
  }

  function Listing(cs: seq<Change>): seq<byte> {
    if cs == [] then [] else RecordBytes(cs[0]) + ([0] + Listing(cs[1..]))
  }

  lemma RecordReads(c: Change)
    requires Printable(c)
    ensures RecordName(RecordBytes(c)) == Some(c.name)
  {
    var name := Utf8.Encode(c.name);
    CutsAt(c.added, 9, c.deleted + ([9] + name));
    CutsAt(c.deleted, 9, name);
    NameReads(c.name);
  }

  lemma NameReads(name: string)
    requires name != ""
    ensures Utf8.Encode(name) != [] && Utf8.Decode(Utf8.Encode(name)) == Some(name)
  {
    Utf8.DecodeOfEncoded(name);
  }

  lemma RecordIsOne(c: Change)
    requires Printable(c)
    ensures RecordBytes(c) != [] && 0 !in RecordBytes(c)
  {
    NotInSum(c.added, [9] + (c.deleted + ([9] + Utf8.Encode(c.name))));
    NotInSum([9], c.deleted + ([9] + Utf8.Encode(c.name)));
    NotInSum(c.deleted, [9] + Utf8.Encode(c.name));
    NotInSum([9], Utf8.Encode(c.name));
  }

  lemma NotInSum(xs: seq<byte>, ys: seq<byte>)
    ensures 0 !in xs && 0 !in ys ==> 0 !in xs + ys
  {
  }

  lemma NumstatStep(listing: seq<byte>, i: nat)
    requires i == IndexOfByte(listing, 0) && 0 < i < |listing|
    ensures NumstatNames(listing) == Prepend(RecordName(listing[..i]), NumstatNames(listing[i + 1..]))
  {
  }

  lemma FirstRecordReads(record: seq<byte>, later: seq<byte>)
    requires record != [] && 0 !in record
    ensures NumstatNames(record + ([0] + later)) == Prepend(RecordName(record), NumstatNames(later))
  {
    CutsAt(record, 0, later);
    NumstatStep(record + ([0] + later), |record|);
  }

  lemma FirstChangeReads(c: Change, later: seq<byte>)
    requires Printable(c)
    ensures NumstatNames(RecordBytes(c) + ([0] + later)) == Prepend(Some(c.name), NumstatNames(later))
  {
    RecordReads(c);
    RecordIsOne(c);
    FirstRecordReads(RecordBytes(c), later);
  }

  function NamesOf(cs: seq<Change>): seq<string> {
    if cs == [] then [] else [cs[0].name] + NamesOf(cs[1..])
  }

  /** Empty records are skipped. */
  lemma EmptyRecordGoes(listing: seq<byte>, later: seq<byte>)
    requires listing == [0] + later
    ensures NumstatNames(listing) == NumstatNames(later)
  {
    assert listing[0] == 0 && listing[1..] == later;
  }

  /** The last record needs no end. */
  lemma LastRecord(record: seq<byte>)
    requires record != [] && 0 !in record
    ensures NumstatNames(record) == Prepend(RecordName(record), Some([]))
  {
    assert record[..|record|] == record;
  }

  lemma TabsAreNeeded(record: seq<byte>)
    requires 9 !in record
    ensures RecordName(record).None?
  {
  }

  /** A record with an empty name is unreadable. */
  lemma NameIsNeeded(added: seq<byte>, deleted: seq<byte>)
    requires 9 !in added && 9 !in deleted
    ensures RecordName(added + ([9] + (deleted + ([9] + [])))).None?
  {
    CutsAt(added, 9, deleted + ([9] + []));
    CutsAt(deleted, 9, []);
  }

  /** One record without tabs makes the listing unreadable. */
  lemma UnreadableWithoutTabs(record: seq<byte>, later: seq<byte>)
    requires record != [] && 0 !in record && 9 !in record
    ensures NumstatNames(record + ([0] + later)).None?
  {
    FirstRecordReads(record, later);
    TabsAreNeeded(record);
  }

  /** The names of a listing are read back, tabs in them included. */
  lemma {:induction false} ListingReads(cs: seq<Change>)
    requires forall i | 0 <= i < |cs| :: Printable(cs[i])
    ensures NumstatNames(Listing(cs)) == Some(NamesOf(cs))
  {
    if cs == [] {
    } else {
      ListingReads(cs[1..]);
      FirstChangeReads(cs[0], Listing(cs[1..]));
    }
  }

  // ----- The targets of a patch -----

  /** Each name once, where it first comes. */
  function Distinct(names: seq<string>): seq<string> {
    if names == [] then []
    else
      var before, last := Distinct(names[..|names| - 1]), names[|names| - 1];
      if last in before then before else before + [last]
  }

  lemma {:induction false} DistinctKeepsAll(names: seq<string>)
    ensures forall x :: x in Distinct(names) <==> x in names
    ensures forall i, j | 0 <= i < j < |Distinct(names)| :: Distinct(names)[i] != Distinct(names)[j]
  {
    if names == [] {
    } else {
      DistinctKeepsAll(names[..|names| - 1]);
      assert names == names[..|names| - 1] + [names[|names| - 1]];
    }
  }

  lemma DistinctStep(names: seq<string>, i: nat)
    requires i < |names|
    ensures var before := Distinct(names[..i]);
      Distinct(names[..i + 1]) == if names[i] in before then before else before + [names[i]]
    ensures names[i] in Distinct(names[..i]) <==> names[i] in names[..i]
  {
    assert names[..i + 1][..i] == names[..i];
    DistinctKeepsAll(names[..i]);
  }

  /** A name a patch may have: relative, never climbing above the project, and, by
      the checks of the file system that `misplaced` stands for, no folder, no
      symbolic link and nothing that lands outside. */
  ghost predicate Admitted(name: string, misplaced: string -> bool) {
    StaysBelow(name) && !misplaced(name)
  }

  ghost predicate AllAdmitted(names: seq<string>, misplaced: string -> bool) {
    forall name <- names :: Admitted(name, misplaced)
  }

  lemma AdmittedStep(names: seq<string>, i: nat, misplaced: string -> bool)
    requires i < |names|
    ensures AllAdmitted(names[..i + 1], misplaced) <==>
            AllAdmitted(names[..i], misplaced) && Admitted(names[i], misplaced)
    ensures AllAdmitted(names, misplaced) ==> Admitted(names[i], misplaced)
    ensures AllAdmitted(names[..i], misplaced) && names[i] in names[..i] ==> Admitted(names[i], misplaced)
  {
    assert names[..i + 1] == names[..i] + [names[i]];
    assert names[i] in names;
  }

  /** The first name of a list that may not be there. */
  ghost predicate FirstRefused(names: seq<string>, misplaced: string -> bool, name: string) {
    exists i | 0 <= i < |names| ::
      names[i] == name && !Admitted(name, misplaced) && AllAdmitted(names[..i], misplaced)
  }

  method CheckedName(name: string, misplaced: string -> bool) returns (admitted: bool)
    ensures admitted == Admitted(name, misplaced)
  {
    var refusal := RefuseEscapingName(name);
    admitted := refusal.None? && !misplaced(name);
  }

  /** Collects what a patch changes and what it takes from. */
  method CheckedTargets(changed: seq<string>, sources: seq<string>, misplaced: string -> bool)
    returns (r: Result<seq<string>, string>)
    ensures r.Ok? <==> AllAdmitted(changed + sources, misplaced)
    ensures r.Ok? ==> r.value == Distinct(changed + sources)
    ensures r.Err? ==> FirstRefused(changed + sources, misplaced, r.error)
  {
    var names := changed + sources;
    var targets: seq<string> := [];
    for i := 0 to |names|
      invariant targets == Distinct(names[..i])
      invariant AllAdmitted(names[..i], misplaced)
    {
      DistinctStep(names, i);
      AdmittedStep(names, i, misplaced);
      if names[i] in targets {
        continue;
      }
      var admitted := CheckedName(names[i], misplaced);
      if !admitted {
        return Err(names[i]);
      }
      targets := targets + [names[i]];
    }
    assert names[..|names|] == names;
    r := Ok(targets);
  }

  /** When what git says it changed is, in some order, what was listed before, every
      file it changed was admitted and stays inside the project on every step of
      its path. */
  lemma AppliedStaysInside(changed: seq<string>, sources: seq<string>, applied: seq<string>,
                           misplaced: string -> bool, project: seq<string>)
    requires AllAdmitted(changed + sources, misplaced)
    requires multiset(applied) == multiset(changed)
    ensures forall name <- applied :: Admitted(name, misplaced) && name in Distinct(changed + sources)
    ensures forall name <- applied :: Relative(name) && StaysWithin(project, Split(name, '/'))
  {
    DistinctKeepsAll(changed + sources);
    forall name <- applied
      ensures name in changed
      ensures Relative(name) && StaysWithin(project, Split(name, '/'))
    {
      assert name in multiset(applied);
      assert name in changed + sources && Admitted(name, misplaced);
    }
  }
}
