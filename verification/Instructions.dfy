/** Which instruction files a turn loads: one for all projects, then those of every
    folder from the root down to the working one, within a budget of tokens. */
module Instructions {
  import opened Wrappers
  import Text

  /** An absolute path, from the root down. */
  type Path = seq<string>

  const MAX_INSTRUCTION_TOKENS := 10_000

  const INSTRUCTION_FILES: seq<Path> := [["AGENTS.md"], ["CLAUDE.md"], [".agiworkforce", "instructions.md"]]

  const GLOBAL_FILES: seq<Path> := [["instructions.md"], ["INSTRUCTIONS.md"]]

  /** What loading asks of the machine: the configuration folder, the text of a file,
      the text of a file kept within a folder, where a path leads once its links are
      followed, and the estimate of tokens. */
  datatype World = World(
    home: Option<Path>,
    text: Path -> Option<string>,
    textWithin: (Path, Path) -> Option<string>,
    canonical: Path -> Option<Path>,
    tokens: string -> nat)

  datatype Source = Source(path: Path, dir: Path, content: string)

  predicate SameFile(w: World, a: Path, b: Path) {
    if w.canonical(a).Some? && w.canonical(b).Some? then w.canonical(a) == w.canonical(b) else a == b
  }

  predicate Holds(w: World, sources: seq<Source>, path: Path) {
    exists i | 0 <= i < |sources| :: SameFile(w, sources[i].path, path)
  }

  /** Two paths are one file when they are spelled alike or both lead to the same place. */
  lemma SameFileExactly(w: World, a: Path, b: Path)
    ensures SameFile(w, a, b) <==> a == b || (w.canonical(a).Some? && w.canonical(b) == w.canonical(a))
  {
  }

  // ----- The folders, from the working one up -----

  method WalkToRoot(start: Path) returns (dirs: seq<Path>)
    ensures |dirs| == |start| + 1
    ensures forall i | 0 <= i <= |start| :: dirs[i] == start[..|start| - i]
  {
    dirs := [];
    var current := start;
    while true
      invariant |dirs| + |current| == |start| && current == start[..|current|]
      invariant forall i | 0 <= i < |dirs| :: dirs[i] == start[..|start| - i]
      decreases |current|
    {
      dirs := dirs + [current];
      if current == [] {
        break;
      }
      current := current[..|current| - 1];
    }
  }

  // ----- One file after another -----

  /** A place a file may be, whether it is the first of its folder, and the text found there. */
  datatype Candidate = Candidate(first: bool, dir: Path, path: Path, text: Option<string>)

  /** Where loading stands: the sources, the numbers of the candidates among them, and
      whether the present folder was given up. */
  datatype Loading = Loading(sources: seq<Source>, visits: seq<nat>, total: nat, truncated: bool, stopped: bool)

  function GlobalInstructions(w: World): Option<Source> {
    match w.home
    case None => None
    case Some(home) =>
      var first, second := w.text(home + GLOBAL_FILES[0]), w.text(home + GLOBAL_FILES[1]);
      if first.Some? && !Text.Blank(first.value) then Some(Source(home + GLOBAL_FILES[0], home, first.value))
      else if second.Some? && !Text.Blank(second.value) then Some(Source(home + GLOBAL_FILES[1], home, second.value))
      else None
  }

  /** A text in which not every character is white space. */
  predicate HasInk(text: Option<string>) {
    text.Some? && exists i | 0 <= i < |text.value| :: !Text.IsWhitespace(text.value[i])
  }

  /** The file for all projects is the first of two in the configuration folder that has
      any ink, under the name it is found by. */
  lemma GlobalIsFirstWithInk(w: World)
    ensures match w.home
      case None => GlobalInstructions(w).None?
      case Some(home) =>
        var (first, second) := (home + ["instructions.md"], home + ["INSTRUCTIONS.md"]);
        match GlobalInstructions(w)
        case None => !HasInk(w.text(first)) && !HasInk(w.text(second))
        case Some(source) =>
          && source.dir == home && w.text(source.path) == Some(source.content)
          && source.path == (if HasInk(w.text(first)) then first else second) && HasInk(w.text(source.path))
  {
    if w.home.Some? {
      forall path: Path ensures HasInk(w.text(path)) <==> w.text(path).Some? && !Text.Blank(w.text(path).value) {
        BlankExactly(w.text(path));
      }
    }
  }

  lemma BlankExactly(text: Option<string>)
    ensures HasInk(text) <==> text.Some? && !Text.Blank(text.value)
  {
    if text.Some? && !Text.Blank(text.value) {
      var c :| c in text.value && !Text.IsWhitespace(c);
      var i :| 0 <= i < |text.value| && text.value[i] == c;
    }
  }

  function Begin(w: World): Loading {
    match GlobalInstructions(w)
    case None => Loading([], [], 0, false, false)
    case Some(source) =>
      if w.tokens(source.content) <= MAX_INSTRUCTION_TOKENS
      then Loading([source], [], w.tokens(source.content), false, false)
      else Loading([], [], 0, true, false)
  }

  /** A file that would be loaded if the budget were endless. */
  predicate Wanted(w: World, c: Candidate, l: Loading) {
    (c.first || !l.stopped) && !Holds(w, l.sources, c.path) && c.text.Some?
  }

  predicate Fits(w: World, c: Candidate, l: Loading) {
    c.text.Some? && l.total + w.tokens(c.text.value) <= MAX_INSTRUCTION_TOKENS
  }

  function Visit(w: World, c: Candidate, v: nat, l: Loading): Loading {
    if !Wanted(w, c, l) then l.(stopped := !c.first && l.stopped)
    else if !Fits(w, c, l) then l.(truncated := true, stopped := true)
    else
      Loading(l.sources + [Source(c.path, c.dir, c.text.value)], l.visits + [v],
              l.total + w.tokens(c.text.value), l.truncated, false)
  }

  /** Loading after the first `n` candidates. */
  function After(w: World, cs: seq<Candidate>, n: nat): Loading
    requires n <= |cs|
  {
    if n == 0 then Begin(w) else Visit(w, cs[n - 1], n - 1, After(w, cs, n - 1))
  }

  /** The file number `k` of the folder at depth `depth`. */
  function CandidateAt(w: World, cwd: Path, depth: nat, k: nat): Candidate
    requires depth <= |cwd| && k < 3
  {
    var dir := cwd[..depth];
    var path := dir + INSTRUCTION_FILES[k];
    Candidate(k == 0, dir, path, w.textWithin(dir, path))
  }

  function Candidates(w: World, cwd: Path): (cs: seq<Candidate>)
    ensures |cs| == 3 * (|cwd| + 1)
  {
    seq(3 * (|cwd| + 1), v requires 0 <= v < 3 * (|cwd| + 1) => CandidateAt(w, cwd, v / 3, v % 3))
  }

  lemma CandidateOfNumber(w: World, cwd: Path, v: nat)
    requires v < 3 * (|cwd| + 1)
    ensures Candidates(w, cwd)[v] == CandidateAt(w, cwd, v / 3, v % 3)
  {
  }

  /** In every folder three names are tried, in this order. */
  lemma NamesTried(w: World, cwd: Path, depth: nat, v: nat)
    requires depth <= |cwd| && v == 3 * depth
    ensures v + 3 <= |Candidates(w, cwd)|
    ensures var (cs, dir) := (Candidates(w, cwd), cwd[..depth]);
      && cs[v] == Candidate(true, dir, dir + ["AGENTS.md"], w.textWithin(dir, dir + ["AGENTS.md"]))
      && cs[v + 1] == Candidate(false, dir, dir + ["CLAUDE.md"], w.textWithin(dir, dir + ["CLAUDE.md"]))
      && var path := dir + [".agiworkforce", "instructions.md"];
         cs[v + 2] == Candidate(false, dir, path, w.textWithin(dir, path))
  {
    CandidatesOfFolder(w, cwd, depth, v);
    var cs := Candidates(w, cwd);
    assert cs[v + 0] == CandidateAt(w, cwd, depth, 0) && cs[v + 1] == CandidateAt(w, cwd, depth, 1);
    assert cs[v + 2] == CandidateAt(w, cwd, depth, 2);
  }

  lemma CandidatesOfFolder(w: World, cwd: Path, depth: nat, v: nat)
    requires depth <= |cwd| && v == 3 * depth
    ensures v + 3 <= |Candidates(w, cwd)| &&
            forall k | 0 <= k < 3 :: Candidates(w, cwd)[v + k] == CandidateAt(w, cwd, depth, k)
  {
    forall k | 0 <= k < 3 ensures Candidates(w, cwd)[v + k] == CandidateAt(w, cwd, depth, k) {
      CandidateOfNumber(w, cwd, v + k);
    }
  }

  function Load(w: World, cwd: Path): Loading {
    var cs := Candidates(w, cwd);
    After(w, cs, |cs|)
  }

  // ----- The loops -----

  /** The variables of the loops hold what the loading says. */
  predicate Tracks(l: Loading, sources: seq<Source>, total: nat, truncated: bool) {
    sources == l.sources && total == l.total && truncated == l.truncated
  }

  method InstructionSources(w: World, cwd: Path) returns (sources: seq<Source>, truncated: bool)
    ensures sources == Load(w, cwd).sources && truncated == Load(w, cwd).truncated
  {
    var dirs := WalkToRoot(cwd);
    var total;
    sources, total, truncated := LoadGlobal(w);
    ghost var cs: seq<Candidate>, v: nat := Candidates(w, cwd), 0;
    for d := |dirs| downto 0
      invariant v == 3 * (|dirs| - d) && Tracks(After(w, cs, v), sources, total, truncated)
    {
      CandidatesOfFolder(w, cwd, |cwd| - d, v);
      sources, total, truncated := LoadFolder(w, cwd, |cwd| - d, cs, v, dirs[d], sources, total, truncated);
      v := v + 3;
    }
  }

  method LoadGlobal(w: World) returns (sources: seq<Source>, total: nat, truncated: bool)
    ensures Tracks(Begin(w), sources, total, truncated)
  {
    sources, total, truncated := [], 0, false;
    var leading := GlobalInstructions(w);
    if leading.Some? {
      total := total + w.tokens(leading.value.content);
      if total <= MAX_INSTRUCTION_TOKENS {
        sources := sources + [leading.value];
      } else {
        truncated, total := true, 0;
      }
    }
  }

  /** The three files of one folder, until one does not fit. */
  method LoadFolder(w: World, ghost cwd: Path, ghost depth: nat, ghost cs: seq<Candidate>, ghost v: nat,
                    dir: Path, before: seq<Source>, totalBefore: nat, truncatedBefore: bool)
    returns (sources: seq<Source>, total: nat, truncated: bool)
    requires depth <= |cwd| && dir == cwd[..depth]
    requires v + 3 <= |cs| && forall k | 0 <= k < 3 :: cs[v + k] == CandidateAt(w, cwd, depth, k)
    requires Tracks(After(w, cs, v), before, totalBefore, truncatedBefore)
    ensures Tracks(After(w, cs, v + 3), sources, total, truncated)
  {
    sources, total, truncated := before, totalBefore, truncatedBefore;
    for k := 0 to 3
      invariant Tracks(After(w, cs, v + k), sources, total, truncated)
      invariant k > 0 ==> !After(w, cs, v + k).stopped
    {
      var path := dir + INSTRUCTION_FILES[k];
      ghost var c := CandidateAt(w, cwd, depth, k);
      VisitStep(w, cs, v + k);
      if Holds(w, sources, path) {
        continue;
      }
      var content := w.textWithin(dir, path);
      if content.None? {
        continue;
      }
      var tokens := w.tokens(content.value);
      if total + tokens > MAX_INSTRUCTION_TOKENS {
        truncated := true;
        RestIsGivenUp(w, cwd, depth, cs, v, k + 1);
        return;
      }
      total := total + tokens;
      sources := sources + [Source(path, dir, content.value)];
    }
  }

  lemma VisitStep(w: World, cs: seq<Candidate>, v: nat)
    requires v < |cs| && (cs[v].first || !After(w, cs, v).stopped)
    ensures var l, m, c := After(w, cs, v), After(w, cs, v + 1), cs[v];
      if Holds(w, l.sources, c.path) || c.text.None? then Tracks(m, l.sources, l.total, l.truncated) && !m.stopped
      else if l.total + w.tokens(c.text.value) > MAX_INSTRUCTION_TOKENS then
        Tracks(m, l.sources, l.total, true) && m.stopped
      else
        && Tracks(m, l.sources + [Source(c.path, c.dir, c.text.value)], l.total + w.tokens(c.text.value), l.truncated)
        && !m.stopped
  {
  }

  /** A folder given up stays so until the next. */
  lemma {:induction false} GivenUp(w: World, cs: seq<Candidate>, v: nat, n: nat)
    requires v <= n <= |cs| && After(w, cs, v).stopped && forall k | v <= k < n :: !cs[k].first
    ensures After(w, cs, n) == After(w, cs, v)
    decreases n
  {
    if v >= n {
    } else {
      GivenUp(w, cs, v, n - 1);
    }
  }

  lemma RestIsGivenUp(w: World, cwd: Path, depth: nat, cs: seq<Candidate>, v: nat, k: nat)
    requires depth <= |cwd| && 0 < k <= 3
    requires v + 3 <= |cs| && forall k | 0 <= k < 3 :: cs[v + k] == CandidateAt(w, cwd, depth, k)
    requires After(w, cs, v + k).stopped
    ensures After(w, cs, v + 3) == After(w, cs, v + k)
  {
    forall u | v + k <= u < v + 3 ensures !cs[u].first {
      assert cs[u] == CandidateAt(w, cwd, depth, u - v);
    }
    GivenUp(w, cs, v + k, v + 3);
  }

  // ----- What is loaded -----

  predicate IsCandidate(cs: seq<Candidate>, v: nat, source: Source) {
    v < |cs| && source.dir == cs[v].dir && source.path == cs[v].path && cs[v].text == Some(source.content)
  }

  predicate Stays(l: Loading, m: Loading) {
    m.sources == l.sources && m.visits == l.visits && m.total == l.total
  }

  predicate Gains(w: World, cs: seq<Candidate>, v: nat, l: Loading, m: Loading, source: Source) {
    && m.sources == l.sources + [source] && m.visits == l.visits + [v]
    && m.total == l.total + w.tokens(source.content) <= MAX_INSTRUCTION_TOKENS
    && IsCandidate(cs, v, source) && !Holds(w, l.sources, source.path)
  }

  /** A visit adds its own file at the end, new and within the budget, or nothing. */
  lemma VisitGainsOrStays(w: World, cs: seq<Candidate>, v: nat) returns (source: Source)
    requires v < |cs|
    ensures Stays(After(w, cs, v), After(w, cs, v + 1)) || Gains(w, cs, v, After(w, cs, v), After(w, cs, v + 1), source)
  {
    source := Source(cs[v].path, cs[v].dir, if cs[v].text.Some? then cs[v].text.value else "");
  }

  function TokenSum(w: World, sources: seq<Source>): nat {
    if sources == [] then 0
    else TokenSum(w, sources[..|sources| - 1]) + w.tokens(sources[|sources| - 1].content)
  }

  lemma TokenSumOfOneMore(w: World, sources: seq<Source>, source: Source)
    ensures TokenSum(w, sources + [source]) == TokenSum(w, sources) + w.tokens(source.content)
  {
    assert (sources + [source])[..|sources|] == sources;
  }

  lemma BeginIsWithinBudget(w: World)
    ensures Begin(w).total == TokenSum(w, Begin(w).sources) <= MAX_INSTRUCTION_TOKENS
  {
    if GlobalInstructions(w).Some? {
      TokenSumOfOneMore(w, [], GlobalInstructions(w).value);
      assert [] + [GlobalInstructions(w).value] == [GlobalInstructions(w).value];
    }
  }

  /** Whatever the files, what is loaded is within the budget, and the running total
      is the total of what is loaded. */
  lemma {:induction false} WithinBudget(w: World, cs: seq<Candidate>, n: nat)
    requires n <= |cs|
    ensures After(w, cs, n).total == TokenSum(w, After(w, cs, n).sources) <= 10_000
  {
    if n == 0 {
      BeginIsWithinBudget(w);
    } else {
      WithinBudget(w, cs, n - 1);
      var source := VisitGainsOrStays(w, cs, n - 1);
      TokenSumOfOneMore(w, After(w, cs, n - 1).sources, source);
    }
  }

  /** No two of the sources are one file. */
  predicate Apart(w: World, sources: seq<Source>) {
    forall i, j | 0 <= i < j < |sources| :: !SameFile(w, sources[i].path, sources[j].path)
  }

  lemma OneMoreApart(w: World, sources: seq<Source>, source: Source)
    requires Apart(w, sources) && !Holds(w, sources, source.path)
    ensures Apart(w, sources + [source])
  {
  }

  /** No physical file is loaded twice, by whatever paths it is reached. */
  lemma {:induction false} NoFileTwice(w: World, cs: seq<Candidate>, n: nat)
    requires n <= |cs|
    ensures Apart(w, After(w, cs, n).sources)
  {
    if n == 0 {
    } else {
      NoFileTwice(w, cs, n - 1);
      var source := VisitGainsOrStays(w, cs, n - 1);
      if !Stays(After(w, cs, n - 1), After(w, cs, n)) {
        OneMoreApart(w, After(w, cs, n - 1).sources, source);
      }
    }
  }

  /** Sources that are those of the beginning and then candidates, in their order. */
  ghost predicate InOrder(w: World, cs: seq<Candidate>, sources: seq<Source>, visits: seq<nat>, n: nat) {
    var first := Begin(w).sources;
    && |sources| == |first| + |visits| && first <= sources
    && (forall i | 0 <= i < |visits| :: visits[i] < n && IsCandidate(cs, visits[i], sources[|first| + i]))
    && (forall i, j | 0 <= i < j < |visits| :: visits[i] < visits[j])
  }

  lemma OneMoreInOrder(w: World, cs: seq<Candidate>, sources: seq<Source>, visits: seq<nat>, v: nat, source: Source)
    requires InOrder(w, cs, sources, visits, v) && IsCandidate(cs, v, source)
    ensures InOrder(w, cs, sources + [source], visits + [v], v + 1)
  {
  }

  lemma {:induction false} VisitsAscend(w: World, cs: seq<Candidate>, n: nat)
    requires n <= |cs|
    ensures InOrder(w, cs, After(w, cs, n).sources, After(w, cs, n).visits, n)
  {
    if n == 0 {
    } else {
      VisitsAscend(w, cs, n - 1);
      var source := VisitGainsOrStays(w, cs, n - 1);
      if !Stays(After(w, cs, n - 1), After(w, cs, n)) {
        OneMoreInOrder(w, cs, After(w, cs, n - 1).sources, After(w, cs, n - 1).visits, n - 1, source);
      }
    }
  }

  /** After the global file come files of the folders on the way to the working one,
      root first: a later source is never from a folder further up, and within one
      folder the order of names holds. */
  lemma RootFirst(w: World, cwd: Path, i: nat, j: nat)
    requires |Begin(w).sources| <= i < j < |Load(w, cwd).sources|
    ensures var a, b := Load(w, cwd).sources[i], Load(w, cwd).sources[j];
      && a.dir <= b.dir <= cwd
      && (a.dir == b.dir ==> EarlierName(a, b))
  {
    var cs := Candidates(w, cwd);
    VisitsAscend(w, cs, |cs|);
    LaterSource(w, cwd, Load(w, cwd).sources, Load(w, cwd).visits, i, j);
  }

  lemma LaterSource(w: World, cwd: Path, sources: seq<Source>, visits: seq<nat>, i: nat, j: nat)
    requires InOrder(w, Candidates(w, cwd), sources, visits, |Candidates(w, cwd)|)
    requires |Begin(w).sources| <= i < j < |sources|
    ensures sources[i].dir <= sources[j].dir <= cwd
    ensures sources[i].dir == sources[j].dir ==> EarlierName(sources[i], sources[j])
  {
    var k := |Begin(w).sources|;
    assert IsCandidate(Candidates(w, cwd), visits[i - k], sources[k + (i - k)]);
    assert IsCandidate(Candidates(w, cwd), visits[j - k], sources[k + (j - k)]);
    LaterCandidate(w, cwd, visits[i - k], visits[j - k], sources[i], sources[j]);
  }

  ghost predicate EarlierName(a: Source, b: Source) {
    exists m, n | 0 <= m < n < 3 :: a.path == a.dir + INSTRUCTION_FILES[m] && b.path == b.dir + INSTRUCTION_FILES[n]
  }

  lemma LaterCandidate(w: World, cwd: Path, v: nat, u: nat, a: Source, b: Source)
    requires v < u && IsCandidate(Candidates(w, cwd), v, a) && IsCandidate(Candidates(w, cwd), u, b)
    ensures a.dir <= b.dir <= cwd && (a.dir == b.dir ==> EarlierName(a, b))
  {
    CandidateOfNumber(w, cwd, v);
    CandidateOfNumber(w, cwd, u);
    assert v / 3 <= u / 3 && (v / 3 == u / 3 ==> v % 3 < u % 3);
    assert |a.dir| == v / 3 && |b.dir| == u / 3;
  }

  // ----- What is left out -----

  /** A file that was wanted and did not fit. */
  predicate Dropped(w: World, cs: seq<Candidate>, v: nat)
    requires v < |cs|
  {
    Wanted(w, cs[v], After(w, cs, v)) && !Fits(w, cs[v], After(w, cs, v))
  }

  predicate GlobalDropped(w: World) {
    GlobalInstructions(w).Some? && w.tokens(GlobalInstructions(w).value.content) > MAX_INSTRUCTION_TOKENS
  }

  lemma FlagRises(w: World, cs: seq<Candidate>, v: nat)
    requires v < |cs|
    ensures After(w, cs, v + 1).truncated <==> After(w, cs, v).truncated || Dropped(w, cs, v)
  {
  }

  /** The flag is up exactly when some file was dropped for the budget. */
  lemma {:induction false} TruncatedExactly(w: World, cs: seq<Candidate>, n: nat)
    requires n <= |cs|
    ensures After(w, cs, n).truncated <==> GlobalDropped(w) || exists v | 0 <= v < n :: Dropped(w, cs, v)
  {
    if n == 0 {
    } else {
      TruncatedExactly(w, cs, n - 1);
      FlagRises(w, cs, n - 1);
    }
  }

  lemma {:induction false} SourcesOnlyGrow(w: World, cs: seq<Candidate>, m: nat, n: nat)
    requires m <= n <= |cs|
    ensures After(w, cs, m).sources <= After(w, cs, n).sources
    decreases n
  {
    if m >= n {
    } else {
      SourcesOnlyGrow(w, cs, m, n - 1);
      var source := VisitGainsOrStays(w, cs, n - 1);
    }
  }

  lemma HoldsGrows(w: World, few: seq<Source>, many: seq<Source>, path: Path)
    requires few <= many && Holds(w, few, path)
    ensures Holds(w, many, path)
  {
    var i :| 0 <= i < |few| && SameFile(w, few[i].path, path);
    assert many[i] == few[i];
  }

  /** A file dropped in the folder of candidate `v`, no later than it. */
  ghost predicate DroppedInFolder(w: World, cs: seq<Candidate>, v: nat)
    requires v < |cs|
  {
    exists u | 0 <= u <= v :: Dropped(w, cs, u) && forall k | u < k <= v :: !cs[k].first
  }

  lemma {:induction false} StoppedByDrop(w: World, cs: seq<Candidate>, v: nat)
    requires v < |cs| && After(w, cs, v + 1).stopped
    ensures DroppedInFolder(w, cs, v)
  {
    if Dropped(w, cs, v) {
    } else {
      assert !cs[v].first && After(w, cs, v).stopped;
      StoppedByDrop(w, cs, v - 1);
      var u :| 0 <= u <= v - 1 && Dropped(w, cs, u) && forall k | u < k <= v - 1 :: !cs[k].first;
      assert forall k | u < k <= v :: !cs[k].first;
    }
  }

  lemma StoppedBefore(w: World, cs: seq<Candidate>, v: nat)
    requires v < |cs| && !cs[v].first && After(w, cs, v).stopped
    ensures DroppedInFolder(w, cs, v)
  {
    StoppedByDrop(w, cs, v - 1);
    var u :| 0 <= u <= v - 1 && Dropped(w, cs, u) && forall k | u < k <= v - 1 :: !cs[k].first;
    assert forall k | u < k <= v :: !cs[k].first;
  }

  lemma LoadedNext(w: World, cs: seq<Candidate>, v: nat)
    requires v < |cs| && Wanted(w, cs[v], After(w, cs, v)) && Fits(w, cs[v], After(w, cs, v))
    ensures Holds(w, After(w, cs, v + 1).sources, cs[v].path)
  {
    var after := After(w, cs, v + 1);
    assert after.sources[|after.sources| - 1].path == cs[v].path;
  }

  /** No readable file is passed over quietly: it is loaded, by this path or another,
      or it or one before it in its folder did not fit. */
  lemma NothingLostQuietly(w: World, cs: seq<Candidate>, v: nat)
    requires v < |cs| && cs[v].text.Some?
    ensures Holds(w, After(w, cs, |cs|).sources, cs[v].path) || DroppedInFolder(w, cs, v)
  {
    if !cs[v].first && After(w, cs, v).stopped {
      StoppedBefore(w, cs, v);
    } else if Holds(w, After(w, cs, v).sources, cs[v].path) {
      SourcesOnlyGrow(w, cs, v, |cs|);
      HoldsGrows(w, After(w, cs, v).sources, After(w, cs, |cs|).sources, cs[v].path);
    } else if Fits(w, cs[v], After(w, cs, v)) {
      LoadedNext(w, cs, v);
      SourcesOnlyGrow(w, cs, v + 1, |cs|);
      HoldsGrows(w, After(w, cs, v + 1).sources, After(w, cs, |cs|).sources, cs[v].path);
    } else {
      assert Dropped(w, cs, v);
    }
  }

  /** With the flag down, every readable instruction file on the way is loaded. */
  lemma CompleteUnlessTruncated(w: World, cwd: Path, depth: nat, k: nat)
    requires !Load(w, cwd).truncated && depth <= |cwd| && k < 3
    ensures var c := CandidateAt(w, cwd, depth, k); c.text.Some? ==> Holds(w, Load(w, cwd).sources, c.path)
    ensures GlobalInstructions(w).Some? ==> [GlobalInstructions(w).value] <= Load(w, cwd).sources
  {
    CandidatesOfFolder(w, cwd, depth, 3 * depth);
    AllHeldUnlessTruncated(w, Candidates(w, cwd), 3 * depth + k);
  }

  lemma AllHeldUnlessTruncated(w: World, cs: seq<Candidate>, v: nat)
    requires v < |cs| && !After(w, cs, |cs|).truncated
    ensures cs[v].text.Some? ==> Holds(w, After(w, cs, |cs|).sources, cs[v].path)
    ensures GlobalInstructions(w).Some? ==> [GlobalInstructions(w).value] <= After(w, cs, |cs|).sources
  {
    TruncatedExactly(w, cs, |cs|);
    SourcesOnlyGrow(w, cs, 0, |cs|);
    if cs[v].text.Some? {
      NothingLostQuietly(w, cs, v);
    }
  }

  // ----- Whether loading stops at the budget -----

  /** A file that is new to the sources of `l` and too large for what they leave. */
  predicate TooLarge(w: World, c: Candidate, l: Loading) {
    c.text.Some? && !Holds(w, l.sources, c.path) && !Fits(w, c, l)
  }

  /** Before candidate `u` its folder was given up: it was at `n` already, or one of its
      files since is too large for what `l` leaves. */
  ghost predicate GivenUpBefore(w: World, cs: seq<Candidate>, l: Loading, n: nat, u: nat)
    requires n <= u <= |cs|
  {
    || (l.stopped && forall j | n <= j < u :: !cs[j].first)
    || exists k | n <= k < u :: TooLarge(w, cs[k], l) && forall j | k < j < u :: !cs[j].first
  }

  /** A candidate that adds nothing to `l`: unreadable, held already, too large for what
      is left, or in a folder given up. */
  ghost predicate Shut(w: World, cs: seq<Candidate>, l: Loading, n: nat, u: nat)
    requires n <= u < |cs|
  {
    || cs[u].text.None?
    || Holds(w, l.sources, cs[u].path)
    || !Fits(w, cs[u], l)
    || (!cs[u].first && GivenUpBefore(w, cs, l, n, u))
  }

  lemma GivenUpStep(w: World, cs: seq<Candidate>, l: Loading, n: nat, u: nat)
    requires n <= u < |cs|
    ensures GivenUpBefore(w, cs, l, n, u + 1) <==>
            TooLarge(w, cs[u], l) || (!cs[u].first && GivenUpBefore(w, cs, l, n, u))
  {
  }

  /** Where `m` stands when nothing was added to `l`. */
  predicate SameSources(l: Loading, m: Loading) {
    m.sources == l.sources && m.total == l.total
  }

  lemma VisitOfShut(w: World, c: Candidate, v: nat, l: Loading, m: Loading)
    requires SameSources(l, m)
    ensures SameSources(l, Visit(w, c, v, m)) <==>
            c.text.None? || Holds(w, l.sources, c.path) || !Fits(w, c, l) || (!c.first && m.stopped)
    ensures SameSources(l, Visit(w, c, v, m)) ==>
              (Visit(w, c, v, m).stopped <==> TooLarge(w, c, l) || (!c.first && m.stopped))
  {
  }

  /** As long as every candidate is shut, nothing is added, and a folder is given up
      just when its files since say so. */
  lemma {:induction false} ShutAddsNothing(w: World, cs: seq<Candidate>, n: nat, u: nat)
    requires n <= u <= |cs| && forall k | n <= k < u :: Shut(w, cs, After(w, cs, n), n, k)
    ensures SameSources(After(w, cs, n), After(w, cs, u))
    ensures After(w, cs, u).stopped <==> GivenUpBefore(w, cs, After(w, cs, n), n, u)
    decreases u
  {
    if n >= u {
    } else {
      ShutAddsNothing(w, cs, n, u - 1);
      GivenUpStep(w, cs, After(w, cs, n), n, u - 1);
      assert Shut(w, cs, After(w, cs, n), n, u - 1);
      VisitOfShut(w, cs[u - 1], u - 1, After(w, cs, n), After(w, cs, u - 1));
    }
  }

  lemma OpenAddsSource(w: World, cs: seq<Candidate>, n: nat, u: nat)
    requires n <= u < |cs| && !Shut(w, cs, After(w, cs, n), n, u)
    requires forall k | n <= k < u :: Shut(w, cs, After(w, cs, n), n, k)
    ensures |After(w, cs, u + 1).sources| > |After(w, cs, n).sources|
  {
    ShutAddsNothing(w, cs, n, u);
    var source := VisitGainsOrStays(w, cs, u);
    VisitOfShut(w, cs[u], u, After(w, cs, n), After(w, cs, u));
  }

  ghost predicate AllShut(w: World, cs: seq<Candidate>, n: nat)
    requires n <= |cs|
  {
    forall u | n <= u < |cs| :: Shut(w, cs, After(w, cs, n), n, u)
  }

  /** From any point on, nothing more is loaded exactly when every later candidate is shut. */
  lemma LoadsNoMoreExactly(w: World, cs: seq<Candidate>, n: nat)
    requires n <= |cs|
    ensures After(w, cs, |cs|).sources == After(w, cs, n).sources <==> AllShut(w, cs, n)
  {
    if AllShut(w, cs, n) {
      ShutAddsNothing(w, cs, n, |cs|);
    } else {
      var u := FirstOpen(w, cs, n, n);
      OpenAddsSource(w, cs, n, u);
      SourcesOnlyGrow(w, cs, u + 1, |cs|);
    }
  }

  lemma {:induction false} FirstOpen(w: World, cs: seq<Candidate>, n: nat, m: nat) returns (u: nat)
    requires n <= m <= |cs| && exists k | m <= k < |cs| :: !Shut(w, cs, After(w, cs, n), n, k)
    ensures m <= u < |cs| && !Shut(w, cs, After(w, cs, n), n, u)
    ensures forall k | m <= k < u :: Shut(w, cs, After(w, cs, n), n, k)
    decreases |cs| - m
  {
    if Shut(w, cs, After(w, cs, n), n, m) {
      u := FirstOpen(w, cs, n, m + 1);
    } else {
      u := m;
    }
  }

  /** Loading stops at the budget, as it is said to, exactly when every candidate after
      the one that was dropped is shut. */
  lemma StopsAtDropExactly(w: World, cwd: Path, v: nat)
    requires v < |Candidates(w, cwd)| && Dropped(w, Candidates(w, cwd), v)
    ensures var cs := Candidates(w, cwd);
      Load(w, cwd).sources == After(w, cs, v).sources <==> AllShut(w, cs, v + 1)
  {
    LoadsNoMoreExactly(w, Candidates(w, cwd), v + 1);
  }

  /** The same where it is the global file that does not fit. */
  lemma StopsAtGlobalExactly(w: World, cwd: Path)
    requires GlobalDropped(w)
    ensures Load(w, cwd).sources == [] <==> AllShut(w, Candidates(w, cwd), 0)
  {
    LoadsNoMoreExactly(w, Candidates(w, cwd), 0);
  }

  /** A root whose file is too large, and below it a folder whose file fits. */
  function TwoFolders(folder: string, large: string, small: string): World {
    World(
      None,
      (path: Path) => None,
      (dir: Path, path: Path) =>
        if path == INSTRUCTION_FILES[0] then Some(large)
        else if path == [folder] + INSTRUCTION_FILES[0] then Some(small)
        else None,
      (path: Path) => Some(path),
      (text: string) => if text == large then MAX_INSTRUCTION_TOKENS + 1 else 1)
  }

  /** Of its six candidates, only the first of either folder is there. */
  lemma CandidatesOfTwoFolders(folder: string, large: string, small: string)
    ensures var cs := Candidates(TwoFolders(folder, large, small), [folder]);
      && |cs| == 6
      && cs[0] == Candidate(true, [], INSTRUCTION_FILES[0], Some(large))
      && cs[3] == Candidate(true, [folder], [folder] + INSTRUCTION_FILES[0], Some(small))
      && cs[1].text.None? && cs[2].text.None? && cs[4].text.None? && cs[5].text.None?
      && !cs[1].first && !cs[2].first && !cs[4].first && !cs[5].first
  {
    var w, cwd := TwoFolders(folder, large, small), [folder];
    assert cwd[..0] == [] && cwd[..1] == cwd && [] + INSTRUCTION_FILES[0] == INSTRUCTION_FILES[0];
    forall v | 0 <= v < 6 ensures Candidates(w, cwd)[v] == CandidateAt(w, cwd, v / 3, v % 3) {
      CandidateOfNumber(w, cwd, v);
    }
    assert INSTRUCTION_FILES[0] == ["AGENTS.md"] && INSTRUCTION_FILES[1] == ["CLAUDE.md"];
    assert "CLAUDE.md"[0] != "AGENTS.md"[0];
    assert ([folder] + INSTRUCTION_FILES[0])[1] == "AGENTS.md";
    assert ([folder] + INSTRUCTION_FILES[1])[1] == "CLAUDE.md";
    assert |INSTRUCTION_FILES[2]| == 2 && |[folder] + INSTRUCTION_FILES[2]| == 3;
    assert cwd[..0] + INSTRUCTION_FILES[1] == INSTRUCTION_FILES[1];
  }

  /** It can go on: the file of the root is dropped, and that of the folder loaded. */
  lemma LoadingGoesOn(folder: string, large: string, small: string)
    requires large != small
    ensures var l := Load(TwoFolders(folder, large, small), [folder]);
      l.truncated && l.sources == [Source([folder] + INSTRUCTION_FILES[0], [folder], small)]
  {
    var w := TwoFolders(folder, large, small);
    var cs := Candidates(w, [folder]);
    CandidatesOfTwoFolders(folder, large, small);
    var source := Source([folder] + INSTRUCTION_FILES[0], [folder], small);
    assert After(w, cs, 0) == Loading([], [], 0, false, false);
    assert After(w, cs, 1) == Loading([], [], 0, true, true);
    assert After(w, cs, 2) == After(w, cs, 1);
    assert After(w, cs, 3) == After(w, cs, 2);
    assert After(w, cs, 4) == Loading([source], [3], 1, true, false);
    assert After(w, cs, 5) == After(w, cs, 4);
    assert After(w, cs, 6) == After(w, cs, 5);
  }
}
