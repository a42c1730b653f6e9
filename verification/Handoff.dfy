/** Which messages of a conversation travel to another mode: the newest ones that
    fit a byte budget. Texts are sequences of UTF-8 code units. */
module Handoff {
  import opened Wrappers
  import opened Text
  import ShellWords

  datatype Message = Message(role: string, text: string)

  datatype Selection = Selection(
    transcript: string,
    included: nat,
    excludedRole: nat,
    omittedSelection: nat,
    omittedBudget: nat)

  const MAX_MESSAGES: nat := 64
  const MAX_BYTES: nat := 256 * 1024
  const DEFAULT_LIMIT: nat := 8
  const USIZE_MAX: nat := 0xFFFF_FFFF_FFFF_FFFF
  const SEPARATOR := "\n\n---\n\n"

  // ----- The requested limit -----

  /** An optional plus sign and decimal digits, within the width of a machine word. */
  function ParseUsize(s: string): Option<nat> {
    var digits := if s != "" && s[0] == '+' then s[1..] else s;
    if digits == "" || !IsDigits(digits) then None
    else if DigitsValue(digits) > USIZE_MAX then None
    else Some(DigitsValue(digits))
  }

  function AtLeastOne(n: nat): nat {
    if n == 0 then 1 else n
  }

  /** The number after the first `last` that a number follows. */
  function LimitAfterLast(words: seq<string>): Option<nat> {
    if |words| < 2 then None
    else if Lower(words[0]) == "last" && ParseUsize(words[1]).Some? then Some(AtLeastOne(ParseUsize(words[1]).value))
    else LimitAfterLast(words[1..])
  }

  function FirstNumber(words: seq<string>): Option<nat> {
    if words == [] then None
    else if ParseUsize(words[0]).Some? then Some(AtLeastOne(ParseUsize(words[0]).value))
    else FirstNumber(words[1..])
  }

  function ParseLimit(arg: string, windows: bool): Option<nat> {
    var words := ShellWords.Words(arg, windows);
    if exists i | 0 <= i < |words| :: Lower(words[i]) == "full" then Some(USIZE_MAX)
    else if LimitAfterLast(words).Some? then LimitAfterLast(words)
    else FirstNumber(words)
  }

  // ----- Candidates -----

  function TransferRole(role: string): Option<string> {
    var lower := Lower(role);
    if lower == "user" || lower == "assistant" || lower == "tool" then Some(lower) else None
  }

  /** The messages whose role may travel, oldest first. */
  function Transferable(messages: seq<Message>): (r: seq<Message>)
    ensures |r| <= |messages|
  {
    if messages == [] then []
    else
      var first := TransferRole(messages[0].role);
      (if first.Some? then [messages[0].(role := first.value)] else []) + Transferable(messages[1..])
  }

  function LastOnes<T>(xs: seq<T>, n: nat): (r: seq<T>)
    ensures |r| == if n < |xs| then n else |xs|
    ensures r == xs[|xs| - |r|..]
  {
    if n < |xs| then xs[|xs| - n..] else xs
  }

  function EffectiveLimit(arg: string, windows: bool): (n: nat)
    ensures 1 <= n <= MAX_MESSAGES
  {
    var requested := match ParseLimit(arg, windows) case Some(n) => AtLeastOne(n) case None => DEFAULT_LIMIT;
    if requested < MAX_MESSAGES then requested else MAX_MESSAGES
  }

  function Candidates(messages: seq<Message>, arg: string, windows: bool): seq<Message> {
    LastOnes(Transferable(messages), EffectiveLimit(arg, windows))
  }

  // ----- What an argument asks for -----

  /** A plain or signed figure that fits a machine word reads as its number; nothing but
      digits behind an optional plus sign reads as one. */
  lemma FiguresRead(n: nat, s: string)
    ensures ParseUsize(Decimal(n)) == ParseUsize(['+'] + Decimal(n)) ==
            if n <= 0xFFFF_FFFF_FFFF_FFFF then Some(n) else None
    ensures ParseUsize(s).Some? ==>
              s != "" && s != "+" && forall i | 0 <= i < |s| :: '0' <= s[i] <= '9' || (i == 0 && s[0] == '+')
  {
    DecimalReads(n);
    Cons('+', Decimal(n));
    if ParseUsize(s).Some? && s[0] == '+' {
      assert IsDigits(s[1..]);
      forall i | 0 < i < |s| ensures '0' <= s[i] <= '9' { assert s[i] == s[1..][i - 1]; }
    }
  }

  ghost predicate Full(words: seq<string>) {
    exists i | 0 <= i < |words| :: Lower(words[i]) == "full"
  }

  /** A number right behind the word `last`. */
  ghost predicate LastAt(words: seq<string>, i: nat) {
    i + 1 < |words| && Lower(words[i]) == "last" && ParseUsize(words[i + 1]).Some?
  }

  ghost predicate NumberAt(words: seq<string>, i: nat) {
    i < |words| && ParseUsize(words[i]).Some?
  }

  ghost predicate FirstLastAt(words: seq<string>, i: nat) {
    LastAt(words, i) && forall j: nat | j < i :: !LastAt(words, j)
  }

  ghost predicate FirstNumberAt(words: seq<string>, i: nat) {
    NumberAt(words, i) && forall j: nat | j < i :: !NumberAt(words, j)
  }

  lemma {:induction false} LastIsRead(words: seq<string>) returns (i: nat)
    ensures LimitAfterLast(words).None? ==> forall j: nat :: !LastAt(words, j)
    ensures LimitAfterLast(words).Some? ==>
      FirstLastAt(words, i) && LimitAfterLast(words) == Some(AtLeastOne(ParseUsize(words[i + 1]).value))
    decreases |words|
  {
    i := 0;
    if |words| < 2 {
    } else if Lower(words[0]) == "last" && ParseUsize(words[1]).Some? {
      assert LastAt(words, 0);
    } else {
      i := LastIsRead(words[1..]);
      i := i + 1;
      assert !LastAt(words, 0);
      forall j: nat | j > 0 ensures LastAt(words, j) <==> LastAt(words[1..], j - 1) {}
    }
  }

  lemma {:induction false} NumberIsRead(words: seq<string>) returns (i: nat)
    ensures FirstNumber(words).None? ==> forall j: nat :: !NumberAt(words, j)
    ensures FirstNumber(words).Some? ==>
      FirstNumberAt(words, i) && FirstNumber(words) == Some(AtLeastOne(ParseUsize(words[i]).value))
    decreases |words|
  {
    i := 0;
    if words == [] {
    } else if ParseUsize(words[0]).Some? {
      assert NumberAt(words, 0);
    } else {
      i := NumberIsRead(words[1..]);
      i := i + 1;
      assert !NumberAt(words, 0);
      forall j: nat | j > 0 ensures NumberAt(words, j) <==> NumberAt(words[1..], j - 1) {}
    }
  }

  /** As many messages as asked for, but at least one and at most 64. */
  function Held(n: nat): nat {
    if n < 1 then 1 else if n > 64 then 64 else n
  }

  /** The word `full` asks for as much as there may be; otherwise the first number behind
      a `last` counts, then the first number at all, then eight. */
  lemma LimitExactly(arg: string, windows: bool) returns (i: nat)
    ensures var (words, n) := (ShellWords.Words(arg, windows), EffectiveLimit(arg, windows));
      if Full(words) then n == 64
      else if exists j: nat :: LastAt(words, j) then FirstLastAt(words, i) && n == Held(ParseUsize(words[i + 1]).value)
      else if exists j: nat :: NumberAt(words, j) then FirstNumberAt(words, i) && n == Held(ParseUsize(words[i]).value)
      else n == 8
  {
    var words := ShellWords.Words(arg, windows);
    var last := LastIsRead(words);
    var number := NumberIsRead(words);
    i := if LimitAfterLast(words).Some? then last else number;
  }

  // ----- Which messages are candidates -----

  /** What people and models said and what tools answered may travel. */
  predicate Travels(m: Message) {
    Lower(m.role) in ["user", "assistant", "tool"]
  }

  /** Positions in a list, in ascending order. */
  ghost predicate Ascending(at: seq<nat>, n: nat) {
    && (forall k | 0 <= k < |at| :: at[k] < n)
    && (forall k, l | 0 <= k < l < |at| :: at[k] < at[l])
  }

  lemma {:induction false} TransferableAt(messages: seq<Message>) returns (at: seq<nat>)
    ensures |at| == |Transferable(messages)| && Ascending(at, |messages|)
    ensures forall p: nat | p < |messages| :: p in at <==> Travels(messages[p])
    ensures forall k | 0 <= k < |at| ::
      Transferable(messages)[k] == Message(Lower(messages[at[k]].role), messages[at[k]].text)
    decreases |messages|
  {
    if messages == [] {
      at := [];
    } else {
      var n := |messages| - 1;
      var init, last := UpToLast(messages);
      at := TransferableAt(init);
      TransferableOfMore(init, last);
      if Travels(last) { at := at + [n]; }
    }
  }

  lemma {:induction false} TransferableOfMore(messages: seq<Message>, last: Message)
    ensures Transferable(messages + [last]) ==
            Transferable(messages) + if Travels(last) then [Message(Lower(last.role), last.text)] else []
    decreases |messages|
  {
    if messages == [] {
      assert messages + [last] == [last] && [last][1..] == [];
    } else {
      assert (messages + [last])[1..] == messages[1..] + [last];
      TransferableOfMore(messages[1..], last);
    }
  }

  /** The candidates are the newest of the messages that may travel, as many as the limit
      allows, oldest first. */
  lemma CandidatesAreNewest(messages: seq<Message>, arg: string, windows: bool) returns (at: seq<nat>)
    ensures Ascending(at, |messages|)
    ensures forall p: nat | p < |messages| :: p in at <==> Travels(messages[p])
    ensures var (candidates, limit) := (Candidates(messages, arg, windows), EffectiveLimit(arg, windows));
      && |candidates| == (if limit < |at| then limit else |at|)
      && forall k | 0 <= k < |candidates| ::
           var m := messages[at[|at| - |candidates| + k]];
           candidates[k] == Message(Lower(m.role), m.text)
  {
    at := TransferableAt(messages);
    var candidates, all := Candidates(messages, arg, windows), Transferable(messages);
    forall k | 0 <= k < |candidates| ensures candidates[k] == all[|all| - |candidates| + k] {}
  }

  // ----- Fragments and the budget -----

  function Fragment(m: Message, redact: string -> string): string {
    m.role + ":\n" + redact(m.text)
  }

  function RawFragment(m: Message): string {
    m.role + ":\n" + m.text
  }

  /** Both the message as it is and its redacted form fit before the newer fragments. */
  ghost predicate Fits(m: Message, newer: seq<string>, redact: string -> string) {
    && |Join([RawFragment(m)] + newer, SEPARATOR)| <= MAX_BYTES
    && |Join([Fragment(m, redact)] + newer, SEPARATOR)| <= MAX_BYTES
  }

  /** The fragments of the messages kept, oldest first. */
  ghost function Kept(ms: seq<Message>, kept: seq<bool>, redact: string -> string): seq<string>
    requires |ms| == |kept|
  {
    if ms == [] then []
    else (if kept[0] then [Fragment(ms[0], redact)] else []) + Kept(ms[1..], kept[1..], redact)
  }

  /** Newest first, a message is kept exactly when it fits before those kept so far. */
  ghost predicate Greedy(ms: seq<Message>, kept: seq<bool>, redact: string -> string) {
    && |ms| == |kept|
    && (ms == [] ||
        (&& Greedy(ms[1..], kept[1..], redact)
         && (kept[0] <==> Fits(ms[0], Kept(ms[1..], kept[1..], redact), redact))))
  }

  lemma JoinSize(first: string, rest: seq<string>)
    ensures |Join([first] + rest, SEPARATOR)| ==
            |first| + (if rest == [] then 0 else |SEPARATOR|) + |Join(rest, SEPARATOR)|
  {
    Cons(first, rest);
  }

  /** Bytes of fragments joined by separators of seven. */
  function SizeOf(fragments: seq<string>): nat {
    if fragments == [] then 0
    else |fragments[0]| + (if |fragments| == 1 then 0 else 7) + SizeOf(fragments[1..])
  }

  lemma {:induction false} JoinedSize(fragments: seq<string>)
    ensures |Join(fragments, SEPARATOR)| == SizeOf(fragments)
  {
    if fragments == [] {
    } else {
      JoinedSize(fragments[1..]);
      JoinSize(fragments[0], fragments[1..]);
      assert fragments == [fragments[0]] + fragments[1..];
    }
  }

  /** A message fits when its role, a colon, a line feed and its text, as they are and
      redacted, leave the transcript within 256 KiB. */
  lemma FitsExactly(m: Message, newer: seq<string>, redact: string -> string)
    ensures var before := SizeOf(newer) + if newer == [] then 0 else 7;
      Fits(m, newer, redact) <==>
        && |m.role| + 2 + |m.text| + before <= 262_144
        && |m.role| + 2 + |redact(m.text)| + before <= 262_144
  {
    JoinedSize(newer);
    JoinSize(RawFragment(m), newer);
    JoinSize(Fragment(m, redact), newer);
  }

  /** A fragment shows the role up to its first colon, and of the text what redaction left. */
  lemma FragmentReads(m: Message, redact: string -> string)
    requires Travels(m)
    ensures var f := Fragment(m, redact);
      IndexOf(f, ':') == |m.role| && f[..|m.role|] == m.role && f[|m.role|..|m.role| + 2] == ":\n" &&
      f[|m.role| + 2..] == redact(m.text)
  {
    assert forall c <- "user" + "assistant" + "tool" :: c != ':';
    forall i | 0 <= i < |m.role| ensures m.role[i] != ':' {
      assert Lower(m.role)[i] == LowerChar(m.role[i]) && Lower(m.role)[i] in "user" + "assistant" + "tool";
    }
    assert Fragment(m, redact) == m.role + [':'] + (['\n'] + redact(m.text));
    IndexOfFirst(m.role, ':', ['\n'] + redact(m.text));
  }

  method SelectFragments(ms: seq<Message>, redact: string -> string)
    returns (fragments: seq<string>, omitted: nat, ghost kept: seq<bool>)
    ensures Greedy(ms, kept, redact)
    ensures fragments == Kept(ms, kept, redact)
    ensures |Join(fragments, SEPARATOR)| <= MAX_BYTES
    ensures |fragments| + omitted == |ms|
  {
    fragments := [];
    omitted := 0;
    kept := [];
    var used := 0;
    var i := |ms|;
    while i > 0
      invariant 0 <= i <= |ms|
      invariant Greedy(ms[i..], kept, redact)
      invariant fragments == Kept(ms[i..], kept, redact)
      invariant used == |Join(fragments, SEPARATOR)| <= MAX_BYTES
      invariant |fragments| + omitted == |ms| - i
    {
      i := i - 1;
      var m := ms[i];
      Cons(m, ms[i + 1..]);
      assert ms[i..] == [m] + ms[i + 1..];
      Cons(true, kept);
      Cons(false, kept);
      JoinSize(RawFragment(m), fragments);
      JoinSize(Fragment(m, redact), fragments);
      var separator := if fragments == [] then 0 else |SEPARATOR|;
      if used + separator + (|m.role| + 2 + |m.text|) > MAX_BYTES {
        omitted := omitted + 1;
        kept := [false] + kept;
        continue;
      }
      var fragment := m.role + ":\n" + redact(m.text);
      if used + separator + |fragment| > MAX_BYTES {
        omitted := omitted + 1;
        kept := [false] + kept;
        continue;
      }
      used := used + separator + |fragment|;
      fragments := [fragment] + fragments;
      kept := [true] + kept;
    }
    assert ms[0..] == ms;
  }

  /** The counts account for every message, the transcript is within its budget, and
      it is the kept candidates, in order, and nothing else. */
  method SelectHandoffTranscript(messages: seq<Message>, arg: string, windows: bool, redact: string -> string)
    returns (s: Selection, ghost kept: seq<bool>)
    ensures var candidates := Candidates(messages, arg, windows);
      && Greedy(candidates, kept, redact)
      && s.transcript == Join(Kept(candidates, kept, redact), SEPARATOR)
      && s.included == |Kept(candidates, kept, redact)|
    ensures |s.transcript| <= MAX_BYTES && s.included <= MAX_MESSAGES
    ensures s.included + s.omittedBudget + s.omittedSelection == |Transferable(messages)|
    ensures s.included + s.omittedBudget == |Candidates(messages, arg, windows)|
    ensures s.excludedRole + |Transferable(messages)| == |messages|
  {
    var transferable := Transferable(messages);
    var candidates := LastOnes(transferable, EffectiveLimit(arg, windows));
    var fragments, omitted;
    fragments, omitted, kept := SelectFragments(candidates, redact);
    s := Selection(Join(fragments, SEPARATOR), |fragments|, |messages| - |transferable|,
                   |transferable| - |candidates|, omitted);
  }

  // ----- What the selection is -----

  /** There is only one greedy selection. */
  lemma {:induction false} GreedyIsUnique(ms: seq<Message>, kept: seq<bool>, other: seq<bool>, redact: string -> string)
    requires Greedy(ms, kept, redact) && Greedy(ms, other, redact)
    ensures kept == other
    decreases |ms|
  {
    if ms == [] {
    } else {
      GreedyIsUnique(ms[1..], kept[1..], other[1..], redact);
      assert kept == [kept[0]] + kept[1..] && other == [other[0]] + other[1..];
    }
  }

  /** A selection in which every kept message fits before the newer ones kept. */
  ghost predicate Feasible(ms: seq<Message>, kept: seq<bool>, redact: string -> string) {
    && |ms| == |kept|
    && (ms == [] ||
        (&& Feasible(ms[1..], kept[1..], redact)
         && (kept[0] ==> Fits(ms[0], Kept(ms[1..], kept[1..], redact), redact))))
  }

  /** Of all selections that fit, the one made favours the newest messages: where
      another first differs from it, newest first, the other leaves a message out. */
  lemma {:induction false} GreedyFavoursNewest(ms: seq<Message>, kept: seq<bool>, other: seq<bool>,
      redact: string -> string)
    requires Greedy(ms, kept, redact) && Feasible(ms, other, redact)
    ensures Feasible(ms, kept, redact)
    ensures kept == other || exists j | 0 <= j < |ms| :: kept[j] && !other[j] && kept[j + 1..] == other[j + 1..]
    decreases |ms|
  {
    if ms == [] {
    } else {
      GreedyFavoursNewest(ms[1..], kept[1..], other[1..], redact);
      assert kept == [kept[0]] + kept[1..] && other == [other[0]] + other[1..];
      if kept[1..] == other[1..] {
        if kept[0] != other[0] {
          assert kept[0] && !other[0] && kept[0 + 1..] == other[0 + 1..];
        }
      } else {
        var j :| 0 <= j < |ms[1..]| && kept[1..][j] && !other[1..][j] && kept[1..][j + 1..] == other[1..][j + 1..];
        assert kept[j + 2..] == kept[1..][j + 1..] && other[j + 2..] == other[1..][j + 1..];
        assert kept[j + 1] && !other[j + 1] && kept[(j + 1) + 1..] == other[(j + 1) + 1..];
      }
    }
  }

  /** The positions of the messages kept, counted from `start`. */
  ghost function KeptAt(kept: seq<bool>, start: nat): seq<nat>
    decreases |kept|
  {
    if kept == [] then [] else (if kept[0] then [start] else []) + KeptAt(kept[1..], start + 1)
  }

  lemma {:induction false} KeptAtAscends(kept: seq<bool>, start: nat)
    ensures forall k | 0 <= k < |KeptAt(kept, start)| :: start <= KeptAt(kept, start)[k] < start + |kept|
    ensures forall k, l | 0 <= k < l < |KeptAt(kept, start)| :: KeptAt(kept, start)[k] < KeptAt(kept, start)[l]
    decreases |kept|
  {
    if kept == [] {
    } else {
      KeptAtAscends(kept[1..], start + 1);
    }
  }

  lemma {:induction false} KeptFragmentAt(ms: seq<Message>, kept: seq<bool>, redact: string -> string, start: nat,
      k: nat)
    requires |ms| == |kept| && k < |KeptAt(kept, start)|
    ensures |KeptAt(kept, start)| == |Kept(ms, kept, redact)|
    ensures start <= KeptAt(kept, start)[k] < start + |ms|
    ensures Kept(ms, kept, redact)[k] == Fragment(ms[KeptAt(kept, start)[k] - start], redact)
    decreases |ms|
  {
    KeptCounts(ms, kept, redact, start);
    KeptAtAscends(kept, start);
    if !kept[0] {
      KeptFragmentAt(ms[1..], kept[1..], redact, start + 1, k);
    } else if k > 0 {
      KeptFragmentAt(ms[1..], kept[1..], redact, start + 1, k - 1);
    }
  }

  lemma {:induction false} KeptCounts(ms: seq<Message>, kept: seq<bool>, redact: string -> string, start: nat)
    requires |ms| == |kept|
    ensures |KeptAt(kept, start)| == |Kept(ms, kept, redact)|
    decreases |ms|
  {
    if ms == [] {
    } else {
      KeptCounts(ms[1..], kept[1..], redact, start + 1);
    }
  }

  /** The transcript's fragments are those of an ascending choice of candidates. */
  lemma KeptInOrder(ms: seq<Message>, kept: seq<bool>, redact: string -> string)
    requires |ms| == |kept|
    ensures var at := KeptAt(kept, 0);
      && |Kept(ms, kept, redact)| == |at|
      && (forall k, l | 0 <= k < l < |at| :: at[k] < at[l])
      && (forall k | 0 <= k < |at| :: at[k] < |ms| && Kept(ms, kept, redact)[k] == Fragment(ms[at[k]], redact))
  {
    KeptCounts(ms, kept, redact, 0);
    KeptAtAscends(kept, 0);
    forall k | 0 <= k < |KeptAt(kept, 0)|
      ensures KeptAt(kept, 0)[k] < |ms| && Kept(ms, kept, redact)[k] == Fragment(ms[KeptAt(kept, 0)[k]], redact)
    {
      KeptFragmentAt(ms, kept, redact, 0, k);
    }
  }
}
