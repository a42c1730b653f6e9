/** How agent definitions, which anyone can put in a repository, may only narrow
    what a session is allowed to do. */
module Authority {
  import opened Wrappers
  import opened Text

  datatype Mode = Default | Plan | AcceptEdits | BypassPermissions | DontAsk

  function Autonomy(m: Mode): nat {
    match m
    case Plan => 0
    case DontAsk => 1
    case Default => 2
    case AcceptEdits => 3
    case BypassPermissions => 4
  }

  predicate IsLooserThan(m: Mode, other: Mode) {
    Autonomy(m) > Autonomy(other)
  }

  function Within(m: Mode, pinned: Option<Mode>): Mode {
    if pinned.Some? && Autonomy(m) > Autonomy(pinned.value) then pinned.value else m
  }

  /** The mode a session file may hold: bypass is never written. */
  function Storable(m: Mode, lastStored: Option<Mode>): Mode {
    if m != BypassPermissions then m
    else if lastStored.Some? && lastStored.value != BypassPermissions then lastStored.value
    else Default
  }

  function WithoutHyphens(s: string): string {
    if s == "" then "" else (if s[0] == '-' || s[0] == '_' then "" else [s[0]]) + WithoutHyphens(s[1..])
  }

  function ModeOfWord(word: string): (m: Option<Mode>)
    ensures m != Some(BypassPermissions)
  {
    if word == "default" || word == "ask" || word == "suggest" then Some(Default)
    else if word == "plan" then Some(Plan)
    else if word == "acceptedits" || word == "auto" then Some(AcceptEdits)
    else if word == "dontask" then Some(DontAsk)
    else None
  }

  /** A mode read from configuration. None of the words means bypass. */
  function PersistedMode(raw: string): (m: Option<Mode>)
    ensures m != Some(BypassPermissions)
  {
    ModeOfWord(WithoutHyphens(Lower(Trim(raw))))
  }

  /** The mode a definition asks for, when it names one that configuration may name. */
  type Ask = ask: Option<Mode> | ask != Some(BypassPermissions) witness None

  /** What an agent definition asks for. */
  datatype Definition = Definition(
    permissionMode: Option<string>,
    tools: Option<seq<string>>,
    disallowedTools: Option<seq<string>>,
    mcpServers: Option<seq<string>>,
    maxTurns: Option<nat>,
    maxBudgetUsd: Option<real>)

  datatype Grants = Grants(
    permissionMode: Mode,
    skipPermissions: bool,
    autoApproveSafe: bool,
    planMode: bool,
    planApproved: bool,
    pinned: Option<Mode>)

  datatype Limits = Limits(
    allowedTools: Option<seq<string>>,
    disallowedTools: seq<string>,
    allowedMcpServers: Option<seq<string>>,
    maxTurns: Option<nat>,
    maxBudgetUsd: Option<real>)

  // ----- Permission modes -----

  predicate SkipsApproval(g: Grants) {
    g.skipPermissions && g.pinned.None?
  }

  /** The mode a session really runs in. */
  function Effective(g: Grants): Mode {
    if SkipsApproval(g) then BypassPermissions else Within(g.permissionMode, g.pinned)
  }

  function Requested(d: Definition): Ask {
    match d.permissionMode case Some(raw) => PersistedMode(raw) case None => None
  }

  /** A looser mode, an unknown one and the present one change nothing. */
  function Narrow(g: Grants, ask: Ask): Grants {
    if ask.None? || IsLooserThan(ask.value, Effective(g)) || ask.value == Effective(g) then g
    else
      var narrowed := g.(permissionMode := ask.value, skipPermissions := false,
                         autoApproveSafe := ask.value == AcceptEdits || ask.value == DontAsk);
      if ask.value == Plan then narrowed.(planMode := true, planApproved := false) else narrowed
  }

  function NarrowAll(g: Grants, asks: seq<Ask>): Grants {
    if asks == [] then g else Narrow(NarrowAll(g, asks[..|asks| - 1]), asks[|asks| - 1])
  }

  /** `m` is the strictest of the mode a session starts in and those asked for. */
  ghost predicate IsStrictest(m: Mode, start: Mode, asks: seq<Ask>) {
    && (m == start || Some(m) in asks)
    && Autonomy(m) <= Autonomy(start)
    && forall ask <- asks :: ask.Some? ==> Autonomy(m) <= Autonomy(ask.value)
  }

  lemma StrictestIsUnique(m: Mode, n: Mode, start: Mode, asks: seq<Ask>)
    requires IsStrictest(m, start, asks) && IsStrictest(n, start, asks)
    ensures m == n
  {
    assert Autonomy(m) == Autonomy(n);
  }

  lemma NarrowStep(g: Grants, ask: Ask)
    ensures Narrow(g, ask).pinned == g.pinned
    ensures Effective(Narrow(g, ask)) ==
            if ask.Some? && Autonomy(ask.value) < Autonomy(Effective(g)) then ask.value else Effective(g)
    ensures g.pinned.Some? ==> Autonomy(Effective(g)) <= Autonomy(g.pinned.value)
  {
  }

  /** Whatever definitions are applied in whatever order, the session ends in the
      strictest mode among its own and those asked for, within its pin. */
  lemma {:induction false} NarrowingIsTheStrictest(g: Grants, asks: seq<Ask>)
    ensures IsStrictest(Effective(NarrowAll(g, asks)), Effective(g), asks)
    ensures NarrowAll(g, asks).pinned == g.pinned
    ensures g.pinned.Some? ==> Autonomy(Effective(NarrowAll(g, asks))) <= Autonomy(g.pinned.value)
  {
    if asks == [] {
      NarrowStep(g, None);
    } else {
      var before, last := asks[..|asks| - 1], asks[|asks| - 1];
      NarrowingIsTheStrictest(g, before);
      NarrowStep(NarrowAll(g, before), last);
      NarrowStep(NarrowAll(g, asks), None);
      assert asks == before + [last];
    }
  }

  // ----- What narrowing means for a session -----

  /** The modes in which files are changed without asking. */
  predicate EditsUnasked(m: Mode) {
    m == AcceptEdits || m == BypassPermissions
  }

  /** A definition may take a session from bypass anywhere, from accepting edits to
      asking for them, from asking to refusing, and from anywhere to planning. */
  predicate Lowers(present: Mode, asked: Mode) {
    match present
    case BypassPermissions => asked != BypassPermissions
    case AcceptEdits => asked == Default || asked == DontAsk || asked == Plan
    case Default => asked == DontAsk || asked == Plan
    case DontAsk => asked == Plan
    case Plan => false
  }

  /** A session runs without approvals, or in its own mode, unless its pin lowers that. */
  lemma RunsInExactly(g: Grants)
    ensures match g.pinned
      case None => Effective(g) == if g.skipPermissions then BypassPermissions else g.permissionMode
      case Some(pin) => Effective(g) == if Lowers(g.permissionMode, pin) then pin else g.permissionMode
  {
  }

  /** One definition changes the session exactly when its mode lowers the present one,
      which the session then has, with the settings that belong to it. */
  lemma NarrowsExactly(g: Grants, ask: Ask)
    ensures var g' := Narrow(g, ask);
      if ask.Some? && Lowers(Effective(g), ask.value) then
        && Effective(g') == g'.permissionMode == ask.value
        && !g'.skipPermissions && g'.pinned == g.pinned
        && (g'.autoApproveSafe <==> ask.value == AcceptEdits || ask.value == DontAsk)
        && (if ask.value == Plan then g'.planMode && !g'.planApproved
            else g'.planMode == g.planMode && g'.planApproved == g.planApproved)
      else g' == g
  {
  }

  /** No definitions, in whatever order, let a session change files unasked that did
      not, take it out of planning, or bring it to bypass. */
  lemma {:induction false} NarrowingNeverWidens(g: Grants, asks: seq<Ask>)
    ensures EditsUnasked(Effective(NarrowAll(g, asks))) ==> EditsUnasked(Effective(g))
    ensures Effective(g) == Plan ==> NarrowAll(g, asks) == g
    ensures Effective(NarrowAll(g, asks)) == BypassPermissions ==> Effective(g) == BypassPermissions
  {
    if asks == [] {
    } else {
      NarrowingNeverWidens(g, asks[..|asks| - 1]);
      NarrowsExactly(NarrowAll(g, asks[..|asks| - 1]), asks[|asks| - 1]);
    }
  }

  // ----- Words for modes -----

  /** The words configuration may use for a mode; bypass has none. */
  function WordsFor(m: Mode): seq<string> {
    match m
    case Default => ["default", "ask", "suggest"]
    case Plan => ["plan"]
    case AcceptEdits => ["acceptedits", "auto"]
    case DontAsk => ["dontask"]
    case BypassPermissions => []
  }

  /** `raw` is `word` but for the case of its letters, hyphens and underscores. */
  predicate Spelled(raw: string, word: string)
    decreases |raw|
  {
    if raw == "" then word == ""
    else if raw[0] == '-' || raw[0] == '_' then Spelled(raw[1..], word)
    else word != "" && LowerChar(raw[0]) == word[0] && Spelled(raw[1..], word[1..])
  }

  lemma {:induction false} SpelledExactly(raw: string, word: string)
    ensures WithoutHyphens(Lower(raw)) == word <==> Spelled(raw, word)
    decreases |raw|
  {
    if raw == "" {
    } else {
      assert Lower(raw)[1..] == Lower(raw[1..]);
      if raw[0] == '-' || raw[0] == '_' {
        SpelledExactly(raw[1..], word);
      } else {
        var rest := WithoutHyphens(Lower(raw[1..]));
        Cons(LowerChar(raw[0]), rest);
        if word != "" {
          SpelledExactly(raw[1..], word[1..]);
          assert word == [word[0]] + word[1..];
        }
      }
    }
  }

  lemma WordsAreModes(word: string, m: Mode)
    ensures ModeOfWord(word) == Some(m) <==> word in WordsFor(m)
  {
  }

  /** A text names a mode exactly when it is one of its words, in whatever spelling. */
  lemma ModeReadsExactly(raw: string, m: Mode)
    ensures PersistedMode(raw) == Some(m) <==> exists word <- WordsFor(m) :: Spelled(Trim(raw), word)
  {
    WordsAreModes(WithoutHyphens(Lower(Trim(raw))), m);
    forall word <- WordsFor(m) { SpelledExactly(Trim(raw), word); }
  }

  /** Once a definition has lowered a session, its approvals are never skipped again. */
  lemma BypassStaysGone(g: Grants, first: Ask, asks: seq<Ask>)
    requires Narrow(g, first) != g
    ensures !SkipsApproval(NarrowAll(Narrow(g, first), asks))
    ensures Effective(NarrowAll(Narrow(g, first), asks)) != BypassPermissions
  {
    NarrowStep(g, first);
    NarrowingIsTheStrictest(Narrow(g, first), asks);
    NeverSkipsAgain(Narrow(g, first), asks);
  }

  lemma {:induction false} NeverSkipsAgain(g: Grants, asks: seq<Ask>)
    requires !g.skipPermissions
    ensures !NarrowAll(g, asks).skipPermissions
  {
    if asks == [] {
    } else {
      NeverSkipsAgain(g, asks[..|asks| - 1]);
    }
  }

  /** Neither the order of definitions nor repeating them makes a difference to the mode. */
  lemma OrderMakesNoDifference(g: Grants, asks: seq<Ask>, others: seq<Ask>)
    requires forall ask :: ask in asks <==> ask in others
    ensures Effective(NarrowAll(g, asks)) == Effective(NarrowAll(g, others))
  {
    NarrowingIsTheStrictest(g, asks);
    NarrowingIsTheStrictest(g, others);
    StrictestIsUnique(Effective(NarrowAll(g, asks)), Effective(NarrowAll(g, others)), Effective(g), asks);
  }

  /** Permissions held to the managed pin before a session starts. */
  function HeldTo(g: Grants): Grants {
    if g.pinned.None? then g
    else g.(permissionMode := Within(g.permissionMode, g.pinned), skipPermissions := false)
  }

  /** Holding a session to its pin beforehand takes away what the pin refuses anyway:
      through any definitions it runs in the same mode as if it had not been. */
  lemma HoldingChangesNoMode(g: Grants, asks: seq<Ask>)
    ensures Effective(NarrowAll(HeldTo(g), asks)) == Effective(NarrowAll(g, asks))
    ensures g.pinned.Some? ==>
            !HeldTo(g).skipPermissions && Autonomy(HeldTo(g).permissionMode) <= Autonomy(g.pinned.value)
  {
    assert Effective(HeldTo(g)) == Effective(g);
    NarrowingIsTheStrictest(HeldTo(g), asks);
    NarrowingIsTheStrictest(g, asks);
    StrictestIsUnique(Effective(NarrowAll(HeldTo(g), asks)), Effective(NarrowAll(g, asks)), Effective(g), asks);
  }

  // ----- What a session file holds -----

  function StoreAll(modes: seq<Mode>, stored: Option<Mode>): Option<Mode> {
    if modes == [] then stored else Some(Storable(modes[|modes| - 1], StoreAll(modes[..|modes| - 1], stored)))
  }

  /** The last of the modes that is not bypass. */
  function LastNotBypass(modes: seq<Mode>): Option<Mode> {
    if modes == [] then None
    else if modes[|modes| - 1] != BypassPermissions then Some(modes[|modes| - 1])
    else LastNotBypass(modes[..|modes| - 1])
  }

  /** However often a session is saved, its file holds the last mode that was not
      bypass, and bypass never. */
  lemma {:induction false} FileNeverHoldsBypass(modes: seq<Mode>, stored: Option<Mode>)
    requires modes != []
    ensures StoreAll(modes, stored) != Some(BypassPermissions)
    ensures StoreAll(modes, stored) ==
            if LastNotBypass(modes).Some? then LastNotBypass(modes)
            else if stored.Some? && stored.value != BypassPermissions then stored
            else Some(Default)
  {
    if |modes| <= 1 {
    } else {
      FileNeverHoldsBypass(modes[..|modes| - 1], stored);
    }
  }

  // ----- Limits of a subagent -----

  function Keep(items: seq<string>, allowed: seq<string>): (kept: seq<string>)
    ensures forall x :: x in kept <==> x in items && x in allowed
  {
    if items == [] then []
    else
      var rest := Keep(items[1..], allowed);
      if items[0] in allowed then [items[0]] + rest else rest
  }

  function Intersect(parent: Option<seq<string>>, own: Option<seq<string>>): Option<seq<string>> {
    if own.None? then parent
    else if parent.None? then own
    else Some(Keep(parent.value, own.value))
  }

  /** Appends what is not there yet. */
  function Union(denied: seq<string>, more: seq<string>): (r: seq<string>)
    ensures forall x :: x in r <==> x in denied || x in more
    ensures denied <= r
    decreases |more|
  {
    if more == [] then denied
    else Union(if more[0] in denied then denied else denied + [more[0]], more[1..])
  }

  /** Denying again what is denied adds nothing. */
  lemma {:induction false} UnionAddsNoneTwice(denied: seq<string>, more: seq<string>)
    requires forall i, j | 0 <= i < j < |denied| :: denied[i] != denied[j]
    ensures forall i, j | 0 <= i < j < |Union(denied, more)| :: Union(denied, more)[i] != Union(denied, more)[j]
    decreases |more|
  {
    if more == [] {
    } else {
      UnionAddsNoneTwice(if more[0] in denied then denied else denied + [more[0]], more[1..]);
    }
  }

  function LeastNat(a: Option<nat>, b: Option<nat>): Option<nat> {
    if b.None? then a else if a.None? then b else Some(if a.value < b.value then a.value else b.value)
  }

  function LeastReal(a: Option<real>, b: Option<real>): Option<real> {
    if b.None? then a else if a.None? then b else Some(if a.value < b.value then a.value else b.value)
  }

  function Restrict(l: Limits, d: Definition): Limits {
    Limits(Intersect(l.allowedTools, d.tools),
           Union(l.disallowedTools, if d.disallowedTools.Some? then d.disallowedTools.value else []),
           Intersect(l.allowedMcpServers, d.mcpServers),
           LeastNat(l.maxTurns, d.maxTurns),
           LeastReal(l.maxBudgetUsd, d.maxBudgetUsd))
  }

  function RestrictAll(l: Limits, ds: seq<Definition>): Limits {
    if ds == [] then l else Restrict(RestrictAll(l, ds[..|ds| - 1]), ds[|ds| - 1])
  }

  /** Where no list is given, everything is allowed. */
  predicate Lets(allowed: Option<seq<string>>, x: string) {
    allowed.None? || x in allowed.value
  }

  /** A chain of definitions lets through exactly what the parent and every one of
      them lets through, whatever their order and however often one is applied. */
  lemma {:induction false} RestrictingIsTheMeet(l: Limits, ds: seq<Definition>, x: string)
    ensures var r := RestrictAll(l, ds);
      && (Lets(r.allowedTools, x) <==> Lets(l.allowedTools, x) && forall d <- ds :: Lets(d.tools, x))
      && (Lets(r.allowedMcpServers, x) <==> Lets(l.allowedMcpServers, x) && forall d <- ds :: Lets(d.mcpServers, x))
      && (x in r.disallowedTools <==>
            x in l.disallowedTools || exists d <- ds :: d.disallowedTools.Some? && x in d.disallowedTools.value)
  {
    if ds == [] {
    } else {
      RestrictingIsTheMeet(l, ds[..|ds| - 1], x);
      assert forall d :: d in ds <==> d in ds[..|ds| - 1] || d == ds[|ds| - 1];
    }
  }

  predicate Caps(limit: Option<nat>, n: nat) {
    limit.Some? ==> n <= limit.value
  }

  predicate CapsSpend(limit: Option<real>, x: real) {
    limit.Some? ==> x <= limit.value
  }

  /** The same for turns and spending: exactly what all of them allow. */
  lemma {:induction false} RestrictingTakesTheLeast(l: Limits, ds: seq<Definition>, turns: nat, spend: real)
    ensures var r := RestrictAll(l, ds);
      && (Caps(r.maxTurns, turns) <==> Caps(l.maxTurns, turns) && forall d <- ds :: Caps(d.maxTurns, turns))
      && (CapsSpend(r.maxBudgetUsd, spend) <==>
            (CapsSpend(l.maxBudgetUsd, spend) && forall d <- ds :: CapsSpend(d.maxBudgetUsd, spend)))
  {
    if ds == [] {
    } else {
      RestrictingTakesTheLeast(l, ds[..|ds| - 1], turns, spend);
      assert forall d :: d in ds <==> d in ds[..|ds| - 1] || d == ds[|ds| - 1];
    }
  }

  // ----- A session as it is changed -----

  class Session {
    var permissionMode: Mode
    var skipPermissions: bool
    var autoApproveSafe: bool
    var planMode: bool
    var planApproved: bool
    var allowedTools: Option<seq<string>>
    var disallowedTools: seq<string>
    var allowedMcpServers: Option<seq<string>>
    var maxTurns: Option<nat>
    var maxBudgetUsd: Option<real>
    const pinned: Option<Mode>

    constructor (g: Grants, l: Limits)
      ensures Permissions() == g && Limit() == l
    {
      permissionMode, skipPermissions, autoApproveSafe := g.permissionMode, g.skipPermissions, g.autoApproveSafe;
      planMode, planApproved, pinned := g.planMode, g.planApproved, g.pinned;
      allowedTools, disallowedTools, allowedMcpServers := l.allowedTools, l.disallowedTools, l.allowedMcpServers;
      maxTurns, maxBudgetUsd := l.maxTurns, l.maxBudgetUsd;
    }

    function Permissions(): Grants
      reads this
    {
      Grants(permissionMode, skipPermissions, autoApproveSafe, planMode, planApproved, pinned)
    }

    ghost function Limit(): Limits
      reads this
    {
      Limits(allowedTools, disallowedTools, allowedMcpServers, maxTurns, maxBudgetUsd)
    }

    method NarrowTo(requested: Ask)
      modifies `permissionMode, `skipPermissions, `autoApproveSafe, `planMode, `planApproved
      ensures Permissions() == Narrow(old(Permissions()), requested)
    {
      if requested.None? {
        return;
      }
      var current := if skipPermissions && pinned.None? then BypassPermissions else Within(permissionMode, pinned);
      if IsLooserThan(requested.value, current) || requested.value == current {
        return;
      }
      permissionMode := requested.value;
      skipPermissions := false;
      autoApproveSafe := requested.value == AcceptEdits || requested.value == DontAsk;
      if requested.value == Plan {
        planMode := true;
        planApproved := false;
      }
    }

    method NarrowPermissionMode(d: Definition)
      modifies `permissionMode, `skipPermissions, `autoApproveSafe, `planMode, `planApproved
      ensures Permissions() == Narrow(old(Permissions()), Requested(d))
    {
      NarrowTo(Requested(d));
    }

    method AllowTools(tools: Option<seq<string>>)
      modifies `allowedTools
      ensures allowedTools == Intersect(old(allowedTools), tools)
    {
      if tools.Some? {
        allowedTools := Some(if allowedTools.Some? then Keep(allowedTools.value, tools.value) else tools.value);
      }
    }

    method AllowServers(servers: Option<seq<string>>)
      modifies `allowedMcpServers
      ensures allowedMcpServers == Intersect(old(allowedMcpServers), servers)
    {
      if servers.Some? {
        allowedMcpServers :=
          Some(if allowedMcpServers.Some? then Keep(allowedMcpServers.value, servers.value) else servers.value);
      }
    }

    method DenyTools(tools: seq<string>)
      modifies `disallowedTools
      ensures disallowedTools == Union(old(disallowedTools), tools)
    {
      for i := 0 to |tools|
        invariant Union(old(disallowedTools), tools) == Union(disallowedTools, tools[i..])
      {
        if tools[i] !in disallowedTools {
          disallowedTools := disallowedTools + [tools[i]];
        }
      }
    }

    method CapTurns(limit: Option<nat>)
      modifies `maxTurns
      ensures maxTurns == LeastNat(old(maxTurns), limit)
    {
      if limit.Some? {
        maxTurns := Some(if maxTurns.Some? && maxTurns.value < limit.value then maxTurns.value else limit.value);
      }
    }

    method CapSpend(limit: Option<real>)
      modifies `maxBudgetUsd
      ensures maxBudgetUsd == LeastReal(old(maxBudgetUsd), limit)
    {
      if limit.Some? {
        maxBudgetUsd :=
          Some(if maxBudgetUsd.Some? && maxBudgetUsd.value < limit.value then maxBudgetUsd.value else limit.value);
      }
    }

    /** Neither the model nor the permission mode of a definition is taken here. */
    method ApplyToSubagent(d: Definition)
      modifies `allowedTools, `disallowedTools, `allowedMcpServers, `maxTurns, `maxBudgetUsd
      ensures Limit() == Restrict(old(Limit()), d)
    {
      AllowTools(d.tools);
      DenyTools(if d.disallowedTools.Some? then d.disallowedTools.value else []);
      AllowServers(d.mcpServers);
      CapTurns(d.maxTurns);
      CapSpend(d.maxBudgetUsd);
    }
  }
}
