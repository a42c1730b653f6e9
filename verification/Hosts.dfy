/** Deciding by a workspace policy which servers and connectors may be used. */
module Hosts {
  import opened Wrappers
  import opened Text

  datatype Policy = Policy(
    allowedConnectors: seq<string>,
    blockedConnectors: seq<string>,
    allowCustomConnectors: bool,
    allowedMcpHosts: seq<string>)

  datatype Decision =
    | Allowed | Ungoverned
    | ConnectorBlocked | ConnectorNotAllowed | CustomConnectorsDisabled | McpHostNotAllowed

  predicate Permits(d: Decision) {
    d.Allowed? || d.Ungoverned?
  }

  // ----- The host of an address -----

  /** The index of the first `://`, or the length of `s`. */
  function SchemeEnd(s: string): (i: nat)
    ensures i <= |s|
    ensures i < |s| ==> i + 3 <= |s| && s[i..i + 3] == "://"
  {
    if |s| < 3 then |s|
    else if s[..3] == "://" then 0
    else
      var i := 1 + SchemeEnd(s[1..]);
      assert i < |s| ==> s[i..i + 3] == s[1..][i - 1..i + 2];
      i
  }

  predicate EndsAuthority(c: char) {
    c == '/' || c == '?' || c == '#'
  }

  function Authority(s: string): string {
    if s == "" || EndsAuthority(s[0]) then "" else [s[0]] + Authority(s[1..])
  }

  function AfterLastAt(s: string): string {
    if s == "" || s[|s| - 1] == '@' then "" else AfterLastAt(s[..|s| - 1]) + [s[|s| - 1]]
  }

  /** The host of an authority without user information, up to its port. */
  function HostIn(authority: string): string {
    if authority != "" && authority[0] == '[' then UpTo(authority[1..], ']') else UpTo(authority, ':')
  }

  function UpTo(s: string, c: char): string {
    s[..IndexOf(s, c)]
  }

  function HostnameOf(url: string): string {
    var i := SchemeEnd(url);
    if i == 0 || i + 3 >= |url| then "" else Lower(HostIn(AfterLastAt(Authority(url[i + 3..]))))
  }

  // ----- Matching a host -----

  function Normalize(value: string): string {
    Lower(Trim(value))
  }

  function WithoutFinalDot(s: string): string {
    if s != "" && s[|s| - 1] == '.' then s[..|s| - 1] else s
  }

  predicate McpHostMatches(pattern: string, hostname: string) {
    var rule := Normalize(pattern);
    var host := WithoutFinalDot(Normalize(hostname));
    if rule == "" || host == "" then false
    else if StartsWith(rule, "*.") then EndsWith(host, rule[1..]) && |host| > |rule[1..]|
    else host == rule
  }

  predicate MatchedBySome(hosts: seq<string>, hostname: string) {
    hostname != "" && exists i | 0 <= i < |hosts| :: McpHostMatches(hosts[i], hostname)
  }

  function EvaluateMcpHost(policy: Option<Policy>, url: string): Decision {
    if policy.None? then Ungoverned
    else if policy.value.allowedMcpHosts == [] then Allowed
    else if MatchedBySome(policy.value.allowedMcpHosts, HostnameOf(url)) then Allowed
    else McpHostNotAllowed
  }

  predicate Has(entries: seq<string>, value: string) {
    value != "" && exists i | 0 <= i < |entries| :: Normalize(entries[i]) == value
  }

  function EvaluateConnector(policy: Option<Policy>, id: string, isCustom: bool, url: Option<string>): Decision {
    if policy.None? then Ungoverned
    else
      var rules, connector := policy.value, Normalize(id);
      if isCustom && !rules.allowCustomConnectors then CustomConnectorsDisabled
      else if isCustom && url.Some? && url.value != "" && !Permits(EvaluateMcpHost(policy, url.value)) then
        EvaluateMcpHost(policy, url.value)
      else if Has(rules.blockedConnectors, connector) then ConnectorBlocked
      else if Has(rules.allowedConnectors, connector) then Allowed
      else if rules.allowedConnectors != [] then ConnectorNotAllowed
      else Allowed
  }

  // ----- Addresses put together from their parts -----

  datatype Host = Name(name: string) | Bracketed(address: string)

  datatype Address = Address(scheme: string, userinfo: Option<string>, host: Host, port: Option<string>, tail: string)

  function HostText(h: Host): string {
    match h
    case Name(name) => name
    case Bracketed(address) => ['['] + (address + [']'])
  }

  function HostValue(h: Host): string {
    match h
    case Name(name) => name
    case Bracketed(address) => address
  }

  function UserText(a: Address): string {
    if a.userinfo.Some? then a.userinfo.value + ['@'] else ""
  }

  function PortText(a: Address): string {
    if a.port.Some? then [':'] + a.port.value else ""
  }

  /** Section 3.2 of RFC 3986: scheme, authority, and path, query and fragment. */
  function AddressText(a: Address): string {
    a.scheme + ("://" + (UserText(a) + (HostText(a.host) + PortText(a)) + a.tail))
  }

  /** A slash, a question mark or a number sign ends an authority. */
  predicate Delimits(c: char) {
    c in ['/', '?', '#']
  }

  predicate InAuthority(s: string) {
    forall i | 0 <= i < |s| :: !Delimits(s[i])
  }

  predicate ValidAddress(a: Address) {
    && a.scheme != "" && ':' !in a.scheme
    && (a.userinfo.Some? ==> InAuthority(a.userinfo.value))
    && InAuthority(HostValue(a.host)) && '@' !in HostValue(a.host)
    && (a.port.Some? ==> InAuthority(a.port.value) && '@' !in a.port.value)
    && (match a.host
        case Name(name) => ':' !in name && (name == "" || name[0] != '[')
        case Bracketed(address) => ']' !in address)
    && (a.tail == "" || Delimits(a.tail[0]))
  }

  lemma {:induction false} SchemeEndOf(scheme: string, rest: string)
    requires ':' !in scheme
    ensures SchemeEnd(scheme + ("://" + rest)) == |scheme|
  {
    var s := scheme + ("://" + rest);
    if scheme == "" {
      assert s[..3] == "://";
    } else {
      assert s[0] == scheme[0] && scheme[0] in scheme;
      assert s[1..] == scheme[1..] + ("://" + rest);
      SchemeEndOf(scheme[1..], rest);
    }
  }

  lemma {:induction false} AuthorityOf(authority: string, tail: string)
    requires InAuthority(authority) && (tail == "" || EndsAuthority(tail[0]))
    ensures Authority(authority + tail) == authority
  {
    if authority == "" {
      assert authority + tail == tail;
    } else {
      assert (authority + tail)[1..] == authority[1..] + tail;
      AuthorityOf(authority[1..], tail);
    }
  }

  lemma {:induction false} AfterLastAtOf(before: string, after: string)
    requires '@' !in after && (before == "" || before[|before| - 1] == '@')
    ensures AfterLastAt(before + after) == after
  {
    if after == "" {
      assert before + after == before;
    } else {
      var last := |after| - 1;
      assert after[last] in after && (before + after)[|before + after| - 1] == after[last];
      assert (before + after)[..|before + after| - 1] == before + after[..last];
      AfterLastAtOf(before, after[..last]);
    }
  }

  lemma UpToFirst(before: string, c: char, after: string)
    requires c !in before
    ensures UpTo(before, c) == before && UpTo(before + ([c] + after), c) == before
  {
    IndexOfFirst(before, c, after);
    Brackets(before, [c], after);
    assert (before + [c] + after)[..|before|] == before;
  }

  lemma HostOfAuthority(a: Address)
    requires ValidAddress(a)
    ensures HostIn(HostText(a.host) + PortText(a)) == HostValue(a.host)
  {
    match a.host
    case Name(name) =>
      UpToFirst(name, ':', if a.port.Some? then a.port.value else "");
      assert name + "" == name;
    case Bracketed(address) =>
      Brackets(['['], address + [']'], PortText(a));
      Cons('[', address + [']'] + PortText(a));
      UpToFirst(address, ']', PortText(a));
      Brackets(address, [']'], PortText(a));
  }

  lemma AuthorityOfAddress(a: Address)
    requires ValidAddress(a)
    ensures AfterLastAt(Authority(UserText(a) + (HostText(a.host) + PortText(a)) + a.tail)) ==
            HostText(a.host) + PortText(a)
  {
    var text := HostText(a.host) + PortText(a);
    AuthorityOf(UserText(a) + text, a.tail);
    AfterLastAtOf(UserText(a), text);
  }

  /** The host is found whatever stands around it. */
  lemma HostnameOfAddress(a: Address)
    requires ValidAddress(a)
    ensures HostnameOf(AddressText(a)) == Lower(HostValue(a.host))
  {
    var rest := UserText(a) + (HostText(a.host) + PortText(a)) + a.tail;
    SchemeEndOf(a.scheme, rest);
    Brackets(a.scheme, "://", rest);
    assert AddressText(a)[|a.scheme| + 3..] == rest;
    if rest == "" {
      assert HostValue(a.host) == "";
    } else {
      AuthorityOfAddress(a);
      HostOfAuthority(a);
    }
  }

  /** Two addresses of one host, in whatever case, get the same decision. */
  lemma DecisionDependsOnHost(policy: Option<Policy>, a: Address, b: Address)
    requires ValidAddress(a) && ValidAddress(b) && Lower(HostValue(a.host)) == Lower(HostValue(b.host))
    ensures EvaluateMcpHost(policy, AddressText(a)) == EvaluateMcpHost(policy, AddressText(b))
  {
    HostnameOfAddress(a);
    HostnameOfAddress(b);
  }

  // ----- What a pattern allows -----

  lemma SplitStep(s: string, c: char, i: nat)
    requires i == IndexOf(s, c)
    ensures Split(s, c) == if i == |s| then [s] else [s[..i]] + Split(s[i + 1..], c)
    ensures i < |s| ==> s == s[..i] + [c] + s[i + 1..]
  {
    if i < |s| { CutHere(s, c, i); }
  }

  lemma CutHere(s: string, c: char, i: nat)
    requires i < |s| && s[i] == c
    ensures s == s[..i] + [c] + s[i + 1..]
  {
  }

  lemma JoinOfCons(part: string, later: seq<string>, separator: string)
    requires later != []
    ensures Join([part] + later, separator) == part + separator + Join(later, separator)
  {
    Cons(part, later);
  }

  lemma {:induction false} JoinOfSplit(s: string, c: char)
    ensures Join(Split(s, c), [c]) == s
    decreases |s|
  {
    var i := IndexOf(s, c);
    SplitStep(s, c, i);
    if i == |s| {
    } else {
      var later := s[i + 1..];
      JoinOfSplit(later, c);
      JoinOfCons(s[..i], Split(later, c), [c]);
    }
  }

  lemma {:induction false} SplitAtSeparator(a: string, c: char, b: string)
    ensures Split(a + [c] + b, c) == Split(a, c) + Split(b, c)
    decreases |a|
  {
    var s, i := a + [c] + b, IndexOf(a, c);
    if i == |a| {
      IndexOfFirst(a, c, b);
      assert s[..|a|] == a && s[|a| + 1..] == b;
    } else {
      assert a == a[..i] + [c] + a[i + 1..];
      assert s == a[..i] + [c] + (a[i + 1..] + [c] + b);
      IndexOfFirst(a[..i], c, a[i + 1..] + [c] + b);
      assert s[..i] == a[..i] && s[i + 1..] == a[i + 1..] + [c] + b;
      SplitAtSeparator(a[i + 1..], c, b);
      Brackets([a[..i]], Split(a[i + 1..], c), Split(b, c));
    }
  }

  lemma {:induction false} JoinSum(xs: seq<string>, ys: seq<string>, c: char)
    requires xs != [] && ys != []
    ensures Join(xs + ys, [c]) == Join(xs, [c]) + [c] + Join(ys, [c])
  {
    assert (xs + ys)[1..] == xs[1..] + ys;
    if |xs| == 1 {
    } else {
      JoinSum(xs[1..], ys, c);
      assert xs[0] + [c] + (Join(xs[1..], [c]) + [c] + Join(ys, [c])) ==
          (xs[0] + [c] + Join(xs[1..], [c])) + [c] + Join(ys, [c]);
    }
  }

  /** `host` has the labels of `parent` after at least one of its own. */
  ghost predicate StrictlyBelow(host: string, parent: string) {
    exists k | 0 < k <= |Split(host, '.')| :: Split(host, '.')[k..] == Split(parent, '.')
  }

  lemma BelowWhenSuffix(own: string, parent: string)
    ensures StrictlyBelow(own + ['.'] + parent, parent)
  {
    SplitAtSeparator(own, '.', parent);
    var labels := Split(own + ['.'] + parent, '.');
    assert labels[|Split(own, '.')|..] == Split(parent, '.');
  }

  lemma SuffixWhenBelow(host: string, parent: string, k: nat)
    requires 0 < k <= |Split(host, '.')| && Split(host, '.')[k..] == Split(parent, '.')
    ensures host == Join(Split(host, '.')[..k], ['.']) + ['.'] + parent
  {
    var labels := Split(host, '.');
    JoinSum(labels[..k], labels[k..], '.');
    assert labels == labels[..k] + labels[k..];
    JoinOfSplit(host, '.');
    JoinOfSplit(parent, '.');
  }

  lemma EndsWithSum(own: string, suffix: string)
    ensures EndsWith(own + suffix, suffix)
  {
    assert (own + suffix)[|own|..] == suffix;
  }

  lemma BelowIsSuffix(host: string, parent: string)
    ensures EndsWith(host, ['.'] + parent) <==> StrictlyBelow(host, parent)
  {
    if EndsWith(host, ['.'] + parent) {
      var own := host[..|host| - |parent| - 1];
      Brackets(own, ['.'], parent);
      assert host == own + (['.'] + parent);
      BelowWhenSuffix(own, parent);
    }
    if StrictlyBelow(host, parent) {
      var k :| 0 < k <= |Split(host, '.')| && Split(host, '.')[k..] == Split(parent, '.');
      SuffixWhenBelow(host, parent, k);
      var own := Join(Split(host, '.')[..k], ['.']);
      Brackets(own, ['.'], parent);
      EndsWithSum(own, ['.'] + parent);
    }
  }

  /** What a normalised pattern means for a normalised host: the host itself, or,
      behind `*.`, everything with a name of its own below a domain. */
  ghost predicate Covers(rule: string, host: string) {
    if StartsWith(rule, "*.") then StrictlyBelow(host, rule[2..]) && host != rule[1..] else rule == host
  }

  lemma StarredCoversExactly(rule: string, host: string)
    requires StartsWith(rule, "*.")
    ensures Covers(rule, host) <==> EndsWith(host, rule[1..]) && |host| > |rule[1..]|
  {
    assert rule[1..] == ['.'] + rule[2..];
    BelowIsSuffix(host, rule[2..]);
    if EndsWith(host, rule[1..]) && |host| <= |rule[1..]| { assert host == rule[1..]; }
  }

  lemma HostMatchesExactly(pattern: string, hostname: string)
    ensures McpHostMatches(pattern, hostname) <==>
      var (rule, host) := (Normalize(pattern), WithoutFinalDot(Normalize(hostname)));
      rule != "" && host != "" && Covers(rule, host)
  {
    if StartsWith(Normalize(pattern), "*.") {
      StarredCoversExactly(Normalize(pattern), WithoutFinalDot(Normalize(hostname)));
    }
  }

  lemma FinalDotGoes(host: string)
    requires Trimmed(host) && host != "" && host[|host| - 1] != '.'
    ensures WithoutFinalDot(Normalize(Lower(host + ['.']))) == WithoutFinalDot(Normalize(Lower(host)))
  {
    var low, dotted := Lower(host), Lower(host + ['.']);
    assert dotted == low + ['.'];
    InkStaysInk(host[0]);
    InkStaysInk(host[|host| - 1]);
    TrimOfTrimmed(low);
    TrimOfTrimmed(dotted);
    assert Lower(dotted) == Lower(low) + ['.'];
  }

  lemma InkStaysInk(c: char)
    ensures IsWhitespace(LowerChar(c)) <==> IsWhitespace(c)
    ensures LowerChar(LowerChar(c)) == '.' <==> c == '.'
  {
  }

  lemma SameMatches(patterns: seq<string>, hostname: string, other: string)
    requires WithoutFinalDot(Normalize(hostname)) == WithoutFinalDot(Normalize(other))
    ensures MatchedBySome(patterns, hostname) == MatchedBySome(patterns, other)
  {
    MatchedBySomeExactly(patterns, hostname);
    MatchedBySomeExactly(patterns, other);
  }

  lemma MatchDecides(policy: Option<Policy>, url: string, other: string, hostname: string, otherName: string)
    requires hostname == HostnameOf(url) && otherName == HostnameOf(other)
    requires forall patterns :: MatchedBySome(patterns, hostname) == MatchedBySome(patterns, otherName)
    ensures EvaluateMcpHost(policy, url) == EvaluateMcpHost(policy, other)
  {
  }

  lemma MatchDependsOnHost(policy: Option<Policy>, url: string, other: string, hostname: string, otherName: string)
    requires hostname == HostnameOf(url) && otherName == HostnameOf(other)
    requires WithoutFinalDot(Normalize(hostname)) == WithoutFinalDot(Normalize(otherName))
    ensures EvaluateMcpHost(policy, url) == EvaluateMcpHost(policy, other)
  {
    forall patterns { SameMatches(patterns, hostname, otherName); }
    MatchDecides(policy, url, other, hostname, otherName);
  }

  /** A dot behind the host of an address makes no difference. */
  lemma FinalDotMakesNoDifference(policy: Option<Policy>, a: Address, b: Address)
    requires ValidAddress(a) && ValidAddress(b) && HostValue(b.host) == HostValue(a.host) + ['.']
    requires Trimmed(HostValue(a.host)) && HostValue(a.host) != ""
    requires HostValue(a.host)[|HostValue(a.host)| - 1] != '.'
    ensures EvaluateMcpHost(policy, AddressText(b)) == EvaluateMcpHost(policy, AddressText(a))
  {
    HostnameOfAddress(a);
    HostnameOfAddress(b);
    FinalDotGoes(HostValue(a.host));
    MatchDependsOnHost(policy, AddressText(b), AddressText(a), Lower(HostValue(b.host)), Lower(HostValue(a.host)));
  }

  /** One of the patterns, normalised, covers the host. */
  ghost predicate CoveredBySome(patterns: seq<string>, host: string) {
    host != "" && exists i | 0 <= i < |patterns| ::
      Normalize(patterns[i]) != "" && Covers(Normalize(patterns[i]), host)
  }

  lemma MatchedBySomeExactly(patterns: seq<string>, hostname: string)
    ensures MatchedBySome(patterns, hostname) <==>
            CoveredBySome(patterns, WithoutFinalDot(Normalize(hostname)))
  {
    forall i | 0 <= i < |patterns| { HostMatchesExactly(patterns[i], hostname); }
    if hostname == "" {
      TrimOfTrimmed("");
    }
  }

  /** The host of an address, as it is matched. */
  function HostOf(a: Address): string {
    WithoutFinalDot(Normalize(Lower(HostValue(a.host))))
  }

  /** A governed address is let through exactly when the list is empty or one of its
      patterns covers the address's host. */
  lemma HostAllowedExactly(rules: Policy, a: Address)
    requires ValidAddress(a)
    ensures Permits(EvaluateMcpHost(Some(rules), AddressText(a))) <==>
            rules.allowedMcpHosts == [] || CoveredBySome(rules.allowedMcpHosts, HostOf(a))
  {
    HostnameOfAddress(a);
    MatchedBySomeExactly(rules.allowedMcpHosts, Lower(HostValue(a.host)));
  }

  /** The name, in whatever case and less the space around it, is on the list. */
  ghost predicate Listed(list: seq<string>, id: string) {
    Lower(Trim(id)) != "" && exists i | 0 <= i < |list| :: Lower(Trim(list[i])) == Lower(Trim(id))
  }

  lemma ListedExactly(list: seq<string>, id: string)
    ensures Has(list, Normalize(id)) <==> Listed(list, id)
  {
  }

  lemma ConnectorRules(rules: Policy, id: string, isCustom: bool, url: Option<string>)
    ensures Permits(EvaluateConnector(Some(rules), id, isCustom, url)) <==>
      && !Has(rules.blockedConnectors, Normalize(id))
      && (rules.allowedConnectors == [] || Has(rules.allowedConnectors, Normalize(id)))
      && (isCustom ==>
            && rules.allowCustomConnectors
            && (url.Some? && url.value != "" ==> Permits(EvaluateMcpHost(Some(rules), url.value))))
  {
  }

  lemma AddressIsText(a: Address)
    ensures AddressText(a) != ""
  {
    assert |AddressText(a)| >= |a.scheme| + 3;
  }

  /** A connector is let through exactly when its name is on no list of blocked ones and on
      any list of allowed ones and, if it is custom, custom ones are let through and so is
      the host of its address. */
  lemma ConnectorAllowedExactly(rules: Policy, id: string, isCustom: bool, at: Option<Address>)
    requires at.Some? ==> ValidAddress(at.value)
    ensures Permits(EvaluateConnector(Some(rules), id, isCustom,
                                      if at.Some? then Some(AddressText(at.value)) else None)) <==>
      && !Listed(rules.blockedConnectors, id)
      && (rules.allowedConnectors == [] || Listed(rules.allowedConnectors, id))
      && (isCustom ==>
            && rules.allowCustomConnectors
            && (at.Some? ==>
                  rules.allowedMcpHosts == [] || CoveredBySome(rules.allowedMcpHosts, HostOf(at.value))))
  {
    ListedExactly(rules.blockedConnectors, id);
    ListedExactly(rules.allowedConnectors, id);
    if at.Some? {
      HostAllowedExactly(rules, at.value);
      AddressIsText(at.value);
      ConnectorRules(rules, id, isCustom, Some(AddressText(at.value)));
    } else {
      ConnectorRules(rules, id, isCustom, None);
    }
  }
}
