/** What model requests cost, how a session adds it up, and how a spending cap is
    shared out. Amounts are exact reals; token counts have 32 bits. */
module Pricing {
  import opened Wrappers
  import opened Text

  const U32_MAX: nat := 0xFFFF_FFFF

  type u32 = n: nat | n <= 0xFFFF_FFFF

  /** Dollars per million tokens. */
  datatype Rates = Rates(input: real, output: real, cacheRead: real, cacheWrite: real)

  const NO_RATES := Rates(0.0, 0.0, 0.0, 0.0)

  datatype Usage = Usage(input: u32, output: u32, cacheRead: u32, cacheWrite: u32)

  /** Token counts before they are held to 32 bits. */
  datatype Total = Total(input: nat, output: nat, cacheRead: nat, cacheWrite: nat)

  function SaturatingAdd(a: u32, b: u32): u32 {
    if a + b > U32_MAX then U32_MAX else a + b
  }

  function SaturatingSub(a: u32, b: u32): u32 {
    if a < b then 0 else a - b
  }

  function Millions(n: nat): real {
    n as real / 1_000_000.0
  }

  function CacheTokens(u: Usage): u32 {
    SaturatingAdd(u.cacheRead, u.cacheWrite)
  }

  /** The size that decides the price tier of a request. */
  function RequestInput(u: Usage, disjoint: bool): u32 {
    if disjoint then SaturatingAdd(u.input, CacheTokens(u)) else u.input
  }

  function BillableInput(u: Usage, disjoint: bool): u32 {
    if disjoint then u.input else SaturatingSub(u.input, CacheTokens(u))
  }

  /** The price of `n` tokens of one kind. */
  function Cost(n: nat, rate: real): real {
    Millions(n) * rate
  }

  function Price(billed: Total, r: Rates): real {
    Cost(billed.input, r.input) + Cost(billed.output, r.output)
    + Cost(billed.cacheRead, r.cacheRead) + Cost(billed.cacheWrite, r.cacheWrite)
  }

  function Billed(u: Usage, disjoint: bool): Total {
    AsTotal(u).(input := BillableInput(u, disjoint))
  }

  function AsTotal(u: Usage): Total {
    Total(u.input, u.output, u.cacheRead, u.cacheWrite)
  }

  function Dollars(u: Usage, disjoint: bool, rates: nat -> Rates): real {
    Price(Billed(u, disjoint), rates(RequestInput(u, disjoint)))
  }

  function DollarsForAll(us: seq<Usage>, disjoint: bool, rates: nat -> Rates): real {
    if us == [] then 0.0 else Dollars(us[0], disjoint, rates) + DollarsForAll(us[1..], disjoint, rates)
  }

  // ----- Billing by request against billing the sum -----

  function Sum(us: seq<Usage>): Total {
    if us == [] then Total(0, 0, 0, 0)
    else
      var t := Sum(us[1..]);
      Total(us[0].input + t.input, us[0].output + t.output, us[0].cacheRead + t.cacheRead,
          us[0].cacheWrite + t.cacheWrite)
  }

  /** Each kind of token fits 32 bits; their sum, where one is formed, may saturate. */
  predicate Fits(t: Total) {
    t.input <= U32_MAX && t.output <= U32_MAX && t.cacheRead <= U32_MAX && t.cacheWrite <= U32_MAX
  }

  function AsUsage(t: Total): Usage
    requires Fits(t)
  {
    Usage(t.input, t.output, t.cacheRead, t.cacheWrite)
  }

  predicate AtMost(a: Rates, b: Rates) {
    a.input <= b.input && a.output <= b.output && a.cacheRead <= b.cacheRead && a.cacheWrite <= b.cacheWrite
  }

  /** Rates that are never negative and never fall as requests grow. */
  ghost predicate NonFalling(rates: nat -> Rates) {
    && (forall n :: AtMost(NO_RATES, rates(n)))
    && (forall m, n | m <= n :: AtMost(rates(m), rates(n)))
  }

  /** In the subset convention the cached tokens are among the input tokens. */
  predicate CacheWithinInput(u: Usage) {
    u.cacheRead + u.cacheWrite <= u.input
  }

  /** Requests that report at least as many cached tokens as input tokens. */
  predicate CacheBeyondInput(u: Usage) {
    u.input <= u.cacheRead + u.cacheWrite
  }

  predicate AllWithin(us: seq<Usage>) {
    forall i | 0 <= i < |us| :: CacheWithinInput(us[i])
  }

  predicate AllBeyond(us: seq<Usage>) {
    forall i | 0 <= i < |us| :: CacheBeyondInput(us[i])
  }

  lemma Portion(a: real, b: real, r: real, s: real, t: real)
    requires 0.0 <= a && 0.0 <= b && r <= t && s <= t
    ensures a * r + b * s <= (a + b) * t
  {
    assert a * r <= a * t && b * s <= b * t;
  }

  lemma MillionsSum(m: nat, n: nat)
    ensures Millions(m + n) == Millions(m) + Millions(n) && Millions(m) >= 0.0
  {
  }

  function Add(u: Usage, t: Total): Total {
    Total(u.input + t.input, u.output + t.output, u.cacheRead + t.cacheRead, u.cacheWrite + t.cacheWrite)
  }

  lemma TiersGrow(u: Usage, v: Usage, disjoint: bool)
    requires Fits(Add(u, AsTotal(v)))
    requires disjoint || (CacheWithinInput(u) && CacheWithinInput(v)) || (CacheBeyondInput(u) && CacheBeyondInput(v))
    ensures var w := AsUsage(Add(u, AsTotal(v)));
      && RequestInput(u, disjoint) <= RequestInput(w, disjoint)
      && RequestInput(v, disjoint) <= RequestInput(w, disjoint)
      && BillableInput(w, disjoint) == BillableInput(u, disjoint) as int + BillableInput(v, disjoint) as int
  {
  }

  /** One kind of token in two requests and in their sum. */
  lemma Kind(m: nat, n: nat, r: real, s: real, t: real)
    requires r <= t && s <= t
    ensures Cost(m, r) + Cost(n, s) <= Cost(m + n, t)
  {
    MillionsSum(m, n);
    MillionsSum(n, m);
    Portion(Millions(m), Millions(n), r, s, t);
  }

  /** Four kinds of tokens at once. */
  lemma Kinds(a: Total, b: Total, r: Rates, s: Rates, t: Rates)
    requires AtMost(r, t) && AtMost(s, t)
    ensures Price(a, r) + Price(b, s) <=
            Price(Total(a.input + b.input, a.output + b.output,
                        a.cacheRead + b.cacheRead, a.cacheWrite + b.cacheWrite), t)
  {
    Kind(a.input, b.input, r.input, s.input, t.input);
    Kind(a.output, b.output, r.output, s.output, t.output);
    Kind(a.cacheRead, b.cacheRead, r.cacheRead, s.cacheRead, t.cacheRead);
    Kind(a.cacheWrite, b.cacheWrite, r.cacheWrite, s.cacheWrite, t.cacheWrite);
  }

  /** Each kind of token is billed at its own rate: what a million of one kind costs is the
      rate for it, and what two bills cost together is the sum. */
  lemma PriceByKind(a: Total, b: Total, r: Rates)
    ensures Price(Total(1_000_000, 0, 0, 0), r) == r.input && Price(Total(0, 1_000_000, 0, 0), r) == r.output
    ensures Price(Total(0, 0, 1_000_000, 0), r) == r.cacheRead && Price(Total(0, 0, 0, 1_000_000), r) == r.cacheWrite
    ensures Price(Total(a.input + b.input, a.output + b.output, a.cacheRead + b.cacheRead,
                        a.cacheWrite + b.cacheWrite), r) == Price(a, r) + Price(b, r)
  {
    CostSum(a.input, b.input, r.input);
    CostSum(a.output, b.output, r.output);
    CostSum(a.cacheRead, b.cacheRead, r.cacheRead);
    CostSum(a.cacheWrite, b.cacheWrite, r.cacheWrite);
    assert Millions(1_000_000) == 1.0 && Millions(0) == 0.0;
  }

  lemma CostSum(m: nat, n: nat, rate: real)
    ensures Cost(m + n, rate) == Cost(m, rate) + Cost(n, rate)
  {
    MillionsSum(m, n);
    assert (Millions(m) + Millions(n)) * rate == Millions(m) * rate + Millions(n) * rate;
  }

  /** The same request costs the same whether its cached tokens are reported among the
      input or apart from it. */
  lemma EitherReportCostsTheSame(u: Usage, rates: nat -> Rates)
    requires CacheWithinInput(u)
    ensures var apart := u.(input := u.input - u.cacheRead - u.cacheWrite);
      Dollars(apart, true, rates) == Dollars(u, false, rates)
  {
  }

  lemma TwoRequests(u: Usage, v: Usage, disjoint: bool, rates: nat -> Rates)
    requires NonFalling(rates)
    requires Fits(Add(u, AsTotal(v)))
    requires disjoint || (CacheWithinInput(u) && CacheWithinInput(v)) || (CacheBeyondInput(u) && CacheBeyondInput(v))
    ensures Dollars(u, disjoint, rates) + Dollars(v, disjoint, rates) <=
            Dollars(AsUsage(Add(u, AsTotal(v))), disjoint, rates)
  {
    var w := AsUsage(Add(u, AsTotal(v)));
    TiersGrow(u, v, disjoint);
    var r, s, t := rates(RequestInput(u, disjoint)), rates(RequestInput(v, disjoint)), rates(RequestInput(w, disjoint));
    assert AtMost(r, t) && AtMost(s, t);
    Kinds(Billed(u, disjoint), Billed(v, disjoint), r, s, t);
  }

  lemma {:induction false} SumFits(us: seq<Usage>)
    requires us != [] && Fits(Sum(us))
    ensures Fits(Sum(us[1..])) && Sum(us) == Add(us[0], Sum(us[1..]))
  {
  }

  lemma {:induction false} SumWithinInput(us: seq<Usage>)
    requires AllWithin(us)
    ensures Sum(us).cacheRead + Sum(us).cacheWrite <= Sum(us).input
  {
    if us == [] {
    } else {
      SumWithinInput(us[1..]);
    }
  }

  lemma {:induction false} SumBeyondInput(us: seq<Usage>)
    requires AllBeyond(us)
    ensures Sum(us).input <= Sum(us).cacheRead + Sum(us).cacheWrite
  {
    if us == [] {
    } else {
      SumBeyondInput(us[1..]);
    }
  }

  /** Pricing each request by its own size never costs more than pricing the sum. */
  lemma {:induction false} ByRequestCostsNoMore(us: seq<Usage>, disjoint: bool, rates: nat -> Rates)
    requires NonFalling(rates)
    requires Fits(Sum(us))
    requires disjoint || AllWithin(us) || AllBeyond(us)
    ensures DollarsForAll(us, disjoint, rates) <= Dollars(AsUsage(Sum(us)), disjoint, rates)
  {
    if us == [] {
    } else {
      SumFits(us);
      var v := AsUsage(Sum(us[1..]));
      if disjoint {
      } else if AllWithin(us) {
        SumWithinInput(us[1..]);
      } else {
        SumBeyondInput(us[1..]);
      }
      ByRequestCostsNoMore(us[1..], disjoint, rates);
      assert AsTotal(v) == Sum(us[1..]);
      TwoRequests(us[0], v, disjoint, rates);
    }
  }

  /** Input tokens billed in the subset convention, request by request. */
  function InputBilled(us: seq<Usage>): nat {
    if us == [] then 0 else BillableInput(us[0], false) + InputBilled(us[1..])
  }

  /** Input tokens less cached ones. */
  function Excess(t: Total): int {
    t.input - t.cacheRead - t.cacheWrite
  }

  lemma AllOfCons(us: seq<Usage>)
    requires us != []
    ensures AllWithin(us) <==> CacheWithinInput(us[0]) && AllWithin(us[1..])
    ensures AllBeyond(us) <==> CacheBeyondInput(us[0]) && AllBeyond(us[1..])
  {
    assert us == [us[0]] + us[1..];
  }

  lemma ExcessOfOneMore(u: Usage, t: Total)
    requires Fits(Add(u, t))
    ensures Excess(Add(u, t)) == Excess(AsTotal(u)) + Excess(t)
    ensures BillableInput(u, false) == if CacheWithinInput(u) then Excess(AsTotal(u)) else 0
    ensures CacheBeyondInput(u) <==> Excess(AsTotal(u)) <= 0
    ensures CacheWithinInput(u) <==> Excess(AsTotal(u)) >= 0
  {
  }

  /** Billed input against excess, for requests with or without exceptions of either kind. */
  predicate Exceeds(billed: nat, excess: int, within: bool, beyond: bool) {
    billed >= excess && (!within ==> billed > excess) && (!beyond ==> billed > 0)
  }

  lemma OneMoreExceeds(u: Usage, t: Total, billed: nat, within: bool, beyond: bool)
    requires Fits(Add(u, t)) && Exceeds(billed, Excess(t), within, beyond)
    ensures Exceeds(BillableInput(u, false) + billed, Excess(Add(u, t)),
                    CacheWithinInput(u) && within, CacheBeyondInput(u) && beyond)
  {
    ExcessOfOneMore(u, t);
  }

  predicate BilledExceeds(us: seq<Usage>) {
    Exceeds(InputBilled(us), Excess(Sum(us)), AllWithin(us), AllBeyond(us))
  }

  lemma BilledExceedsStep(us: seq<Usage>)
    requires us != [] && Fits(Add(us[0], Sum(us[1..]))) && BilledExceeds(us[1..])
    ensures BilledExceeds(us)
  {
    AllOfCons(us);
    OneMoreExceeds(us[0], Sum(us[1..]), InputBilled(us[1..]), AllWithin(us[1..]), AllBeyond(us[1..]));
  }

  /** Billed by request is never less than the excess of the sum, and more as soon as
      one request has more cached than input tokens. */
  lemma {:induction false} InputBilledExceeds(us: seq<Usage>)
    requires Fits(Sum(us))
    ensures BilledExceeds(us)
  {
    if us == [] {
    } else {
      SumFits(us);
      InputBilledExceeds(us[1..]);
      BilledExceedsStep(us);
    }
  }

  /** A dollar for a million input tokens, whatever the size, and nothing else. */
  function InputOnly(): (rates: nat -> Rates)
    ensures NonFalling(rates)
  {
    (size: nat) => Rates(1.0, 0.0, 0.0, 0.0)
  }

  lemma {:induction false} InputOnlyBillsInput(us: seq<Usage>)
    ensures DollarsForAll(us, false, InputOnly()) == Millions(InputBilled(us))
  {
    if us == [] {
    } else {
      InputOnlyBillsInput(us[1..]);
      MillionsSum(BillableInput(us[0], false), InputBilled(us[1..]));
    }
  }

  /** In the subset convention pricing by request is never dearer, at whatever rates,
      exactly when the requests are all of one kind: all with their cached tokens
      within the input, or all with at least as many cached as input tokens. */
  lemma ByRequestCostsNoMoreExactly(us: seq<Usage>)
    requires Fits(Sum(us))
    ensures (forall rates | NonFalling(rates) ::
               DollarsForAll(us, false, rates) <= Dollars(AsUsage(Sum(us)), false, rates)) <==>
            AllWithin(us) || AllBeyond(us)
  {
    if AllWithin(us) || AllBeyond(us) {
      forall rates | NonFalling(rates)
        ensures DollarsForAll(us, false, rates) <= Dollars(AsUsage(Sum(us)), false, rates)
      {
        ByRequestCostsNoMore(us, false, rates);
      }
    } else {
      InputBilledExceeds(us);
      InputOnlyBillsInput(us);
      var sum := AsUsage(Sum(us));
      assert Dollars(sum, false, InputOnly()) == Millions(BillableInput(sum, false));
      assert InputBilled(us) > BillableInput(sum, false);
      assert NonFalling(InputOnly());
    }
  }

  /** The smallest case of it: one request with cached tokens only and one with input
      only cost more than their sum. */
  lemma CacheBeyondInputCostsMore(n: u32, price: real)
    requires n > 0 && price > 0.0 && n <= U32_MAX / 2
    ensures var (u, v) := (Usage(0, 0, n, 0), Usage(n, 0, 0, 0));
      var rates := (size: nat) => Rates(price, 0.0, 0.0, 0.0);
      && Fits(Add(u, AsTotal(v)))
      && Dollars(u, false, rates) + Dollars(v, false, rates) > Dollars(AsUsage(Add(u, AsTotal(v))), false, rates)
  {
    assert Millions(n) > 0.0;
    assert Millions(n) * price > 0.0;
    assert Millions(0) == 0.0;
  }

  // ----- The ledger of a session -----

  /** How a model is priced: whether its cached tokens come apart from its input, and
      its rates by the size of a request. */
  datatype Tariff = Tariff(disjoint: bool, rates: nat -> Rates)

  type Catalog = string -> Tariff

  /** Rates of the catalog are never negative. */
  ghost predicate NeverNegative(catalog: Catalog) {
    forall model: string, n: nat :: AtMost(NO_RATES, catalog(model).rates(n))
  }

  /** One request of a turn; what a plan includes is not billed. */
  datatype Completion = Completion(model: string, usage: Usage, included: bool)

  function CompletionDollars(c: Completion, catalog: Catalog): real {
    if c.included then 0.0 else Dollars(c.usage, catalog(c.model).disjoint, catalog(c.model).rates)
  }

  lemma CostNotNegative(n: nat, rate: real)
    requires rate >= 0.0
    ensures Cost(n, rate) >= 0.0
  {
    assert Millions(n) >= 0.0;
  }

  lemma CompletionNotNegative(c: Completion, catalog: Catalog)
    requires NeverNegative(catalog)
    ensures CompletionDollars(c, catalog) >= 0.0
  {
    var tariff := catalog(c.model);
    var billed, r := Billed(c.usage, tariff.disjoint), tariff.rates(RequestInput(c.usage, tariff.disjoint));
    assert AtMost(NO_RATES, r);
    CostNotNegative(billed.input, r.input);
    CostNotNegative(billed.output, r.output);
    CostNotNegative(billed.cacheRead, r.cacheRead);
    CostNotNegative(billed.cacheWrite, r.cacheWrite);
  }

  ghost function SumOver(m: map<string, real>, keys: set<string>): real
    requires keys <= m.Keys
    decreases |keys|
  {
    if keys == {} then 0.0
    else
      var k :| k in keys;
      m[k] + SumOver(m, keys - {k})
  }

  ghost function SumOf(m: map<string, real>): real {
    SumOver(m, m.Keys)
  }

  lemma {:induction false} SumOverSplit(m: map<string, real>, keys: set<string>, k: string)
    requires keys <= m.Keys && k in keys
    ensures SumOver(m, keys) == m[k] + SumOver(m, keys - {k})
    decreases |keys|
  {
    var j :| j in keys && SumOver(m, keys) == m[j] + SumOver(m, keys - {j});
    if j == k {
    } else {
      SumOverSplit(m, keys - {j}, k);
      SumOverSplit(m, keys - {k}, j);
      assert keys - {j} - {k} == keys - {k} - {j};
    }
  }

  lemma {:induction false} SumOverSame(m: map<string, real>, n: map<string, real>, keys: set<string>)
    requires keys <= m.Keys && keys <= n.Keys && forall k <- keys :: m[k] == n[k]
    ensures SumOver(m, keys) == SumOver(n, keys)
    decreases |keys|
  {
    if keys == {} {
    } else {
      var k :| k in keys && SumOver(m, keys) == m[k] + SumOver(m, keys - {k});
      SumOverSame(m, n, keys - {k});
      SumOverSplit(n, keys, k);
    }
  }

  function Charge(m: map<string, real>, model: string, cost: real): map<string, real> {
    m[model := (if model in m then m[model] else 0.0) + cost]
  }

  lemma ChargeAddsUp(m: map<string, real>, model: string, cost: real)
    ensures SumOf(Charge(m, model, cost)) == SumOf(m) + cost
  {
    var n := Charge(m, model, cost);
    SumOverSplit(n, n.Keys, model);
    SumOverSame(m, n, m.Keys - {model});
    if model in m {
      SumOverSplit(m, m.Keys, model);
      assert n.Keys == m.Keys;
    } else {
      assert n.Keys - {model} == m.Keys == m.Keys - {model};
    }
  }

  datatype Ledger = Ledger(total: real, byModel: map<string, real>, turns: nat, subagentUsd: real, subagentRuns: nat)

  const EMPTY_LEDGER := Ledger(0.0, map[], 0, 0.0, 0)

  datatype Event = Turn(completions: seq<Completion>) | Subagent(model: string, cost: real)

  function TurnCost(completions: seq<Completion>, catalog: Catalog): real {
    if completions == [] then 0.0
    else
      var last := |completions| - 1;
      TurnCost(completions[..last], catalog) + CompletionDollars(completions[last], catalog)
  }

  function ChargeAll(m: map<string, real>, completions: seq<Completion>, catalog: Catalog): map<string, real> {
    if completions == [] then m
    else
      var last := completions[|completions| - 1];
      Charge(ChargeAll(m, completions[..|completions| - 1], catalog), last.model, CompletionDollars(last, catalog))
  }

  /** A subagent's cost below zero counts as nothing. */
  function SubagentCost(cost: real): real {
    if cost > 0.0 then cost else 0.0
  }

  function AddSubagent(l: Ledger, model: string, cost: real): Ledger {
    l.(total := l.total + SubagentCost(cost), byModel := Charge(l.byModel, model, SubagentCost(cost)),
       subagentUsd := l.subagentUsd + SubagentCost(cost), subagentRuns := l.subagentRuns + 1)
  }

  function Record(l: Ledger, e: Event, catalog: Catalog): Ledger {
    match e
    case Turn(cs) =>
      l.(total := l.total + TurnCost(cs, catalog), byModel := ChargeAll(l.byModel, cs, catalog), turns := l.turns + 1)
    case Subagent(model, cost) => AddSubagent(l, model, cost)
  }

  function RecordAll(events: seq<Event>, catalog: Catalog): Ledger {
    if events == [] then EMPTY_LEDGER
    else Record(RecordAll(events[..|events| - 1], catalog), events[|events| - 1], catalog)
  }

  lemma {:induction false} ChargeAllAddsUp(m: map<string, real>, completions: seq<Completion>, catalog: Catalog)
    requires NeverNegative(catalog)
    ensures SumOf(ChargeAll(m, completions, catalog)) == SumOf(m) + TurnCost(completions, catalog)
    ensures TurnCost(completions, catalog) >= 0.0
  {
    if completions == [] {
    } else {
      var before, last := completions[..|completions| - 1], completions[|completions| - 1];
      ChargeAllAddsUp(m, before, catalog);
      ChargeAddsUp(ChargeAll(m, before, catalog), last.model, CompletionDollars(last, catalog));
      CompletionNotNegative(last, catalog);
    }
  }

  /** After any turns and subagent runs in any order, whatever tokens they used, the
      total is the sum of its entries, and the subagents' share never exceeds it. */
  lemma {:induction false} LedgerConserves(events: seq<Event>, catalog: Catalog)
    requires NeverNegative(catalog)
    ensures var l := RecordAll(events, catalog); l.total == SumOf(l.byModel) && 0.0 <= l.subagentUsd <= l.total
  {
    if events == [] {
    } else {
      var before := RecordAll(events[..|events| - 1], catalog);
      LedgerConserves(events[..|events| - 1], catalog);
      match events[|events| - 1]
      case Turn(cs) => ChargeAllAddsUp(before.byModel, cs, catalog);
      case Subagent(model, cost) => ChargeAddsUp(before.byModel, model, SubagentCost(cost));
    }
  }

  /** What the events of a session cost on one model. */
  function TurnCostOn(completions: seq<Completion>, model: string, catalog: Catalog): real {
    if completions == [] then 0.0
    else
      var last := completions[|completions| - 1];
      TurnCostOn(completions[..|completions| - 1], model, catalog)
      + (if last.model == model then CompletionDollars(last, catalog) else 0.0)
  }

  function CostOn(events: seq<Event>, model: string, catalog: Catalog): real {
    if events == [] then 0.0
    else
      CostOn(events[..|events| - 1], model, catalog) +
      match events[|events| - 1]
      case Turn(cs) => TurnCostOn(cs, model, catalog)
      case Subagent(m, cost) => if m == model then SubagentCost(cost) else 0.0
  }

  function Entry(m: map<string, real>, model: string): real {
    if model in m then m[model] else 0.0
  }

  lemma {:induction false} ChargeAllCharges(m: map<string, real>, completions: seq<Completion>, model: string,
      catalog: Catalog)
    ensures Entry(ChargeAll(m, completions, catalog), model) ==
            Entry(m, model) + TurnCostOn(completions, model, catalog)
  {
    if completions == [] {
    } else {
      ChargeAllCharges(m, completions[..|completions| - 1], model, catalog);
    }
  }

  /** The requests a plan does not include. */
  function Metered(completions: seq<Completion>): seq<Completion> {
    if completions == [] then []
    else
      var last := completions[|completions| - 1];
      Metered(completions[..|completions| - 1]) + if last.included then [] else [last]
  }

  function RequestDollars(completions: seq<Completion>, catalog: Catalog): real {
    if completions == [] then 0.0
    else
      var last := completions[|completions| - 1];
      RequestDollars(completions[..|completions| - 1], catalog)
      + Dollars(last.usage, catalog(last.model).disjoint, catalog(last.model).rates)
  }

  /** A turn costs what its metered requests cost. */
  lemma {:induction false} MeteredIsBilled(completions: seq<Completion>, catalog: Catalog)
    ensures TurnCost(completions, catalog) == RequestDollars(Metered(completions), catalog)
  {
    if completions == [] {
    } else {
      var before, last := completions[..|completions| - 1], completions[|completions| - 1];
      MeteredIsBilled(before, catalog);
      if last.included {
        assert Metered(before) + [] == Metered(before);
      } else {
        assert (Metered(before) + [last])[..|Metered(before)|] == Metered(before);
      }
    }
  }

  /** All requests of a session, and the costs its subagents reported. */
  function AllRequests(events: seq<Event>): seq<Completion> {
    if events == [] then []
    else
      AllRequests(events[..|events| - 1]) +
      match events[|events| - 1] case Turn(cs) => cs case Subagent(_, _) => []
  }

  function AllReports(events: seq<Event>): seq<real> {
    if events == [] then []
    else
      AllReports(events[..|events| - 1]) +
      match events[|events| - 1] case Turn(_) => [] case Subagent(_, cost) => [cost]
  }

  function SumOfPositive(costs: seq<real>): real {
    if costs == [] then 0.0
    else SumOfPositive(costs[..|costs| - 1]) + if costs[|costs| - 1] < 0.0 then 0.0 else costs[|costs| - 1]
  }

  lemma {:induction false} TurnCostSum(cs: seq<Completion>, ds: seq<Completion>, catalog: Catalog)
    ensures TurnCost(cs + ds, catalog) == TurnCost(cs, catalog) + TurnCost(ds, catalog)
    decreases |ds|
  {
    if ds == [] {
      assert cs + ds == cs;
    } else {
      var init, last := UpToLast(ds);
      TurnCostSum(cs, init, catalog);
      assert (cs + ds)[..|cs + ds| - 1] == cs + init;
    }
  }

  lemma {:induction false} LedgerCounts(events: seq<Event>, catalog: Catalog)
    ensures var l := RecordAll(events, catalog);
      && l.total == TurnCost(AllRequests(events), catalog) + l.subagentUsd
      && l.subagentUsd == SumOfPositive(AllReports(events))
      && l.subagentRuns == |AllReports(events)| && l.turns + l.subagentRuns == |events|
  {
    if events == [] {
    } else {
      var before := events[..|events| - 1];
      LedgerCounts(before, catalog);
      match events[|events| - 1]
      case Turn(cs) =>
        TurnCostSum(AllRequests(before), cs, catalog);
        assert AllReports(before) + [] == AllReports(before);
      case Subagent(_, cost) =>
        assert AllRequests(before) + [] == AllRequests(before);
        assert (AllReports(before) + [cost])[..|AllReports(before)|] == AllReports(before);
    }
  }

  /** A session costs what its metered requests cost at their own models' prices, and what
      its subagents reported, reports below zero counting as nothing; every event counts
      as one turn or one run. */
  lemma LedgerTotals(events: seq<Event>, catalog: Catalog)
    ensures var l := RecordAll(events, catalog);
      && l.total == RequestDollars(Metered(AllRequests(events)), catalog) + SumOfPositive(AllReports(events))
      && l.subagentUsd == SumOfPositive(AllReports(events))
      && l.subagentRuns == |AllReports(events)| && l.turns + l.subagentRuns == |events|
  {
    LedgerCounts(events, catalog);
    MeteredIsBilled(AllRequests(events), catalog);
  }

  /** Every request is charged to its own model and to no other. */
  lemma {:induction false} LedgerAttributes(events: seq<Event>, model: string, catalog: Catalog)
    ensures Entry(RecordAll(events, catalog).byModel, model) == CostOn(events, model, catalog)
  {
    if events == [] {
    } else {
      var before := events[..|events| - 1];
      LedgerAttributes(before, model, catalog);
      if events[|events| - 1].Turn? {
        ChargeAllCharges(RecordAll(before, catalog).byModel, events[|events| - 1].completions, model, catalog);
      }
    }
  }

  class CostLedger {
    var totalUsd: real
    var byModel: map<string, real>
    var turns: nat
    var subagentUsd: real
    var subagentRuns: nat

    ghost function State(): Ledger
      reads this
    {
      Ledger(totalUsd, byModel, turns, subagentUsd, subagentRuns)
    }

    constructor ()
      ensures State() == EMPTY_LEDGER
    {
      totalUsd, byModel, turns, subagentUsd, subagentRuns := 0.0, map[], 0, 0.0, 0;
    }

    method RecordCompletions(completions: seq<Completion>, catalog: Catalog) returns (delta: real)
      modifies this
      ensures delta == TurnCost(completions, catalog)
      ensures State() == Record(old(State()), Turn(completions), catalog)
    {
      delta := 0.0;
      for i := 0 to |completions|
        invariant delta == TurnCost(completions[..i], catalog)
        invariant byModel == ChargeAll(old(byModel), completions[..i], catalog)
        invariant State() == old(State()).(byModel := byModel)
      {
        var c := completions[i];
        assert completions[..i + 1][..i] == completions[..i];
        var cost := CompletionDollars(c, catalog);
        delta := delta + cost;
        byModel := byModel[c.model := (if c.model in byModel then byModel[c.model] else 0.0) + cost];
      }
      assert completions[..|completions|] == completions;
      totalUsd := totalUsd + delta;
      turns := turns + 1;
    }

    method RecordSubagentRun(model: string, costUsd: real) returns (cost: real)
      modifies this
      ensures cost == SubagentCost(costUsd)
      ensures State() == AddSubagent(old(State()), model, costUsd)
    {
      cost := if costUsd > 0.0 then costUsd else 0.0;
      byModel := byModel[model := (if model in byModel then byModel[model] else 0.0) + cost];
      totalUsd := totalUsd + cost;
      subagentUsd := subagentUsd + cost;
      subagentRuns := subagentRuns + 1;
    }
  }

  // ----- Sharing out a cap -----

  function AtLeastZero(x: real): real {
    if x < 0.0 then 0.0 else x
  }

  datatype Budget = Budget(cap: real, spent: real)

  function NewBudget(cap: real, spent: real): Budget {
    Budget(AtLeastZero(cap), AtLeastZero(spent))
  }

  function Remaining(b: Budget): real {
    AtLeastZero(b.cap - b.spent)
  }

  function ChildCap(b: Budget, slots: nat): Option<real> {
    if slots == 0 || Remaining(b) <= 0.0 then None else Some(Remaining(b) / slots as real)
  }

  /** A share is given exactly when there are slots and something is left, and the shares of
      all slots are what is left; amounts below zero count as nothing. */
  lemma SharesExactly(cap: real, spent: real, slots: nat)
    ensures var b := NewBudget(cap, spent);
      && b.cap == (if cap >= 0.0 then cap else 0.0) && b.spent == (if spent >= 0.0 then spent else 0.0)
      && (ChildCap(b, slots).Some? <==> slots > 0 && b.spent < b.cap)
      && (ChildCap(b, slots).Some? ==> ChildCap(b, slots).value * slots as real == b.cap - b.spent)
  {
  }

  /** What an agent does with its budget, in order: spend itself, or spawn children
      into a number of slots, each of whom may do the same. */
  datatype Plan = Done | Spend(amount: real, next: Plan) | Spawn(slots: nat, children: Plans, next: Plan)

  datatype Plans = NoOne | And(first: Plan, others: Plans)

  function Spent(p: Plan): real {
    match p
    case Done => 0.0
    case Spend(amount, next) => amount + Spent(next)
    case Spawn(_, children, next) => SpentByAll(children) + Spent(next)
  }

  function SpentByAll(ps: Plans): real {
    match ps
    case NoOne => 0.0
    case And(first, others) => Spent(first) + SpentByAll(others)
  }

  function Count(ps: Plans): nat {
    match ps case NoOne => 0 case And(_, others) => 1 + Count(others)
  }

  /** Each agent spends no more than what remains to it, and spawns no more children
      than slots, each under the cap the budget gives out. */
  ghost predicate Abides(p: Plan, b: Budget) {
    match p
    case Done => true
    case Spend(amount, next) => 0.0 <= amount <= Remaining(b) && Abides(next, b.(spent := b.spent + amount))
    case Spawn(slots, children, next) =>
      && (children.NoOne? ||
           (ChildCap(b, slots).Some? && Count(children) <= slots && AllAbide(children, ChildCap(b, slots).value)))
      && Abides(next, b.(spent := b.spent + SpentByAll(children)))
  }

  ghost predicate AllAbide(ps: Plans, cap: real) {
    match ps
    case NoOne => true
    case And(first, others) => Abides(first, NewBudget(cap, 0.0)) && AllAbide(others, cap)
  }

  /** However deep children spawn children, the tree stays within the first budget. */
  lemma {:induction false} TreeStaysWithinCap(p: Plan, b: Budget)
    requires Abides(p, b)
    ensures 0.0 <= Spent(p) <= Remaining(b)
  {
    match p
    case Done =>
    case Spend(amount, next) => TreeStaysWithinCap(next, b.(spent := b.spent + amount));
    case Spawn(slots, children, next) =>
      if !children.NoOne? {
        var cap := ChildCap(b, slots).value;
        Shares(Count(children), slots, Remaining(b));
        ChildrenStayWithinCap(children, cap);
      }
      TreeStaysWithinCap(next, b.(spent := b.spent + SpentByAll(children)));
  }

  /** `n` caps together. */
  ghost function Times(n: nat, cap: real): real {
    if n == 0 then 0.0 else cap + Times(n - 1, cap)
  }

  lemma {:induction false} TimesIsProduct(n: nat, cap: real)
    ensures Times(n, cap) == n as real * cap
  {
    if n == 0 {
    } else {
      TimesIsProduct(n - 1, cap);
      calc {
        n as real * cap;
        ((n - 1) as real + 1.0) * cap;
        (n - 1) as real * cap + cap;
      }
    }
  }

  lemma {:induction false} TimesGrows(n: nat, slots: nat, cap: real)
    requires n <= slots && cap >= 0.0
    ensures Times(n, cap) <= Times(slots, cap)
    decreases slots - n
  {
    if n >= slots {
    } else {
      TimesGrows(n + 1, slots, cap);
    }
  }

  lemma Shares(n: nat, slots: nat, remaining: real)
    requires 0 < slots && n <= slots && 0.0 <= remaining
    ensures remaining / slots as real >= 0.0
    ensures Times(n, remaining / slots as real) <= remaining
  {
    var share := remaining / slots as real;
    TimesIsProduct(slots, share);
    assert slots as real * share == remaining;
    TimesGrows(n, slots, share);
  }

  lemma {:induction false} ChildrenStayWithinCap(ps: Plans, cap: real)
    requires cap >= 0.0 && AllAbide(ps, cap)
    ensures 0.0 <= SpentByAll(ps) <= Times(Count(ps), cap)
  {
    match ps
    case NoOne =>
    case And(first, others) =>
      TreeStaysWithinCap(first, NewBudget(cap, 0.0));
      ChildrenStayWithinCap(others, cap);
  }

  // ----- Writing an amount of credits -----

  /** Thousands set apart by commas, counted from the right. */
  function Grouped(digits: string): string
    decreases |digits|
  {
    if |digits| <= 3 then digits else Grouped(digits[..|digits| - 3]) + "," + digits[|digits| - 3..]
  }

  /** The first `n` digits, each with a comma before it where the program puts one. */
  ghost function Pushed(digits: string, n: nat): string
    requires n <= |digits|
  {
    if n == 0 then ""
    else Pushed(digits, n - 1) + PushedAt(digits, n - 1)
  }

  ghost function PushedAt(digits: string, i: nat): string
    requires i < |digits|
  {
    (if i > 0 && (|digits| - i) % 3 == 0 then "," else "") + [digits[i]]
  }

  method GroupDigits(whole: string) returns (grouped: string)
    ensures grouped == Grouped(whole)
  {
    grouped := "";
    for index := 0 to |whole|
      invariant grouped == Pushed(whole, index)
    {
      if index > 0 && (|whole| - index) % 3 == 0 {
        grouped := grouped + ",";
      }
      grouped := grouped + [whole[index]];
    }
    PushedIsGrouped(whole);
  }

  lemma {:induction false} PushedOfLonger(digits: string, shorter: string, n: nat)
    requires n <= |shorter| && shorter <= digits && (|digits| - |shorter|) % 3 == 0
    ensures Pushed(digits, n) == Pushed(shorter, n)
  {
    if n == 0 {
    } else {
      PushedOfLonger(digits, shorter, n - 1);
      assert PushedAt(digits, n - 1) == PushedAt(shorter, n - 1);
    }
  }

  lemma PushedAlone(digits: string, i: nat)
    requires i < |digits| && (i == 0 || (|digits| - i) % 3 != 0)
    ensures PushedAt(digits, i) == [digits[i]]
  {
  }

  lemma {:induction false} PushedWithoutComma(digits: string, n: nat)
    requires n <= |digits| <= 3
    ensures Pushed(digits, n) == digits[..n]
  {
    if n == 0 {
    } else {
      PushedWithoutComma(digits, n - 1);
      PushedAlone(digits, n - 1);
      assert digits[..n] == digits[..n - 1] + [digits[n - 1]];
    }
  }

  lemma FourParts(p3: string, p2: string, p1: string, p0: string, a: char, b: char, c: char)
    requires p2 == p3 + ("," + [a]) && p1 == p2 + [b] && p0 == p1 + [c]
    ensures p0 == (p3 + ",") + [a, b, c]
  {
  }

  lemma PushedNext(digits: string, i: nat)
    requires i < |digits|
    ensures Pushed(digits, i + 1) == Pushed(digits, i) + PushedAt(digits, i)
  {
  }

  lemma PushedLastThree(digits: string, n: nat)
    requires |digits| == n + 3 > 3
    ensures Pushed(digits, n + 3) == (Pushed(digits, n) + ",") + [digits[n], digits[n + 1], digits[n + 2]]
  {
    PushedNext(digits, n);
    PushedNext(digits, n + 1);
    PushedNext(digits, n + 2);
    PushedAlone(digits, n + 1);
    PushedAlone(digits, n + 2);
    FourParts(Pushed(digits, n), Pushed(digits, n + 1), Pushed(digits, n + 2), Pushed(digits, n + 3),
              digits[n], digits[n + 1], digits[n + 2]);
  }

  lemma GroupedLastThree(digits: string, n: nat)
    requires |digits| == n + 3 > 3
    ensures Grouped(digits) == (Grouped(digits[..n]) + ",") + [digits[n], digits[n + 1], digits[n + 2]]
  {
    assert digits[n..] == [digits[n], digits[n + 1], digits[n + 2]];
  }

  lemma {:induction false} PushedIsGrouped(digits: string)
    ensures Pushed(digits, |digits|) == Grouped(digits)
    decreases |digits|
  {
    if |digits| <= 3 {
      PushedWithoutComma(digits, |digits|);
      assert digits[..|digits|] == digits;
    } else {
      var n := |digits| - 3;
      PushedIsGrouped(digits[..n]);
      PushedOfLonger(digits, digits[..n], n);
      PushedLastThree(digits, n);
      GroupedLastThree(digits, n);
    }
  }

  function WithoutCommas(s: string): string {
    if s == "" then "" else (if s[0] == ',' then "" else [s[0]]) + WithoutCommas(s[1..])
  }

  lemma {:induction false} WithoutCommasSum(s: string, t: string)
    ensures WithoutCommas(s + t) == WithoutCommas(s) + WithoutCommas(t)
  {
    if s == "" {
      assert s + t == t;
    } else {
      assert (s + t)[1..] == s[1..] + t;
      WithoutCommasSum(s[1..], t);
    }
  }

  lemma {:induction false} WithoutCommasOfDigits(s: string)
    requires IsDigits(s)
    ensures WithoutCommas(s) == s
  {
    if s == "" {
    } else {
      WithoutCommasOfDigits(s[1..]);
      assert s == [s[0]] + s[1..];
    }
  }

  /** Grouping loses nothing: without its commas the figure is as it was. */
  lemma {:induction false} GroupingIsUndone(digits: string)
    requires IsDigits(digits)
    ensures WithoutCommas(Grouped(digits)) == digits
    decreases |digits|
  {
    if |digits| <= 3 {
      WithoutCommasOfDigits(digits);
    } else {
      var front, last := digits[..|digits| - 3], digits[|digits| - 3..];
      GroupingIsUndone(front);
      WithoutCommasOfDigits(last);
      WithoutCommasSum(Grouped(front) + ",", last);
      WithoutCommasSum(Grouped(front), ",");
      assert WithoutCommas(",") == "";
    }
  }

  /** Two digits after the point, without closing zeros. */
  function FractionText(hundredths: nat): string
    requires hundredths < 100
  {
    if hundredths == 0 then ""
    else if hundredths % 10 == 0 then [(48 + hundredths / 10) as char]
    else [(48 + hundredths / 10) as char, (48 + hundredths % 10) as char]
  }

  /** An amount that has been rounded to whole hundredths of a credit. */
  method CreditAmount(hundredths: nat) returns (text: string)
    ensures text == CreditText(hundredths)
  {
    var grouped := GroupDigits(Decimal(hundredths / 100));
    var fraction := FractionText(hundredths % 100);
    text := if fraction == "" then grouped else grouped + ['.'] + fraction;
  }

  function CreditText(hundredths: nat): string {
    Figure(Grouped(Decimal(hundredths / 100)), FractionText(hundredths % 100))
  }

  /** How a reader takes such a figure: what is before the point and after it. */
  function ReadAmount(text: string): Option<nat> {
    var point := IndexOf(text, '.');
    ReadParts(WithoutCommas(text[..point]), if point < |text| then text[point + 1..] else "")
  }

  function ReadParts(whole: string, fraction: string): Option<nat> {
    if !IsDigits(whole) || !IsDigits(fraction) || |fraction| > 2 then None
    else
      var hundredths := if |fraction| == 1 then DigitsValue(fraction) * 10 else DigitsValue(fraction);
      Some(DigitsValue(whole) * 100 + hundredths)
  }

  lemma {:induction false} GroupedHasNoPoint(digits: string)
    requires IsDigits(digits)
    ensures '.' !in Grouped(digits)
    decreases |digits|
  {
    if |digits| <= 3 {
    } else {
      GroupedHasNoPoint(digits[..|digits| - 3]);
    }
  }

  lemma FractionReads(h: nat)
    requires h < 100
    ensures var f := FractionText(h);
      IsDigits(f) && |f| <= 2 && (if |f| == 1 then DigitsValue(f) * 10 else DigitsValue(f)) == h
  {
    var f := FractionText(h);
    if |f| == 1 {
      assert f[..0] == "";
    } else if |f| == 2 {
      assert f[..1] == [f[0]] && [f[0]][..0] == "";
      assert DigitsValue([f[0]]) == f[0] as int - 48;
    }
  }

  function Figure(whole: string, fraction: string): string {
    if fraction == "" then whole else whole + ['.'] + fraction
  }

  lemma FigureSplits(whole: string, fraction: string)
    requires '.' !in whole
    ensures var text := Figure(whole, fraction);
      var point := IndexOf(text, '.');
      text[..point] == whole && (if point < |text| then text[point + 1..] else "") == fraction
  {
    var text := Figure(whole, fraction);
    if fraction != "" {
      IndexOfFirst(whole, '.', fraction);
      assert text[..|whole|] == whole && text[|whole| + 1..] == fraction;
    } else {
      assert text[..|text|] == text;
    }
  }

  lemma PartsRead(hundredths: nat)
    ensures ReadParts(Decimal(hundredths / 100), FractionText(hundredths % 100)) == Some(hundredths)
  {
    DecimalReads(hundredths / 100);
    FractionReads(hundredths % 100);
  }

  /** The text of an amount reads back as the amount. */
  lemma AmountReadsBack(hundredths: nat)
    ensures ReadAmount(CreditText(hundredths)) == Some(hundredths)
  {
    var whole := Decimal(hundredths / 100);
    GroupedHasNoPoint(whole);
    GroupingIsUndone(whole);
    FigureSplits(Grouped(whole), FractionText(hundredths % 100));
    PartsRead(hundredths);
  }

  /** It is as short as it can be: no point without a fraction, and no zero at its end. */
  lemma AmountIsShort(hundredths: nat)
    ensures var text := CreditText(hundredths);
      && text != "" && text[|text| - 1] != '.'
      && ('.' in text <==> hundredths % 100 != 0)
      && ('.' in text ==> text[|text| - 1] != '0' && |text| - 3 <= IndexOf(text, '.') < |text| - 1)
  {
    var whole, fraction := Grouped(Decimal(hundredths / 100)), FractionText(hundredths % 100);
    GroupedHasNoPoint(Decimal(hundredths / 100));
    FigureSplits(whole, fraction);
    if fraction == "" {
      GroupedHasDigits(Decimal(hundredths / 100));
      assert forall i | 0 <= i < |whole| :: whole[i] in whole;
    } else {
      assert Figure(whole, fraction) == whole + ['.'] + fraction;
      IndexOfFirst(whole, '.', fraction);
    }
  }

  lemma GroupedHasDigits(digits: string)
    requires digits != ""
    ensures Grouped(digits) != ""
  {
  }
}
