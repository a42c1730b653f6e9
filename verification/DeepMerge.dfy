/** The vendored deep merge, on JSON-like values and with its default options.
    `MergeFields` and `Merge` say what a merge produces; the methods below them
    do it the way the program does, key by key, in whatever order an object
    happens to enumerate its keys. */
module DeepMerge {
  import Text


  datatype Value =
    | Null
    | Bool(truth: bool)
    | Num(number: real)
    | Str(text: string)
    | Arr(items: seq<Value>)
    | Obj(fields: map<string, Value>)

  /** A merge throws when it has to list the keys of `null`. */
  datatype Outcome = Merged(value: Value) | TypeError

  const FORBIDDEN: set<string> := {"__proto__", "constructor", "prototype"}

  /** The names every plain object answers to without owning them. */
  const INHERITED: set<string> := {
    "__proto__", "constructor", "hasOwnProperty", "isPrototypeOf", "propertyIsEnumerable",
    "toLocaleString", "toString", "valueOf", "__defineGetter__", "__defineSetter__",
    "__lookupGetter__", "__lookupSetter__"
  }

  // ----- Key predicates -----

  predicate IsMergeable(v: Value) {
    v.Arr? || v.Obj?
  }

  function EmptyTarget(v: Value): Value {
    if v.Arr? then Arr([]) else Obj(map[])
  }

  /** A string lists its indices as keys; the first `n` of them. */
  function IndexFields(s: string, n: nat): map<string, Value>
    requires n <= |s|
    ensures forall k <- IndexFields(s, n) :: IndexFields(s, n)[k].Str?
  {
    if n == 0 then map[] else IndexFields(s, n - 1)[Text.Decimal(n - 1) := Str([s[n - 1]])]
  }

  /** The own enumerable keys of a value that is not an array, with their values. */
  function OwnFields(v: Value): map<string, Value>
    requires !v.Arr?
  {
    match v
    case Obj(fields) => fields
    case Str(s) => IndexFields(s, |s|)
    case _ => map[]
  }

  /** `in` throws on a primitive, which counts as "no". */
  predicate PropertyIsOn(v: Value, key: string) {
    v.Obj? && (key in v.fields || key in INHERITED)
  }

  predicate PropertyIsUnsafe(target: Value, key: string) {
    PropertyIsOn(target, key) && !(target.Obj? && key in target.fields)
  }

  // ----- The merge -----

  /** Nesting depth, the first part of the measure under which a merge ends. */
  ghost function Height(v: Value): nat {
    match v
    case Arr(items) => 1 + TallestItem(items)
    case Obj(fields) => 1 + TallestField(v, fields.Keys)
    case _ => 0
  }

  ghost function TallestItem(items: seq<Value>): (h: nat)
    ensures forall v <- items :: Height(v) <= h
    ensures items != [] ==> exists v <- items :: Height(v) == h
  {
    if items == [] then 0
    else
      var rest := TallestItem(items[1..]);
      assert items[0] in items && forall v <- items[1..] :: v in items;
      if Height(items[0]) > rest then Height(items[0]) else rest
  }

  ghost function TallestField(v: Value, keys: set<string>): (h: nat)
    requires v.Obj? && keys <= v.fields.Keys
    ensures forall k <- keys :: Height(v.fields[k]) <= h
    decreases v, |keys|
  {
    if keys == {} then 0
    else
      var k :| k in keys;
      var rest := TallestField(v, keys - {k});
      if Height(v.fields[k]) > rest then Height(v.fields[k]) else rest
  }

  ghost function Taller(a: Value, b: Value): nat {
    if Height(a) > Height(b) then Height(a) else Height(b)
  }

  /** The members of a string are strings, so nothing below them can be deeper. */
  lemma OwnFieldShorter(v: Value, key: string)
    requires !v.Arr? && key in OwnFields(v)
    ensures Height(OwnFields(v)[key]) <= Height(v)
    ensures IsMergeable(OwnFields(v)[key]) ==> v.Obj?
    ensures v.Obj? ==> Height(OwnFields(v)[key]) < Height(v)
  {
    match v
    case Obj(fields) =>
      assert Height(fields[key]) <= TallestField(v, fields.Keys);
    case Str(s) =>
    case _ =>
  }

  function Clone(v: Value): Value
    decreases Height(v), 1
  {
    if IsMergeable(v) then Merge(EmptyTarget(v), v) else v
  }

  function CloneAll(items: seq<Value>): seq<Value>
    decreases TallestItem(items), 2, |items|
  {
    if items == [] then [] else [Clone(items[0])] + CloneAll(items[1..])
  }

  predicate Copied(target: Value, source: Value, key: string)
    requires !source.Arr?
  {
    key in OwnFields(source) && key !in FORBIDDEN && !PropertyIsUnsafe(target, key)
  }

  predicate Retained(target: Value, key: string) {
    target.Obj? && key in target.fields && key !in FORBIDDEN
  }

  function MergeKey(target: Value, source: Value, key: string): Value
    requires !target.Arr? && !source.Arr?
    requires Copied(target, source, key) || Retained(target, key)
    decreases Taller(target, source), 0, 0
  {
    if Copied(target, source, key) then
      OwnFieldShorter(source, key);
      var incoming := OwnFields(source)[key];
      if PropertyIsOn(target, key) && IsMergeable(incoming) then
        OwnFieldShorter(target, key);
        Merge(target.fields[key], incoming)
      else if IsMergeable(incoming) then Clone(incoming)
      else incoming
    else
      OwnFieldShorter(target, key);
      Clone(target.fields[key])
  }

  function MergeFields(target: Value, source: Value): map<string, Value>
    requires !target.Arr? && !source.Arr?
    decreases Taller(target, source), 0, 1
  {
    map key | key in (if target.Obj? then target.fields.Keys else {}) + OwnFields(source).Keys
              && (Copied(target, source, key) || Retained(target, key))
      :: MergeKey(target, source, key)
  }

  /** Merging `source` over `target`, where that does not throw. */
  function Merge(target: Value, source: Value): Value
    decreases Taller(target, source), if source.Arr? == target.Arr? then 0 else 3, 2
  {
    if source.Arr? != target.Arr? then Clone(source)
    else if source.Arr? then
      assert TallestItem(target.items + source.items) < Taller(target, source);
      Arr(CloneAll(target.items + source.items))
    else Obj(MergeFields(target, source))
  }

  /** `MergeKey` in the program's own terms: a primitive is its own clone. */
  lemma MergeKeyUnfolds(target: Value, source: Value, key: string)
    requires !target.Arr? && !source.Arr?
    requires Copied(target, source, key) || Retained(target, key)
    ensures MergeKey(target, source, key) ==
            if !Copied(target, source, key) then Clone(target.fields[key])
            else if PropertyIsOn(target, key) && IsMergeable(OwnFields(source)[key]) then
              Merge(target.fields[key], OwnFields(source)[key])
            else Clone(OwnFields(source)[key])
  {
  }

  // ----- What a clone keeps -----

  /** No object inside `v` has a key among `names`, at any depth. */
  ghost predicate Free(v: Value, names: set<string>) {
    match v
    case Arr(items) => forall item <- items :: Free(item, names)
    case Obj(fields) => forall key <- fields.Keys :: key !in names && Free(fields[key], names)
    case _ => true
  }

  ghost predicate Clean(v: Value) {
    Free(v, FORBIDDEN + INHERITED)
  }

  /** `v` without the keys that every object inherits or that may not be merged. */
  ghost function Strip(v: Value): Value {
    match v
    case Arr(items) => Arr(seq(|items|, i requires 0 <= i < |items| => Strip(items[i])))
    case Obj(fields) =>
      Obj(map key | key in fields && key !in FORBIDDEN + INHERITED :: Strip(fields[key]))
    case _ => v
  }

  lemma CloneAllAt(items: seq<Value>)
    ensures |CloneAll(items)| == |items|
    ensures forall i | 0 <= i < |items| :: CloneAll(items)[i] == Clone(items[i])
  {
  }

  lemma {:induction false} CloneStrips(v: Value)
    ensures Clone(v) == Strip(v)
  {
    match v
    case Arr(items) =>
      CloneAllAt(items);
      assert [] + items == items;
      forall i | 0 <= i < |items| ensures Clone(items[i]) == Strip(items[i]) {
        CloneStrips(items[i]);
      }
    case Obj(fields) =>
      var merged := MergeFields(Obj(map[]), v);
      forall key | key in merged.Keys + Strip(v).fields.Keys
        ensures key in merged && key in Strip(v).fields && merged[key] == Strip(v).fields[key]
      {
        MergeKeyUnfolds(Obj(map[]), v, key);
        CloneStrips(fields[key]);
      }
      assert merged == Strip(v).fields;
    case _ =>
  }

  lemma {:induction false} StripCleans(v: Value)
    ensures Clean(Strip(v))
    ensures Clean(v) ==> Strip(v) == v
  {
    match v
    case Arr(items) =>
      forall i | 0 <= i < |items| ensures Clean(Strip(items[i])) && (Clean(items[i]) ==> Strip(items[i]) == items[i]) {
        StripCleans(items[i]);
      }
    case Obj(fields) =>
      forall key <- fields.Keys
        ensures Clean(Strip(fields[key])) && (Clean(fields[key]) ==> Strip(fields[key]) == fields[key]) {
        StripCleans(fields[key]);
      }
    case _ =>
  }

  /** A clone is the value itself exactly when no key in it is dropped. */
  lemma CloneIsIdentityExactly(v: Value)
    ensures Clean(Clone(v))
    ensures Clone(v) == v <==> Clean(v)
  {
    CloneStrips(v);
    StripCleans(v);
  }

  // ----- Forbidden keys never survive -----

  lemma FreeOfFewer(v: Value, names: set<string>, fewer: set<string>)
    requires Free(v, names) && fewer <= names
    ensures Free(v, fewer)
  {
  }

  lemma CloneForbids(v: Value)
    ensures Free(Clone(v), FORBIDDEN)
  {
    CloneIsIdentityExactly(v);
    FreeOfFewer(Clone(v), FORBIDDEN + INHERITED, FORBIDDEN);
  }

  /** Whatever is merged over whatever, no forbidden key is in the result at any depth. */
  lemma {:induction false} MergeForbids(target: Value, source: Value)
    ensures Free(Merge(target, source), FORBIDDEN)
    decreases source
  {
    if source.Arr? != target.Arr? {
      CloneForbids(source);
    } else if source.Arr? {
      CloneAllAt(target.items + source.items);
      forall i | 0 <= i < |target.items + source.items|
        ensures Free(CloneAll(target.items + source.items)[i], FORBIDDEN)
      {
        CloneForbids((target.items + source.items)[i]);
      }
    } else {
      var merged := MergeFields(target, source);
      forall key <- merged.Keys ensures key !in FORBIDDEN && Free(merged[key], FORBIDDEN) {
        MergeKeyUnfolds(target, source, key);
        if Copied(target, source, key) {
          var incoming := OwnFields(source)[key];
          if PropertyIsOn(target, key) && IsMergeable(incoming) {
            OwnFieldShorter(source, key);
            MergeForbids(target.fields[key], incoming);
          } else {
            CloneForbids(incoming);
          }
        } else {
          CloneForbids(target.fields[key]);
        }
      }
    }
  }

  // ----- Clean values: merging is a plain overlay -----

  /** Merging without options, prototypes or copies: objects field by field,
      arrays end to end, and otherwise the newer value. */
  ghost function Overlay(older: Value, newer: Value): Value {
    match (older, newer)
    case (Obj(f), Obj(g)) =>
      Obj(map key | key in f.Keys + g.Keys ::
            if key !in g then f[key] else if key !in f then g[key] else Overlay(f[key], g[key]))
    case (Arr(xs), Arr(ys)) => Arr(xs + ys)
    case _ => newer
  }

  lemma {:induction false} CleanMergeIsOverlay(target: Value, source: Value)
    requires Clean(target) && Clean(source) && IsMergeable(source)
    ensures Merge(target, source) == Overlay(target, source)
    ensures Clean(Merge(target, source))
    decreases source
  {
    CloneIsIdentityExactly(source);
    if source.Arr? != target.Arr? {
    } else if source.Arr? {
      var both := target.items + source.items;
      CloneAllAt(both);
      forall i | 0 <= i < |both| ensures Clone(both[i]) == both[i] && Clean(both[i]) {
        CloneIsIdentityExactly(both[i]);
      }
      assert CloneAll(both) == both;
    } else {
      var merged, overlay := MergeFields(target, source), Overlay(target, source).fields;
      forall key | key in merged.Keys + overlay.Keys
        ensures key in merged && key in overlay && merged[key] == overlay[key] && Clean(merged[key])
      {
        assert Copied(target, source, key) || Retained(target, key);
        MergeKeyUnfolds(target, source, key);
        if key in source.fields {
          var incoming := source.fields[key];
          CloneIsIdentityExactly(incoming);
          if target.Obj? && key in target.fields {
            if IsMergeable(incoming) {
              CleanMergeIsOverlay(target.fields[key], incoming);
            } else {
              assert Overlay(target.fields[key], incoming) == incoming;
            }
          }
        } else {
          CloneIsIdentityExactly(target.fields[key]);
        }
      }
      assert merged == overlay;
    }
  }

  // ----- When merging is associative -----

  /** Laying `newer` over `older` changes nothing about `newer`. */
  ghost predicate Absorbed(older: Value, newer: Value) {
    match (older, newer)
    case (Obj(f), Obj(g)) => f.Keys <= g.Keys && forall key <- f.Keys :: Absorbed(f[key], g[key])
    case (Arr(xs), Arr(ys)) => xs == []
    case _ => true
  }

  /** Nowhere do the first and third value hold containers of one kind with a
      value of another kind between them, unless the first has nothing to add. */
  ghost predicate Uninterrupted(x: Value, y: Value, z: Value) {
    match (x, z)
    case (Obj(f), Obj(h)) =>
      if y.Obj? then
        forall key <- f.Keys * y.fields.Keys * h.Keys :: Uninterrupted(f[key], y.fields[key], h[key])
      else Absorbed(x, z)
    case (Arr(_), Arr(_)) => y.Arr? || Absorbed(x, z)
    case _ => true
  }

  lemma {:induction false} AbsorbedExactly(older: Value, newer: Value)
    ensures Overlay(older, newer) == newer <==> Absorbed(older, newer)
  {
    match (older, newer)
    case (Obj(f), Obj(g)) =>
      var laid := Overlay(older, newer).fields;
      forall key <- f.Keys * g.Keys ensures laid[key] == g[key] <==> Absorbed(f[key], g[key]) {
        AbsorbedExactly(f[key], g[key]);
      }
      if Absorbed(older, newer) { assert laid == g; }
      if laid == g { assert f.Keys <= laid.Keys; }
    case (Arr(xs), Arr(ys)) =>
      if xs + ys == ys { assert |xs| == 0; }
    case _ =>
  }

  lemma {:induction false} OverlayAssociatesExactly(x: Value, y: Value, z: Value)
    ensures Overlay(x, Overlay(y, z)) == Overlay(Overlay(x, y), z) <==> Uninterrupted(x, y, z)
  {
    if x.Obj? && y.Obj? && z.Obj? {
      var left, right := Overlay(x, Overlay(y, z)).fields, Overlay(Overlay(x, y), z).fields;
      var shared := x.fields.Keys * y.fields.Keys * z.fields.Keys;
      assert left.Keys == right.Keys;
      forall key <- left.Keys
        ensures left[key] == right[key] <==>
          (key in shared ==> Uninterrupted(x.fields[key], y.fields[key], z.fields[key]))
      {
        if key in shared {
          OverlayAssociatesExactly(x.fields[key], y.fields[key], z.fields[key]);
        }
      }
      if Uninterrupted(x, y, z) { assert left == right; }
    } else if x.Arr? && y.Arr? && z.Arr? {
      assert x.items + (y.items + z.items) == (x.items + y.items) + z.items;
    } else {
      AbsorbedExactly(x, z);
    }
  }

  /** Merging clean objects or arrays associates exactly when no container is
      interrupted by a value of another kind. */
  lemma MergeAssociatesExactly(x: Value, y: Value, z: Value)
    requires Clean(x) && Clean(y) && Clean(z)
    requires IsMergeable(y) && IsMergeable(z)
    ensures Merge(x, Merge(y, z)) == Merge(Merge(x, y), z) <==> Uninterrupted(x, y, z)
  {
    CleanMergeIsOverlay(y, z);
    CleanMergeIsOverlay(x, y);
    CleanMergeIsOverlay(x, Merge(y, z));
    CleanMergeIsOverlay(Merge(x, y), z);
    OverlayAssociatesExactly(x, y, z);
  }

  function Under(key: string, v: Value): Value {
    Obj(map[key := v])
  }

  lemma ShortKeyIsPlain(key: string)
    requires |key| == 1
    ensures key !in FORBIDDEN + INHERITED
  {
  }

  lemma UnderIsClean(key: string, v: Value)
    requires |key| == 1 && Clean(v)
    ensures Clean(Under(key, v))
  {
    ShortKeyIsPlain(key);
  }

  lemma OverlayUnder(key: string, older: Value, newer: Value)
    ensures Overlay(Under(key, older), Under(key, newer)) == Under(key, Overlay(older, newer))
  {
    assert Overlay(Under(key, older), Under(key, newer)).fields == Under(key, Overlay(older, newer)).fields;
  }

  lemma MergeUnder(key: string, older: Value, newer: Value)
    requires |key| == 1 && Clean(older) && Clean(newer)
    ensures Merge(Under(key, older), Under(key, newer)) == Under(key, Overlay(older, newer))
    ensures Clean(Overlay(older, newer))
  {
    UnderIsClean(key, older);
    UnderIsClean(key, newer);
    CleanMergeIsOverlay(Under(key, older), Under(key, newer));
    OverlayUnder(key, older, newer);
    assert Overlay(older, newer) == Under(key, Overlay(older, newer)).fields[key];
  }

  lemma MergesUnder(key: string, p: Value, q: Value, r: Value)
    requires |key| == 1 && Clean(p) && Clean(q) && Clean(r)
    ensures Merge(Under(key, p), Merge(Under(key, q), Under(key, r))) == Under(key, Overlay(p, Overlay(q, r)))
    ensures Merge(Merge(Under(key, p), Under(key, q)), Under(key, r)) == Under(key, Overlay(Overlay(p, q), r))
  {
    MergeUnder(key, q, r);
    MergeUnder(key, p, Overlay(q, r));
    MergeUnder(key, p, q);
    MergeUnder(key, Overlay(p, q), r);
  }

  lemma OverlaysDiffer(one: Value, two: Value)
    requires one == Num(1.0) && two == Num(2.0)
    ensures var (b, c) := (Under("b", one), Under("c", two));
      && Overlay(b, Overlay(one, c)) == Obj(map["b" := one, "c" := two]) && Overlay(Overlay(b, one), c) == c
  {
    assert Overlay(Under("b", one), Under("c", two)).fields == map["b" := one, "c" := two];
  }

  /** Values of which merging the later two first keeps what merging the earlier two
      first loses. */
  lemma OrderOfMergingMatters(one: Value, two: Value)
    requires one == Num(1.0) && two == Num(2.0)
    ensures var (x, y, z) := (Under("a", Under("b", one)), Under("a", one), Under("a", Under("c", two)));
      && Merge(x, Merge(y, z)) == Under("a", Obj(map["b" := one, "c" := two]))
      && Merge(Merge(x, y), z) == z
  {
    UnderIsClean("b", one);
    UnderIsClean("c", two);
    OverlaysDiffer(one, two);
    MergesUnder("a", Under("b", one), one, Under("c", two));
  }

  // ----- Merging a list -----

  function DeepMerge(target: Value, source: Value): Outcome {
    if source.Null? && !target.Arr? then TypeError else Merged(Merge(target, source))
  }

  function MergeFrom(start: Value, values: seq<Value>): Outcome
    decreases |values|
  {
    if values == [] then Merged(start)
    else
      var before := MergeFrom(start, values[..|values| - 1]);
      if before.TypeError? then TypeError else DeepMerge(before.value, values[|values| - 1])
  }

  function MergeAll(values: seq<Value>): Outcome {
    MergeFrom(Obj(map[]), values)
  }

  /** A list fails to merge exactly when it holds a `null` that no array precedes directly. */
  lemma {:induction false} MergeAllThrowsExactly(values: seq<Value>)
    ensures MergeAll(values).TypeError? <==>
            exists i | 0 <= i < |values| :: values[i].Null? && !(i > 0 && values[i - 1].Arr?)
    ensures MergeAll(values).Merged? ==>
            (MergeAll(values).value.Arr? <==> values != [] && values[|values| - 1].Arr?)
  {
    if values == [] {
    } else {
      var last := |values| - 1;
      MergeAllThrowsExactly(values[..last]);
      if MergeAll(values[..last]).TypeError? {
        var i :| 0 <= i < last && values[..last][i].Null? && !(i > 0 && values[..last][i - 1].Arr?);
        assert values[i].Null? && !(i > 0 && values[i - 1].Arr?);
      } else {
        CloneIsIdentityExactly(values[last]);
        CloneKeepsKind(values[last]);
        forall i | 0 <= i < last ensures !(values[i].Null? && !(i > 0 && values[i - 1].Arr?)) {
          assert values[..last][i] == values[i] && (i > 0 ==> values[..last][i - 1] == values[i - 1]);
        }
      }
    }
  }

  lemma CloneKeepsKind(v: Value)
    ensures Clone(v).Arr? == v.Arr? && Clone(v).Obj? == v.Obj?
  {
    CloneStrips(v);
  }

  /** At every path two values share they hold the same kind of thing. */
  ghost predicate Agree(x: Value, y: Value) {
    match (x, y)
    case (Obj(f), Obj(g)) => forall key <- f.Keys * g.Keys :: Agree(f[key], g[key])
    case _ => x.Arr? == y.Arr? && x.Obj? == y.Obj?
  }

  lemma {:induction false} AgreeingIsUninterrupted(x: Value, y: Value, z: Value)
    requires Agree(y, z)
    ensures Uninterrupted(x, y, z)
  {
    if !x.Obj? || !y.Obj? || !z.Obj? {
    } else {
      forall key <- x.fields.Keys * y.fields.Keys * z.fields.Keys
        ensures Uninterrupted(x.fields[key], y.fields[key], z.fields[key])
      {
        AgreeingIsUninterrupted(x.fields[key], y.fields[key], z.fields[key]);
      }
    }
  }

  lemma {:induction false} OverlayAgrees(x: Value, y: Value, z: Value)
    requires Agree(x, z) && Agree(y, z)
    ensures Agree(Overlay(x, y), z)
  {
    if !x.Obj? || !y.Obj? {
    } else {
      var laid := Overlay(x, y).fields;
      forall key <- laid.Keys * z.fields.Keys ensures Agree(laid[key], z.fields[key]) {
        if key in x.fields && key in y.fields {
          OverlayAgrees(x.fields[key], y.fields[key], z.fields[key]);
        }
      }
    }
  }

  ghost predicate CleanObjects(values: seq<Value>) {
    forall v <- values :: v.Obj? && Clean(v)
  }

  ghost predicate PairwiseAgree(values: seq<Value>) {
    forall i, j | 0 <= i < j < |values| :: Agree(values[i], values[j])
  }

  lemma {:induction false} MergeAllOfObjects(values: seq<Value>)
    requires CleanObjects(values)
    ensures MergeAll(values).Merged? && MergeAll(values).value.Obj? && Clean(MergeAll(values).value)
  {
    if values == [] {
    } else {
      MergeAllOfObjects(values[..|values| - 1]);
      CleanMergeIsOverlay(MergeAll(values[..|values| - 1]).value, values[|values| - 1]);
    }
  }

  lemma {:induction false} MergeAllAgrees(values: seq<Value>, next: Value)
    requires CleanObjects(values) && next.Obj?
    requires forall v <- values :: Agree(v, next)
    ensures MergeAll(values).Merged? && Agree(MergeAll(values).value, next)
  {
    MergeAllOfObjects(values);
    if values == [] {
    } else {
      var before, last := values[..|values| - 1], values[|values| - 1];
      MergeAllAgrees(before, next);
      MergeAllOfObjects(before);
      CleanMergeIsOverlay(MergeAll(before).value, last);
      OverlayAgrees(MergeAll(before).value, last, next);
    }
  }

  /** Two lists merged apart and then together give what one long list gives,
      provided the later list never changes a kind within itself. */
  lemma {:induction false} MergeAllConcatenates(xs: seq<Value>, ys: seq<Value>)
    requires CleanObjects(xs) && CleanObjects(ys) && PairwiseAgree(ys)
    ensures MergeAll(xs).Merged? && MergeAll(ys).Merged?
    ensures MergeAll(xs + ys) == DeepMerge(MergeAll(xs).value, MergeAll(ys).value)
    decreases |ys|
  {
    MergeAllOfObjects(xs);
    MergeAllOfObjects(ys);
    var all := MergeAll(xs).value;
    if ys == [] {
      assert xs + ys == xs;
      CleanMergeIsOverlay(all, Obj(map[]));
      assert Overlay(all, Obj(map[])).fields == all.fields;
    } else {
      var before, last := ys[..|ys| - 1], ys[|ys| - 1];
      assert (xs + ys)[..|xs + ys| - 1] == xs + before;
      MergeAllConcatenates(xs, before);
      MergeAllOfObjects(before);
      MergeAllAgrees(before, last);
      var later := MergeAll(before).value;
      AgreeingIsUninterrupted(all, later, last);
      MergeAssociatesExactly(all, later, last);
    }
  }

  // ----- The merge as it runs -----

  /** The destination once the target and the source keys in `done` are in. */
  ghost function FieldsAfter(target: Value, source: Value, done: set<string>): map<string, Value>
    requires !target.Arr? && !source.Arr?
  {
    map key | key in (if target.Obj? then target.fields.Keys else {}) + done
              && ((key in done && Copied(target, source, key)) || Retained(target, key))
      :: if key in done && Copied(target, source, key) then MergeKey(target, source, key) else Clone(target.fields[key])
  }

  lemma FieldsAfterKey(target: Value, source: Value, done: set<string>, key: string)
    requires !target.Arr? && !source.Arr? && key in OwnFields(source) && key !in done
    ensures FieldsAfter(target, source, done + {key}) ==
            if Copied(target, source, key) then FieldsAfter(target, source, done)[key := MergeKey(target, source, key)]
            else FieldsAfter(target, source, done)
  {
  }

  lemma FieldsAfterAll(target: Value, source: Value)
    requires !target.Arr? && !source.Arr?
    ensures FieldsAfter(target, source, OwnFields(source).Keys) == MergeFields(target, source)
  {
  }

  /** The target's own fields under some of its keys, without the forbidden ones. */
  ghost function ClonedFields(fields: map<string, Value>, keys: set<string>): map<string, Value>
    requires keys <= fields.Keys
  {
    map key | key in keys && key !in FORBIDDEN :: Clone(fields[key])
  }

  lemma ClonedFieldsKey(fields: map<string, Value>, keys: set<string>, key: string)
    requires keys <= fields.Keys && key in fields && key !in keys
    ensures ClonedFields(fields, keys + {key}) ==
            if key in FORBIDDEN then ClonedFields(fields, keys)
            else ClonedFields(fields, keys)[key := Clone(fields[key])]
  {
  }

  lemma ClonedFieldsAll(target: Value, source: Value)
    requires target.Obj? && !source.Arr?
    ensures FieldsAfter(target, source, {}) == ClonedFields(target.fields, target.fields.Keys)
  {
  }

  method CopyTarget(target: Value, ghost source: Value) returns (destination: map<string, Value>)
    requires !target.Arr? && !source.Arr?
    ensures destination == FieldsAfter(target, source, {})
    decreases Taller(target, source), 0, 0
  {
    destination := map[];
    if IsMergeable(target) {
      var pending := target.fields.Keys;
      ghost var done: set<string> := {};
      while pending != {}
        invariant pending !! done && pending + done == target.fields.Keys
        invariant destination == ClonedFields(target.fields, done)
      {
        var key :| key in pending;
        ClonedFieldsKey(target.fields, done, key);
        if key !in FORBIDDEN {
          OwnFieldShorter(target, key);
          var copy := CloneUnlessOtherwiseSpecified(target.fields[key]);
          destination := destination[key := copy];
        }
        pending := pending - {key};
        done := done + {key};
      }
      ClonedFieldsAll(target, source);
    }
  }

  method MergeField(target: Value, source: Value, key: string) returns (merged: Value)
    requires !target.Arr? && !source.Arr? && Copied(target, source, key)
    ensures merged == MergeKey(target, source, key)
    decreases Taller(target, source), 0, 0
  {
    MergeKeyUnfolds(target, source, key);
    OwnFieldShorter(source, key);
    merged := OwnFields(source)[key];
    if PropertyIsOn(target, key) && IsMergeable(merged) {
      OwnFieldShorter(target, key);
      merged := RunMerge(target.fields[key], merged);
    } else if IsMergeable(merged) {
      merged := CloneUnlessOtherwiseSpecified(merged);
    }
  }

  /** Fills the destination key by key, in any order of enumeration. */
  method MergeObject(target: Value, source: Value) returns (destination: map<string, Value>)
    requires !target.Arr? && !source.Arr?
    ensures destination == MergeFields(target, source)
    decreases Taller(target, source), 0, 1
  {
    destination := CopyTarget(target, source);
    var incoming := OwnFields(source).Keys;
    var pending := incoming;
    ghost var done := {};
    while pending != {}
      invariant pending !! done && pending + done == incoming
      invariant destination == FieldsAfter(target, source, done)
    {
      var key :| key in pending;
      FieldsAfterKey(target, source, done, key);
      if !(key in FORBIDDEN || PropertyIsUnsafe(target, key)) {
        var merged := MergeField(target, source, key);
        destination := destination[key := merged];
      }
      pending := pending - {key};
      done := done + {key};
    }
    FieldsAfterAll(target, source);
  }

  method CloneUnlessOtherwiseSpecified(value: Value) returns (copy: Value)
    ensures copy == Clone(value)
    decreases Height(value), 1
  {
    copy := value;
    if IsMergeable(value) {
      copy := RunMerge(EmptyTarget(value), value);
    }
  }

  method ArrayMerge(target: seq<Value>, source: seq<Value>) returns (merged: seq<Value>)
    ensures merged == CloneAll(target + source)
    decreases TallestItem(target + source), 2, |target + source|
  {
    var items := target + source;
    merged := [];
    for i := 0 to |items|
      invariant |merged| == i
      invariant forall j | 0 <= j < i :: merged[j] == Clone(items[j])
    {
      assert items[i] in items;
      var copy := CloneUnlessOtherwiseSpecified(items[i]);
      merged := merged + [copy];
    }
    CloneAllAt(items);
  }

  method RunMerge(target: Value, source: Value) returns (merged: Value)
    ensures merged == Merge(target, source)
    decreases Taller(target, source), if source.Arr? == target.Arr? then 0 else 3, 2
  {
    if source.Arr? != target.Arr? {
      merged := CloneUnlessOtherwiseSpecified(source);
    } else if source.Arr? {
      assert TallestItem(target.items + source.items) < Taller(target, source);
      var items := ArrayMerge(target.items, source.items);
      merged := Arr(items);
    } else {
      var fields := MergeObject(target, source);
      merged := Obj(fields);
    }
  }
}
