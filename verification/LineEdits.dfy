/** Lists whose first fitting item an editor replaces, and of which a reader takes the
    last word. What counts as fitting and what an item says are parameters. */
module LineEdits {
  import opened Wrappers
  import opened Text

  // ----- The last word -----

  /** What the last item to say anything says. */
  function LastWord<T, V>(said: T -> Option<V>, items: seq<T>): Option<V> {
    if items == [] then None
    else
      var last := said(items[|items| - 1]);
      if last.Some? then last else LastWord(said, items[..|items| - 1])
  }

  function Or<V>(first: Option<V>, second: Option<V>): Option<V> {
    if first.Some? then first else second
  }

  lemma LastWordOfMore<T, V>(said: T -> Option<V>, items: seq<T>, item: T)
    ensures LastWord(said, items + [item]) == Or(said(item), LastWord(said, items))
  {
    assert (items + [item])[..|items|] == items;
  }

  lemma {:induction false} LastWordOfSum<T, V>(said: T -> Option<V>, before: seq<T>, after: seq<T>)
    ensures LastWord(said, before + after) == Or(LastWord(said, after), LastWord(said, before))
    decreases |after|
  {
    if after == [] {
      assert before + after == before;
    } else {
      var init, last := UpToLast(after);
      assert before + after == (before + init) + [last];
      LastWordOfSum(said, before, init);
      LastWordOfMore(said, before + init, last);
      LastWordOfMore(said, init, last);
    }
  }

  lemma LastWordOfCons<T, V>(said: T -> Option<V>, item: T, later: seq<T>)
    ensures LastWord(said, [item] + later) == Or(LastWord(said, later), said(item))
  {
    LastWordOfSum(said, [item], later);
    LastWordOfMore(said, [], item);
    assert [] + [item] == [item];
  }

  lemma {:induction false} NoWord<T, V>(said: T -> Option<V>, items: seq<T>)
    requires forall i | 0 <= i < |items| :: said(items[i]).None?
    ensures LastWord(said, items).None?
  {
    if items == [] {
    } else {
      NoWord(said, items[..|items| - 1]);
    }
  }

  lemma {:induction false} SomeWord<T, V>(said: T -> Option<V>, items: seq<T>, i: nat)
    requires i < |items| && said(items[i]).Some?
    ensures LastWord(said, items).Some?
  {
    if i == |items| - 1 {
    } else {
      SomeWord(said, items[..|items| - 1], i);
    }
  }

  /** The last word is one that some item says. */
  lemma {:induction false} WordOfItem<T, V>(said: T -> Option<V>, items: seq<T>)
    ensures LastWord(said, items).Some? ==> exists i | 0 <= i < |items| :: said(items[i]) == LastWord(said, items)
  {
    if items == [] {
    } else {
      WordOfItem(said, items[..|items| - 1]);
    }
  }

  // ----- Replacing the first -----

  function FirstHit<T>(hit: T -> bool, items: seq<T>): (i: nat)
    ensures i <= |items| && (i < |items| ==> hit(items[i]))
    ensures forall j | 0 <= j < i :: !hit(items[j])
  {
    if items == [] || hit(items[0]) then 0 else 1 + FirstHit(hit, items[1..])
  }

  lemma FirstHitIs<T>(hit: T -> bool, items: seq<T>, i: nat)
    requires i <= |items| && (i < |items| ==> hit(items[i])) && forall j | 0 <= j < i :: !hit(items[j])
    ensures FirstHit(hit, items) == i
  {
  }

  predicate Has<T>(hit: T -> bool, items: seq<T>) {
    FirstHit(hit, items) < |items|
  }

  /** The items with `item` at `i`, which may be just after the last. */
  function PutAt<T>(items: seq<T>, i: nat, item: T): seq<T>
    requires i <= |items|
  {
    items[..i] + ([item] + (if i < |items| then items[i + 1..] else []))
  }

  lemma PutAtIs<T>(items: seq<T>, i: nat, item: T)
    requires i <= |items|
    ensures PutAt(items, i, item) == if i < |items| then items[i := item] else items + [item]
  {
  }

  /** The items with `item` in place of the first that fits, or at the end. */
  function Put<T>(hit: T -> bool, items: seq<T>, item: T): seq<T> {
    PutAt(items, FirstHit(hit, items), item)
  }

  function Above<T>(hit: T -> bool, items: seq<T>): seq<T> {
    items[..FirstHit(hit, items)]
  }

  function Below<T>(hit: T -> bool, items: seq<T>): seq<T> {
    if Has(hit, items) then items[FirstHit(hit, items) + 1..] else []
  }

  lemma LastWordOfPut<T, V>(said: T -> Option<V>, hit: T -> bool, items: seq<T>, item: T)
    ensures LastWord(said, Put(hit, items, item)) ==
            Or(LastWord(said, Below(hit, items)), Or(said(item), LastWord(said, Above(hit, items))))
  {
    LastWordOfSum(said, Above(hit, items), [item] + Below(hit, items));
    LastWordOfCons(said, item, Below(hit, items));
  }

  lemma LastWordOfAdded<T, V>(said: T -> Option<V>, hit: T -> bool, items: seq<T>, item: T)
    requires !Has(hit, items)
    ensures LastWord(said, Put(hit, items, item)) == Or(said(item), LastWord(said, items))
  {
    LastWordOfPut(said, hit, items, item);
    assert items[..|items|] == items;
  }

  lemma LastWordOfOne<T, V>(said: T -> Option<V>, item: T)
    ensures LastWord(said, [item]) == said(item)
  {
    LastWordOfMore(said, [], item);
    assert [] + [item] == [item];
  }

  lemma LastWordOfAddedToOne<T, V>(said: T -> Option<V>, hit: T -> bool, item: T, next: T)
    requires !hit(item)
    ensures LastWord(said, Put(hit, [item], next)) == Or(said(next), said(item))
  {
    FirstHitIs(hit, [item], 1);
    LastWordOfAdded(said, hit, [item], next);
    LastWordOfOne(said, item);
  }

  /** What is about one thing: what says something of it is, and what fits it is. */
  ghost predicate Concerns<T(!new), V(!new)>(about: T -> bool, said: T -> Option<V>, hit: T -> bool) {
    && (forall x: T :: hit(x) ==> about(x))
    && (forall x: T :: said(x).Some? ==> about(x))
  }

  ghost predicate OneAtMost<T>(about: T -> bool, items: seq<T>) {
    forall j, k | 0 <= j < k < |items| :: !(about(items[j]) && about(items[k]))
  }

  lemma SilentBelow<T(!new), V(!new)>(about: T -> bool, said: T -> Option<V>, hit: T -> bool, items: seq<T>)
    requires Concerns(about, said, hit) && OneAtMost(about, items)
    ensures LastWord(said, Below(hit, items)).None?
  {
    var k, below := FirstHit(hit, items), Below(hit, items);
    forall i | 0 <= i < |below| ensures said(below[i]).None? {
      assert below[i] == items[k + 1 + i] && about(items[k]);
    }
    NoWord(said, below);
  }

  lemma SilentAbove<T, V>(said: T -> Option<V>, hit: T -> bool, items: seq<T>)
    requires forall i | 0 <= i < |items| :: hit(items[i]) || said(items[i]).None?
    ensures LastWord(said, Above(hit, items)).None?
  {
    NoWord(said, Above(hit, items));
  }

  /** When at most one item is about a thing, and one that does not fit says something
      of it, none fits. */
  lemma SaidAbove<T(!new), V(!new)>(about: T -> bool, said: T -> Option<V>, hit: T -> bool, items: seq<T>, i: nat)
    requires Concerns(about, said, hit) && OneAtMost(about, items)
    requires i < |items| && !hit(items[i]) && said(items[i]).Some?
    ensures LastWord(said, Above(hit, items)).Some?
  {
    assert about(items[i]);
    NoOtherHit(about, hit, items, i, FirstHit(hit, items));
    assert items[..|items|] == items;
    SomeWord(said, items, i);
  }

  lemma NoOtherHit<T(!new)>(about: T -> bool, hit: T -> bool, items: seq<T>, i: nat, k: nat)
    requires (forall x: T :: hit(x) ==> about(x)) && OneAtMost(about, items)
    requires i < |items| && about(items[i]) && !hit(items[i]) && k == FirstHit(hit, items)
    ensures k == |items|
  {
  }

  /** Items that say nothing make no difference to the last word. */
  lemma PutSilently<T, V>(said: T -> Option<V>, hit: T -> bool, items: seq<T>, item: T)
    requires said(item).None? && forall x: T :: hit(x) ==> said(x).None?
    ensures LastWord(said, Put(hit, items, item)) == LastWord(said, items)
  {
    var i := FirstHit(hit, items);
    LastWordOfPut(said, hit, items, item);
    if i < |items| {
      SplitAt(items, i);
      LastWordOfSum(said, items[..i], [items[i]] + items[i + 1..]);
      LastWordOfCons(said, items[i], items[i + 1..]);
    } else {
      assert items[..i] == items;
    }
  }

  /** A second replacement of the same kind undoes the first. */
  lemma PutTwice<T>(hit: T -> bool, items: seq<T>, first: T, second: T)
    requires hit(first)
    ensures Put(hit, Put(hit, items, first), second) == Put(hit, items, second)
  {
    var i := FirstHit(hit, items);
    PutAtIs(items, i, first);
    PutAtIs(items, i, second);
    FirstHitIs(hit, Put(hit, items, first), i);
    PutAtIs(Put(hit, items, first), i, second);
  }

  /** Two kinds of item that no item is both of. */
  ghost predicate Unlike<T(!new)>(hit: T -> bool, other: T -> bool) {
    forall x: T :: !(hit(x) && other(x))
  }

  lemma FirstHitAfterOther<T(!new)>(hit: T -> bool, other: T -> bool, items: seq<T>, item: T)
    requires Unlike(hit, other) && other(item)
    ensures var after := Put(other, items, item);
      FirstHit(hit, after) == if Has(hit, items) then FirstHit(hit, items) else |after|
  {
    PutAtIs(items, FirstHit(other, items), item);
    var after := Put(other, items, item);
    FirstHitIs(hit, after, if Has(hit, items) then FirstHit(hit, items) else |after|);
  }

  lemma PutsAtCommute<T>(items: seq<T>, i: nat, k: nat, item: T, next: T)
    requires i <= |items| && k <= |items| && (i == k ==> i == |items|)
    requires i == k ==> item != next
    ensures var one, two := PutAt(items, i, item), PutAt(items, k, next);
      PutAt(one, if k < |items| then k else |one|, next) == PutAt(two, if i < |items| then i else |two|, item) <==>
      i < |items| || k < |items|
  {
    var one, two := PutAt(items, i, item), PutAt(items, k, next);
    PutAtIs(items, i, item);
    PutAtIs(items, k, next);
    PutAtIs(one, if k < |items| then k else |one|, next);
    PutAtIs(two, if i < |items| then i else |two|, item);
    if i == k {
      assert (one + [next])[|items|] == item && (two + [item])[|items|] == next;
    }
  }

  /** Replacements of two kinds commute exactly when one of them has an item to replace;
      otherwise both add theirs at the end, in the order they come. */
  lemma PutsCommuteExactly<T(!new)>(hit: T -> bool, other: T -> bool, items: seq<T>, item: T, next: T)
    requires Unlike(hit, other) && hit(item) && other(next)
    ensures Put(other, Put(hit, items, item), next) == Put(hit, Put(other, items, next), item) <==>
            Has(hit, items) || Has(other, items)
  {
    FirstHitAfterOther(hit, other, items, next);
    FirstHitAfterOther(other, hit, items, item);
    PutsAtCommute(items, FirstHit(hit, items), FirstHit(other, items), item, next);
  }

  /** The last word is the same in either order, when one of the two says nothing. */
  lemma PutsCommuteInWord<T(!new), V>(said: T -> Option<V>, hit: T -> bool, other: T -> bool, items: seq<T>,
                                      item: T, next: T)
    requires Unlike(hit, other) && hit(item) && other(next)
    requires said(item).None? || said(next).None?
    ensures LastWord(said, Put(other, Put(hit, items, item), next)) ==
            LastWord(said, Put(hit, Put(other, items, next), item))
  {
    PutsCommuteExactly(hit, other, items, item, next);
    if !Has(hit, items) && !Has(other, items) {
      FirstHitAfterOther(hit, other, items, next);
      FirstHitAfterOther(other, hit, items, item);
      LastWordOfAdded(said, hit, items, item);
      LastWordOfAdded(said, other, items, next);
      LastWordOfAdded(said, other, Put(hit, items, item), next);
      LastWordOfAdded(said, hit, Put(other, items, next), item);
    }
  }

  lemma PutHolds<T>(hit: T -> bool, items: seq<T>, item: T)
    ensures item in Put(hit, items, item)
  {
    PutAtIs(items, FirstHit(hit, items), item);
    assert Put(hit, items, item)[FirstHit(hit, items)] == item;
  }

  // ----- Reading one after another -----

  function Fold<S, T>(step: (S, T) -> S, begin: S, items: seq<T>): S {
    if items == [] then begin else step(Fold(step, begin, items[..|items| - 1]), items[|items| - 1])
  }

  lemma FoldOfMore<S, T>(step: (S, T) -> S, begin: S, items: seq<T>, item: T)
    ensures Fold(step, begin, items + [item]) == step(Fold(step, begin, items), item)
  {
    assert (items + [item])[..|items|] == items;
  }

  lemma FoldStep<S, T>(step: (S, T) -> S, begin: S, items: seq<T>, i: nat)
    requires i < |items|
    ensures Fold(step, begin, items[..i + 1]) == step(Fold(step, begin, items[..i]), items[i])
  {
    assert items[..i + 1][..i] == items[..i];
  }

  /** An item that changes nothing, wherever it is read. */
  ghost predicate Idle<S(!new), T>(step: (S, T) -> S, item: T) {
    forall s: S :: step(s, item) == s
  }

  lemma {:induction false} FoldOfIdleFirst<S(!new), T>(step: (S, T) -> S, begin: S, idle: T, items: seq<T>)
    requires Idle(step, idle)
    ensures Fold(step, begin, [idle] + items) == Fold(step, begin, items)
    decreases |items|
  {
    if items == [] {
      FoldOfMore(step, begin, [], idle);
      assert [idle] + items == [] + [idle];
    } else {
      var init, last := UpToLast(items);
      FoldOfIdleFirst(step, begin, idle, init);
      Brackets([idle], init, [last]);
      FoldOfMore(step, begin, [idle] + init, last);
      FoldOfMore(step, begin, init, last);
    }
  }

  function WithoutLeading<T(==)>(item: T, items: seq<T>): seq<T> {
    if items != [] && items[0] == item then WithoutLeading(item, items[1..]) else items
  }

  lemma {:induction false} FoldWithoutLeading<S(!new), T>(step: (S, T) -> S, begin: S, idle: T, items: seq<T>)
    requires Idle(step, idle)
    ensures Fold(step, begin, WithoutLeading(idle, items)) == Fold(step, begin, items)
  {
    if items == [] || items[0] != idle {
    } else {
      var later := items[1..];
      assert items == [idle] + later;
      FoldWithoutLeading(step, begin, idle, later);
      FoldOfIdleFirst(step, begin, idle, later);
    }
  }
}
