/**
  An observable list that keeps a count of its items per category and announces
  every item that is added or removed.
 */
module CollectionSources {
  import opened Sequences
  import opened Wrappers

  // ---------- Counting ----------

  /** How many items carry the label. */
  function Count<T>(items: seq<T>, labelOf: T -> string, name: string): nat {
    if items == [] then 0
    else Count(items[..|items| - 1], labelOf, name) + if labelOf(items[|items| - 1]) == name then 1 else 0
  }

  lemma {:induction false} CountConcat<T>(a: seq<T>, b: seq<T>, labelOf: T -> string, name: string)
    ensures Count(a + b, labelOf, name) == Count(a, labelOf, name) + Count(b, labelOf, name)
  {
    if b == [] {
      assert a + b == a;
    } else {
      CountConcat(a, b[..|b| - 1], labelOf, name);
      assert (a + b)[..|a + b| - 1] == a + b[..|b| - 1];
    }
  }

  lemma CountInserted<T>(items: seq<T>, index: nat, item: T, labelOf: T -> string, name: string)
    requires index <= |items|
    ensures Count(items[..index] + [item] + items[index..], labelOf, name) ==
            Count(items, labelOf, name) + if labelOf(item) == name then 1 else 0
  {
    assert items == items[..index] + items[index..];
    CountConcat(items[..index], items[index..], labelOf, name);
    CountConcat(items[..index] + [item], items[index..], labelOf, name);
    CountConcat(items[..index], [item], labelOf, name);
    assert [item][..0] == [];
  }

  // ---------- Categories ----------

  datatype Category = Category(name: string, memberCount: int)

  /** Every category with the name loses a member. */
  function Decremented(categories: seq<Category>, name: string): seq<Category> {
    if categories == [] then []
    else
      var c := categories[0];
      [if c.name == name then c.(memberCount := c.memberCount - 1) else c] + Decremented(categories[1..], name)
  }

  function NonEmpty(categories: seq<Category>): seq<Category> {
    if categories == [] then []
    else (if categories[0].memberCount <= 0 then [] else [categories[0]]) + NonEmpty(categories[1..])
  }

  /** The first category with the name gains a member; without one, a new category is appended. */
  function Incremented(categories: seq<Category>, name: string): seq<Category> {
    if categories == [] then [Category(name, 1)]
    else if categories[0].name == name then [categories[0].(memberCount := categories[0].memberCount + 1)] + categories[1..]
    else [categories[0]] + Incremented(categories[1..], name)
  }

  predicate HasName(categories: seq<Category>, name: string) {
    categories != [] && (categories[0].name == name || HasName(categories[1..], name))
  }

  predicate DistinctNames(categories: seq<Category>) {
    categories == [] || (!HasName(categories[1..], categories[0].name) && DistinctNames(categories[1..]))
  }

  predicate AllUsed(categories: seq<Category>) {
    categories == [] || (categories[0].memberCount > 0 && AllUsed(categories[1..]))
  }

  /** The member count of the category with the name, or zero if there is none. */
  function MembersOf(categories: seq<Category>, name: string): int {
    if categories == [] then 0
    else if categories[0].name == name then categories[0].memberCount
    else MembersOf(categories[1..], name)
  }

  /** Each label in use has exactly one category, with the right count, and no other category exists. */
  ghost predicate Match<T>(items: seq<T>, labelOf: T -> string, categories: seq<Category>) {
    && DistinctNames(categories)
    && AllUsed(categories)
    && forall name :: MembersOf(categories, name) == Count(items, labelOf, name)
  }

  lemma {:induction false} UsedAt(categories: seq<Category>, i: nat)
    requires DistinctNames(categories) && AllUsed(categories) && i < |categories|
    ensures HasName(categories, categories[i].name)
    ensures MembersOf(categories, categories[i].name) == categories[i].memberCount > 0
    ensures forall j :: 0 <= j < i ==> categories[j].name != categories[i].name
  {
    if i > 0 {
      UsedAt(categories[1..], i - 1);
      forall j | 0 <= j < i ensures categories[j].name != categories[i].name {
        if j > 0 {
          assert categories[1..][j - 1].name != categories[1..][i - 1].name;
        }
      }
    }
  }

  lemma {:induction false} UsedName(categories: seq<Category>, name: string)
    requires AllUsed(categories)
    ensures MembersOf(categories, name) > 0 <==> exists i :: 0 <= i < |categories| && categories[i].name == name
  {
    if categories != [] {
      UsedName(categories[1..], name);
      if i :| 0 <= i < |categories[1..]| && categories[1..][i].name == name {
        assert categories[i + 1].name == name;
      }
      if i :| 0 < i < |categories| && categories[i].name == name {
        assert categories[1..][i - 1].name == name;
      }
    }
  }

  /**
    What Match means for a reader of the list: names do not repeat, every member
    count is the number of items with that label, and the names are the labels in use.
   */
  lemma MatchMeaning<T>(items: seq<T>, labelOf: T -> string, categories: seq<Category>)
    requires Match(items, labelOf, categories)
    ensures forall i, j :: 0 <= i < j < |categories| ==> categories[i].name != categories[j].name
    ensures forall i :: 0 <= i < |categories| ==> categories[i].memberCount == Count(items, labelOf, categories[i].name) > 0
    ensures forall x :: x in items ==> exists i :: 0 <= i < |categories| && categories[i].name == labelOf(x)
  {
    forall i | 0 <= i < |categories|
      ensures categories[i].memberCount == Count(items, labelOf, categories[i].name) > 0
      ensures forall j :: 0 <= j < i ==> categories[j].name != categories[i].name
    {
      UsedAt(categories, i);
    }
    forall x | x in items ensures exists i :: 0 <= i < |categories| && categories[i].name == labelOf(x) {
      CountMember(items, labelOf, x);
      UsedName(categories, labelOf(x));
    }
  }

  lemma {:induction false} CountMember<T>(items: seq<T>, labelOf: T -> string, x: T)
    requires x in items
    ensures Count(items, labelOf, labelOf(x)) > 0
  {
    var prev, last := items[..|items| - 1], items[|items| - 1];
    assert items == prev + [last];
    if x in prev {
      CountMember(prev, labelOf, x);
    }
  }

  lemma {:induction false} IncrementedName(categories: seq<Category>, name: string, n: string)
    ensures HasName(Incremented(categories, name), n) <==> n == name || HasName(categories, n)
    ensures MembersOf(Incremented(categories, name), n) == MembersOf(categories, n) + if n == name then 1 else 0
  {
    if categories != [] && categories[0].name != name {
      IncrementedName(categories[1..], name, n);
    }
  }

  lemma {:induction false} IncrementedShape(categories: seq<Category>, name: string)
    requires DistinctNames(categories) && AllUsed(categories)
    ensures DistinctNames(Incremented(categories, name)) && AllUsed(Incremented(categories, name))
  {
    if categories != [] && categories[0].name != name {
      IncrementedShape(categories[1..], name);
      IncrementedName(categories[1..], name, categories[0].name);
    }
  }

  lemma {:induction false} NoMembers(categories: seq<Category>, name: string)
    requires !HasName(categories, name)
    ensures MembersOf(categories, name) == 0
  {
    if categories != [] {
      NoMembers(categories[1..], name);
    }
  }

  /** The categories that remain after the ones with the name lost a member. */
  function Left(categories: seq<Category>, name: string): seq<Category> {
    NonEmpty(Decremented(categories, name))
  }

  lemma LeftHead(categories: seq<Category>, name: string)
    requires categories != []
    ensures var c := categories[0];
            var d := if c.name == name then c.(memberCount := c.memberCount - 1) else c;
            if d.memberCount <= 0 then
              Left(categories, name) == Left(categories[1..], name)
            else
              Left(categories, name) != [] && Left(categories, name)[0] == d && Left(categories, name)[1..] == Left(categories[1..], name)
  {
    assert Decremented(categories, name)[1..] == Decremented(categories[1..], name);
  }

  lemma {:induction false} LeftName(categories: seq<Category>, name: string, n: string)
    requires DistinctNames(categories) && AllUsed(categories)
    ensures HasName(Left(categories, name), n) ==> HasName(categories, n)
    ensures MembersOf(Left(categories, name), n) ==
            MembersOf(categories, n) - if n == name && MembersOf(categories, n) > 0 then 1 else 0
  {
    if categories != [] {
      var c, rest := categories[0], categories[1..];
      LeftHead(categories, name);
      LeftName(rest, name, n);
      NoMembers(rest, c.name);
    }
  }

  lemma {:induction false} LeftShape(categories: seq<Category>, name: string)
    requires DistinctNames(categories) && AllUsed(categories)
    ensures DistinctNames(Left(categories, name)) && AllUsed(Left(categories, name))
  {
    if categories != [] {
      LeftHead(categories, name);
      LeftShape(categories[1..], name);
      LeftName(categories[1..], name, categories[0].name);
    }
  }

  /** Counting one more item. */
  lemma MatchAdded<T>(before: seq<T>, after: seq<T>, item: T, labelOf: T -> string, categories: seq<Category>)
    requires Match(before, labelOf, categories)
    requires forall name :: Count(after, labelOf, name) == Count(before, labelOf, name) + if labelOf(item) == name then 1 else 0
    ensures Match(after, labelOf, Incremented(categories, labelOf(item)))
  {
    IncrementedShape(categories, labelOf(item));
    forall name ensures MembersOf(Incremented(categories, labelOf(item)), name) == Count(after, labelOf, name) {
      IncrementedName(categories, labelOf(item), name);
    }
  }

  /** Counting one item less. */
  lemma MatchRemoved<T>(before: seq<T>, after: seq<T>, item: T, labelOf: T -> string, categories: seq<Category>)
    requires Match(before, labelOf, categories)
    requires forall name :: Count(before, labelOf, name) == Count(after, labelOf, name) + if labelOf(item) == name then 1 else 0
    ensures Match(after, labelOf, Left(categories, labelOf(item)))
  {
    LeftShape(categories, labelOf(item));
    forall name ensures MembersOf(Left(categories, labelOf(item)), name) == Count(after, labelOf, name) {
      LeftName(categories, labelOf(item), name);
    }
  }

  // ---------- Set difference ----------

  /** The items of the first list that are not in the second, each once, in the order of their first occurrence. */
  function Except<T(==)>(a: seq<T>, b: seq<T>): seq<T> {
    if a == [] then []
    else
      var prev, last := a[..|a| - 1], a[|a| - 1];
      if last in b || last in prev then Except(prev, b) else Except(prev, b) + [last]
  }

  lemma {:induction false} ExceptOnce<T>(a: seq<T>, b: seq<T>, x: T)
    ensures multiset(Except(a, b))[x] == if x in a && x !in b then 1 else 0
  {
    if a != [] {
      var prev, last := a[..|a| - 1], a[|a| - 1];
      assert a == prev + [last];
      ExceptOnce(prev, b, x);
    }
  }

  /** The difference holds the items that are not in the second list, those at their first positions and in their order. */
  lemma {:induction false} ExceptPicks<T>(a: seq<T>, b: seq<T>) returns (at: seq<nat>)
    ensures Picks(a, at, Except(a, b)) && AllNew(a, b, at)
  {
    at := [];
    if a != [] {
      var prev, last := a[..|a| - 1], |a| - 1;
      at := ExceptPicks(prev, b);
      PicksMore(a, at, Except(prev, b));
      NewSnoc(a, b, at);
      if IsNew(a, b, last) {
        at := at + [last];
      }
    }
  }

  /** The positions of all items that the second list does not have, where they occur first. */
  ghost predicate AllNew<T>(a: seq<T>, b: seq<T>, at: seq<nat>) {
    forall i: nat :: i in at <==> i < |a| && IsNew(a, b, i)
  }

  lemma NewSnoc<T>(a: seq<T>, b: seq<T>, at: seq<nat>)
    requires a != [] && AllNew(a[..|a| - 1], b, at)
    ensures AllNew(a, b, if IsNew(a, b, |a| - 1) then at + [|a| - 1] else at)
  {
    var prev := a[..|a| - 1];
    forall i: nat | i < |prev| ensures IsNew(a, b, i) == IsNew(prev, b, i) {
      assert a[..i] == prev[..i];
    }
  }

  /** The first occurrence of an item that the second list does not have. */
  predicate IsNew<T(==)>(a: seq<T>, b: seq<T>, i: nat)
    requires i < |a|
  {
    a[i] !in b && a[i] !in a[..i]
  }

  lemma OnceOnly<T>(s: seq<T>, i: nat)
    requires i < |s| && multiset(s)[s[i]] == 1
    ensures s[i] !in s[..i]
  {
    assert s == s[..i] + [s[i]] + s[i + 1..];
    assert multiset(s) == multiset(s[..i]) + multiset{s[i]} + multiset(s[i + 1..]);
  }

  /** An item that is to be removed once is still there when its turn comes. */
  lemma StillThere<T>(items: seq<T>, newItems: seq<T>, i: nat)
    requires i < |Except(items, newItems)|
    ensures var removed := Except(items, newItems); removed[i] in WithoutEach(items, removed[..i])
  {
    var removed := Except(items, newItems);
    ExceptOnce(items, newItems, removed[i]);
    assert removed[i] in multiset(removed);
    OnceOnly(removed, i);
    WithoutEachCount(items, removed[..i]);
    assert multiset(removed[..i])[removed[i]] == 0;
    assert removed[i] in multiset(WithoutEach(items, removed[..i]));
  }

  lemma Snoc<T>(s: seq<T>, i: nat)
    requires i < |s|
    ensures s[..i + 1] == s[..i] + [s[i]] && s[..i + 1][..i] == s[..i] && s[..i + 1][i] == s[i]
  {
  }

  /** The list that a refresh leaves behind. */
  function Refreshed<T(==)>(items: seq<T>, newItems: seq<T>): seq<T> {
    WithoutEach(items, Except(items, newItems)) + Except(newItems, items)
  }

  /** Exactly how often each item occurs after a refresh: vanished items lose one occurrence only. */
  lemma RefreshedCount<T>(items: seq<T>, newItems: seq<T>, x: T)
    ensures multiset(Refreshed(items, newItems))[x] ==
            if x in newItems then (if x in items then multiset(items)[x] else 1)
            else if x in items then multiset(items)[x] - 1 else 0
  {
    ExceptOnce(items, newItems, x);
    ExceptOnce(newItems, items, x);
    WithoutEachCount(items, Except(items, newItems));
    assert x in items <==> multiset(items)[x] > 0;
  }

  /** A refresh leaves exactly the new items, not counting how often they occur, if and only if no item that vanished was there twice. */
  lemma RefreshTakesOver<T>(items: seq<T>, newItems: seq<T>)
    ensures (forall x :: x in Refreshed(items, newItems) <==> x in newItems) <==> VanishedOnce(items, newItems)
  {
    forall x ensures x in Refreshed(items, newItems) <==> x in newItems || (x in items && multiset(items)[x] > 1) {
      RefreshedCount(items, newItems, x);
      assert x in Refreshed(items, newItems) <==> multiset(Refreshed(items, newItems))[x] > 0;
      assert x in items <==> multiset(items)[x] > 0;
    }
  }

  /** No item that vanished was in the list twice. */
  ghost predicate VanishedOnce<T>(items: seq<T>, newItems: seq<T>) {
    forall x :: x in items && x !in newItems ==> multiset(items)[x] == 1
  }

  /** Every new item occurs as often as before, or once if it was not there. */
  ghost predicate CountsStay<T>(items: seq<T>, newItems: seq<T>) {
    forall x :: x in newItems ==> multiset(newItems)[x] == if x in items then multiset(items)[x] else 1
  }

  lemma SameCounts<T>(a: multiset<T>, b: multiset<T>)
    requires forall x :: x in a + b ==> a[x] == b[x]
    ensures a == b
  {
    assert forall x :: x in a ==> x in a + b;
    assert forall x :: x in b ==> x in a + b;
    assert a <= b && b <= a;
  }

  lemma CountsAt<T>(items: seq<T>, newItems: seq<T>, x: T)
    ensures multiset(Refreshed(items, newItems))[x] == multiset(newItems)[x] <==>
            && (x in items && x !in newItems ==> multiset(items)[x] == 1)
            && (x in newItems ==> multiset(newItems)[x] == if x in items then multiset(items)[x] else 1)
  {
    RefreshedCount(items, newItems, x);
    assert x in newItems <==> multiset(newItems)[x] > 0;
  }

  /** A refresh takes over how often each item occurs exactly if these numbers stay, and no item that vanished was there twice. */
  lemma RefreshTakesOverCounts<T>(items: seq<T>, newItems: seq<T>)
    ensures multiset(Refreshed(items, newItems)) == multiset(newItems) <==> VanishedOnce(items, newItems) && CountsStay(items, newItems)
  {
    var after, wanted := multiset(Refreshed(items, newItems)), multiset(newItems);
    if after == wanted {
      forall x | x in items && x !in newItems ensures multiset(items)[x] == 1 {
        CountsAt(items, newItems, x);
      }
      forall x | x in newItems ensures multiset(newItems)[x] == if x in items then multiset(items)[x] else 1 {
        CountsAt(items, newItems, x);
      }
    }
    if VanishedOnce(items, newItems) && CountsStay(items, newItems) {
      forall x | x in after + wanted ensures after[x] == wanted[x] {
        CountsAt(items, newItems, x);
      }
      SameCounts(after, wanted);
    }
  }

  function In<T(==)>(items: seq<T>): T -> bool {
    x => x in items
  }

  lemma {:induction false} ExceptIsFilter<T>(items: seq<T>, newItems: seq<T>)
    requires VanishedOnce(items, newItems)
    ensures Except(items, newItems) == Filter(items, Not(In(newItems)))
  {
    if items != [] {
      var prev, last := items[..|items| - 1], items[|items| - 1];
      assert items == prev + [last];
      forall x | x in prev && x !in newItems ensures multiset(prev)[x] == 1 {
        assert multiset(items)[x] == multiset(prev)[x] + if x == last then 1 else 0;
        assert multiset(prev)[x] > 0;
      }
      ExceptIsFilter(prev, newItems);
      if last in prev {
        assert multiset(prev)[last] > 0;
      }
    }
  }

  /**
    A refresh takes over the order too exactly if no item that vanished was there
    twice, and the new list begins with the items that stay, in their present order,
    followed by the others, each once.
   */
  lemma RefreshTakesOverOrder<T>(items: seq<T>, newItems: seq<T>)
    ensures Refreshed(items, newItems) == newItems <==>
            VanishedOnce(items, newItems) && newItems == Filter(items, In(newItems)) + Except(newItems, items)
  {
    if Refreshed(items, newItems) == newItems {
      RefreshTakesOver(items, newItems);
    }
    if VanishedOnce(items, newItems) {
      ExceptIsFilter(items, newItems);
      RemoveAllIsFilter(items, [], In(newItems));
      assert items + [] == items;
      assert Filter(items, In(newItems)) + [] == Filter(items, In(newItems));
    }
  }

  /** Refreshing two equal items with an empty list leaves one of them behind. */
  lemma RefreshKeepsStaleDuplicate<T>(x: T)
    ensures x in Refreshed([x, x], [])
  {
    RefreshedCount([x, x], [], x);
    assert multiset([x, x]) == multiset{x, x};
    assert x in multiset(Refreshed([x, x], []));
  }

  /** Refreshing an empty list with two equal items leaves one of them out. */
  lemma RefreshDropsNewDuplicate<T>(x: T)
    ensures multiset(Refreshed([], [x, x]))[x] == 1
  {
    RefreshedCount([], [x, x], x);
  }

  // ---------- The loops of the change handler ----------

  lemma DecrementStep(categories: seq<Category>, name: string, i: nat)
    requires i < |categories|
    ensures var c := categories[i];
            Decremented(categories[i..], name) ==
            [if c.name == name then c.(memberCount := c.memberCount - 1) else c] + Decremented(categories[i + 1..], name)
  {
    assert categories[i..][1..] == categories[i + 1..];
  }

  method DecrementMatching(categories: seq<Category>, name: string) returns (decremented: seq<Category>)
    ensures decremented == Decremented(categories, name)
  {
    decremented := [];
    for i := 0 to |categories|
      invariant decremented + Decremented(categories[i..], name) == Decremented(categories, name)
    {
      var c := categories[i];
      var d := if c.name == name then c.(memberCount := c.memberCount - 1) else c;
      DecrementStep(categories, name, i);
      Associates(decremented, [d], Decremented(categories[i + 1..], name));
      decremented := decremented + [d];
    }
  }

  lemma IncrementStep(categories: seq<Category>, name: string, i: nat)
    requires i < |categories| && categories[i].name != name
    ensures categories[..i] + Incremented(categories[i..], name) == categories[..i + 1] + Incremented(categories[i + 1..], name)
  {
    assert categories[i..][1..] == categories[i + 1..];
    assert categories[..i + 1] == categories[..i] + [categories[i]];
    Associates(categories[..i], [categories[i]], Incremented(categories[i + 1..], name));
  }

  lemma IncrementEnd(categories: seq<Category>, name: string, i: nat)
    requires i <= |categories| && (i < |categories| ==> categories[i].name == name)
    ensures categories[..i] + Incremented(categories[i..], name) ==
            if i < |categories| then categories[i := categories[i].(memberCount := categories[i].memberCount + 1)]
            else categories + [Category(name, 1)]
  {
  }

  method IncrementOrAppend(categories: seq<Category>, name: string) returns (incremented: seq<Category>)
    ensures incremented == Incremented(categories, name)
  {
    var i := 0;
    while i < |categories| && categories[i].name != name
      invariant 0 <= i <= |categories|
      invariant Incremented(categories, name) == categories[..i] + Incremented(categories[i..], name)
    {
      IncrementStep(categories, name, i);
      i := i + 1;
    }
    IncrementEnd(categories, name, i);
    if i < |categories| {
      return categories[i := categories[i].(memberCount := categories[i].memberCount + 1)];
    }
    return categories + [Category(name, 1)];
  }

  // ---------- The class ----------

  datatype Event<T> = DidAddItem(item: T) | DidRemoveItem(item: T)

  function Removals<T>(items: seq<T>): seq<Event<T>> {
    if items == [] then [] else Removals(items[..|items| - 1]) + [DidRemoveItem(items[|items| - 1])]
  }

  function Additions<T>(items: seq<T>): seq<Event<T>> {
    if items == [] then [] else Additions(items[..|items| - 1]) + [DidAddItem(items[|items| - 1])]
  }

  datatype Exception = ArgumentOutOfRange | NotImplemented

  class CollectionSource<T(==)> {
    var data: seq<T>
    var categories: seq<Category>
    var categoryFactory: Option<T -> string>

    /** The events raised so far. */
    var events: seq<Event<T>>

    /** With a category factory, the categories match the items. */
    ghost predicate Valid()
      reads this
    {
      MatchFor(data)
    }

    constructor (data: seq<T>)
      ensures Valid() && this.data == data && events == [] && categoryFactory == None
    {
      this.data, categories, categoryFactory, events := data, [], None, [];
    }

    method SetCategoryFactory(factory: Option<T -> string>) returns (error: Option<Exception>)
      modifies this
      ensures data == old(data) && events == old(events)
      ensures error == if data != [] then Some(NotImplemented) else None
      ensures error.None? ==> Valid() && categoryFactory == factory && categories == []
      ensures error.Some? ==> categoryFactory == old(categoryFactory) && categories == old(categories)
    {
      if data != [] {
        return Some(NotImplemented);
      }
      categoryFactory, categories := factory, [];
      return None;
    }

    /** The categories match the given items, which the list may not hold any more or not yet. */
    ghost predicate MatchFor(items: seq<T>)
      reads this
    {
      categoryFactory.Some? ==> Match(items, categoryFactory.value, categories)
    }

    /** The second list has one item more. */
    ghost predicate OneMore(few: seq<T>, many: seq<T>, item: T)
      reads this
    {
      categoryFactory.Some? ==> forall name ::
        Count(many, categoryFactory.value, name) ==
        Count(few, categoryFactory.value, name) + if categoryFactory.value(item) == name then 1 else 0
    }

    lemma InsertedIsOneMore(few: seq<T>, index: nat, item: T)
      requires index <= |few|
      ensures OneMore(few, few[..index] + [item] + few[index..], item)
    {
      if categoryFactory.Some? {
        forall name ensures Count(few[..index] + [item] + few[index..], categoryFactory.value, name) ==
                            Count(few, categoryFactory.value, name) + if categoryFactory.value(item) == name then 1 else 0
        {
          CountInserted(few, index, item, categoryFactory.value, name);
        }
      }
    }

    lemma RemovedIsOneLess(many: seq<T>, index: nat)
      requires index < |many|
      ensures OneMore(many[..index] + many[index + 1..], many, many[index])
    {
      var few := many[..index] + many[index + 1..];
      InsertedIsOneMore(few, index, many[index]);
      assert few[..index] + [many[index]] + few[index..] == many;
    }

    /** The part of the change handler for one removed item. */
    method HandleRemoved(item: T, ghost before: seq<T>, ghost after: seq<T>)
      requires MatchFor(before) && OneMore(after, before, item)
      modifies `categories, `events
      ensures MatchFor(after) && events == old(events) + [DidRemoveItem(item)]
    {
      if categoryFactory.Some? {
        var decremented := DecrementMatching(categories, categoryFactory.value(item));
        MatchRemoved(before, after, item, categoryFactory.value, categories);
        categories := NonEmpty(decremented);
      }
      events := events + [DidRemoveItem(item)];
    }

    /** The part of the change handler for one added item. */
    method HandleAdded(item: T, ghost before: seq<T>, ghost after: seq<T>)
      requires MatchFor(before) && OneMore(before, after, item)
      modifies `categories, `events
      ensures MatchFor(after) && events == old(events) + [DidAddItem(item)]
    {
      if categoryFactory.Some? {
        MatchAdded(before, after, item, categoryFactory.value, categories);
        categories := IncrementOrAppend(categories, categoryFactory.value(item));
      }
      events := events + [DidAddItem(item)];
    }

    /** Inserts an item, which raises one event; an index behind the end is refused. */
    method Insert(index: int, item: T) returns (error: Option<Exception>)
      requires Valid()
      modifies `data, `categories, `events
      ensures Valid()
      ensures error == if 0 <= index <= |old(data)| then None else Some(ArgumentOutOfRange)
      ensures error.None? ==> data == old(data)[..index] + [item] + old(data)[index..] && events == old(events) + [DidAddItem(item)]
      ensures error.Some? ==> data == old(data) && events == old(events) && categories == old(categories)
    {
      if !(0 <= index <= |data|) {
        return Some(ArgumentOutOfRange);
      }
      ghost var before := data;
      InsertedIsOneMore(data, index, item);
      data := data[..index] + [item] + data[index..];
      HandleAdded(item, before, data);
      return None;
    }

    method Add(item: T)
      requires Valid()
      modifies `data, `categories, `events
      ensures Valid() && data == old(data) + [item] && events == old(events) + [DidAddItem(item)]
    {
      var _ := Insert(|data|, item);
    }

    method RemoveAt(index: int) returns (error: Option<Exception>)
      requires Valid()
      modifies `data, `categories, `events
      ensures Valid()
      ensures error == if 0 <= index < |old(data)| then None else Some(ArgumentOutOfRange)
      ensures error.None? ==> data == old(data)[..index] + old(data)[index + 1..] && events == old(events) + [DidRemoveItem(old(data)[index])]
      ensures error.Some? ==> data == old(data) && events == old(events) && categories == old(categories)
    {
      if !(0 <= index < |data|) {
        return Some(ArgumentOutOfRange);
      }
      ghost var before := data;
      var item := data[index];
      RemovedIsOneLess(data, index);
      data := data[..index] + data[index + 1..];
      HandleRemoved(item, before, data);
      return None;
    }

    /** Removes the first occurrence; an absent item changes nothing and raises nothing. */
    method Remove(item: T) returns (removed: bool)
      requires Valid()
      modifies `data, `categories, `events
      ensures Valid() && data == WithoutFirst(old(data), item)
      ensures removed <==> item in old(data)
      ensures events == old(events) + if removed then [DidRemoveItem(item)] else []
    {
      var i := IndexOf(data, item);
      WithoutFirstIndex(data, item);
      if i == |data| {
        return false;
      }
      var _ := RemoveAt(i);
      return true;
    }

    /** Replaces an item: the handler sees the old item removed, then the new one added. */
    method Replace(index: int, item: T) returns (error: Option<Exception>)
      requires Valid()
      modifies `data, `categories, `events
      ensures Valid()
      ensures error == if 0 <= index < |old(data)| then None else Some(ArgumentOutOfRange)
      ensures error.None? ==> data == old(data)[index := item]
                              && events == old(events) + [DidRemoveItem(old(data)[index]), DidAddItem(item)]
      ensures error.Some? ==> data == old(data) && events == old(events) && categories == old(categories)
    {
      if !(0 <= index < |data|) {
        return Some(ArgumentOutOfRange);
      }
      ghost var before := data;
      ghost var between := data[..index] + data[index + 1..];
      var oldItem := data[index];
      RemovedIsOneLess(data, index);
      InsertedIsOneMore(between, index, item);
      data := data[index := item];
      assert data == between[..index] + [item] + between[index..];
      HandleRemoved(oldItem, before, between);
      HandleAdded(item, between, data);
      return None;
    }

    method RemoveEach(items: seq<T>)
      requires Valid()
      requires forall i :: 0 <= i < |items| ==> items[i] in WithoutEach(data, items[..i])
      modifies `data, `categories, `events
      ensures Valid() && data == WithoutEach(old(data), items) && events == old(events) + Removals(items)
    {
      for i := 0 to |items|
        invariant Valid() && data == WithoutEach(old(data), items[..i])
        invariant events == old(events) + Removals(items[..i])
      {
        Snoc(items, i);
        var _ := Remove(items[i]);
      }
      assert items[..|items|] == items;
    }

    method AddEach(items: seq<T>)
      requires Valid()
      modifies `data, `categories, `events
      ensures Valid() && data == old(data) + items && events == old(events) + Additions(items)
    {
      for i := 0 to |items|
        invariant Valid() && data == old(data) + items[..i]
        invariant events == old(events) + Additions(items[..i])
      {
        Snoc(items, i);
        Add(items[i]);
      }
      assert items[..|items|] == items;
    }

    /** Removes what vanished, once each, then adds what is new. */
    method Refresh(newItems: seq<T>)
      requires Valid()
      modifies `data, `categories, `events
      ensures Valid() && data == Refreshed(old(data), newItems)
      ensures events == old(events) + Removals(Except(old(data), newItems)) + Additions(Except(newItems, old(data)))
    {
      var added, vanished := Except(newItems, data), Except(data, newItems);
      forall i | 0 <= i < |vanished| ensures vanished[i] in WithoutEach(data, vanished[..i]) {
        StillThere(data, newItems, i);
      }
      RemoveEach(vanished);
      AddEach(added);
    }
  }
}
