/**
  Removing items from a list, one occurrence at a time, as the lists of the
  platform do it.
 */
module Sequences {

  lemma Associates<T>(a: seq<T>, b: seq<T>, c: seq<T>)
    ensures a + b + c == a + (b + c)
  {
  }

  function IndexOf<T(==)>(items: seq<T>, item: T): (i: nat)
    ensures i <= |items|
    ensures i < |items| <==> item in items
    ensures i < |items| ==> items[i] == item
    ensures item !in items[..i]
  {
    if items == [] || items[0] == item then 0
    else
      assert items == [items[0]] + items[1..];
      1 + IndexOf(items[1..], item)
  }

  /** The list without the first occurrence of the item. */
  function WithoutFirst<T(==)>(items: seq<T>, item: T): (rest: seq<T>)
    ensures |rest| == if item in items then |items| - 1 else |items|
  {
    if items == [] then []
    else if items[0] == item then items[1..]
    else [items[0]] + WithoutFirst(items[1..], item)
  }

  lemma CutBehindHead<T>(items: seq<T>, i: nat)
    requires i + 1 < |items|
    ensures [items[0]] + (items[1..][..i] + items[1..][i + 1..]) == items[..i + 1] + items[i + 2..]
  {
    assert items[..i + 1] == [items[0]] + items[1..][..i];
    assert items[1..][i + 1..] == items[i + 2..];
  }

  lemma {:induction false} WithoutFirstIndex<T>(items: seq<T>, item: T)
    ensures var i := IndexOf(items, item);
            WithoutFirst(items, item) == if i < |items| then items[..i] + items[i + 1..] else items
  {
    if items != [] && items[0] != item {
      var rest := items[1..];
      WithoutFirstIndex(rest, item);
      var i := IndexOf(rest, item);
      if i < |rest| {
        CutBehindHead(items, i);
      }
    }
  }

  lemma {:induction false} WithoutFirstCount<T>(items: seq<T>, item: T)
    ensures multiset(WithoutFirst(items, item)) == multiset(items) - multiset{item}
  {
    if items != [] {
      assert items == [items[0]] + items[1..];
      WithoutFirstCount(items[1..], item);
    }
  }

  predicate Distinct<T(==)>(items: seq<T>) {
    forall i, j :: 0 <= i < j < |items| ==> items[i] != items[j]
  }

  lemma {:induction false} WithoutFirstDistinct<T>(items: seq<T>, item: T)
    requires Distinct(items)
    ensures Distinct(WithoutFirst(items, item))
    ensures forall x :: x in WithoutFirst(items, item) <==> x in items && x != item
  {
    if items != [] {
      var rest := items[1..];
      assert forall x :: x in items <==> x == items[0] || x in rest;
      assert items[0] !in rest;
      WithoutFirstDistinct(rest, item);
    }
  }

  lemma {:induction false} WithoutFirstMembers<T>(items: seq<T>, item: T, x: T)
    requires x in WithoutFirst(items, item)
    ensures x in items
  {
    if items != [] && items[0] != item && x != items[0] {
      WithoutFirstMembers(items[1..], item, x);
    }
  }

  lemma {:induction false} WithoutFirstAbsent<T>(items: seq<T>, item: T)
    requires item !in items
    ensures WithoutFirst(items, item) == items
  {
    if items != [] {
      WithoutFirstAbsent(items[1..], item);
    }
  }

  /** The list without the first occurrences of several items, one after the other. */
  function WithoutEach<T(==)>(items: seq<T>, removed: seq<T>): seq<T> {
    if removed == [] then items else WithoutFirst(WithoutEach(items, removed[..|removed| - 1]), removed[|removed| - 1])
  }

  lemma {:induction false} WithoutEachCons<T>(items: seq<T>, first: T, rest: seq<T>)
    ensures WithoutEach(items, [first] + rest) == WithoutEach(WithoutFirst(items, first), rest)
  {
    var removed := [first] + rest;
    if rest == [] {
      assert removed[..|removed| - 1] == [];
    } else {
      assert removed[..|removed| - 1] == [first] + rest[..|rest| - 1];
      WithoutEachCons(items, first, rest[..|rest| - 1]);
    }
  }

  lemma {:induction false} WithoutEachCount<T>(items: seq<T>, removed: seq<T>)
    ensures multiset(WithoutEach(items, removed)) == multiset(items) - multiset(removed)
  {
    if removed != [] {
      var prev, last := removed[..|removed| - 1], removed[|removed| - 1];
      assert removed == prev + [last];
      WithoutEachCount(items, prev);
      WithoutFirstCount(WithoutEach(items, prev), last);
    }
  }

  function Filter<T>(s: seq<T>, p: T -> bool): seq<T> {
    if s == [] then [] else Filter(s[..|s| - 1], p) + if p(s[|s| - 1]) then [s[|s| - 1]] else []
  }

  lemma {:induction false} FilterMembers<T>(s: seq<T>, p: T -> bool, x: T)
    ensures x in Filter(s, p) <==> x in s && p(x)
  {
    if s != [] {
      FilterMembers(s[..|s| - 1], p, x);
      assert s == s[..|s| - 1] + [s[|s| - 1]];
    }
  }

  lemma {:induction false} FilterAll<T>(s: seq<T>, p: T -> bool)
    requires forall i :: 0 <= i < |s| ==> p(s[i])
    ensures Filter(s, p) == s
  {
    if s != [] {
      FilterAll(s[..|s| - 1], p);
    }
  }

  /** The list consists of the items at these positions, which ascend. */
  ghost predicate Picks<T>(s: seq<T>, at: seq<nat>, picked: seq<T>) {
    && |picked| == |at|
    && (forall k :: 0 <= k < |at| ==> at[k] < |s| && picked[k] == s[at[k]])
    && forall j, k :: 0 <= j < k < |at| ==> at[j] < at[k]
  }

  lemma PicksMore<T>(s: seq<T>, at: seq<nat>, picked: seq<T>)
    requires s != [] && Picks(s[..|s| - 1], at, picked)
    ensures Picks(s, at, picked) && Picks(s, at + [|s| - 1], picked + [s[|s| - 1]])
  {
  }

  /** A filtered list holds the items that pass the test, those at all their positions and in their order. */
  lemma {:induction false} FilterPicks<T>(s: seq<T>, p: T -> bool) returns (at: seq<nat>)
    ensures Picks(s, at, Filter(s, p)) && forall i: nat :: i in at <==> i < |s| && p(s[i])
  {
    at := [];
    if s != [] {
      at := FilterPicks(s[..|s| - 1], p);
      PicksMore(s, at, Filter(s[..|s| - 1], p));
      if p(s[|s| - 1]) {
        at := at + [|s| - 1];
      }
    }
  }

  lemma {:induction false} WithoutFirstSnoc<T>(items: seq<T>, last: T, x: T)
    ensures WithoutFirst(items + [last], x) ==
            if x in items then WithoutFirst(items, x) + [last] else if last == x then items else items + [last]
  {
    if items != [] && items[0] != x {
      WithoutFirstSnoc(items[1..], last, x);
      assert (items + [last])[1..] == items[1..] + [last];
    } else if items != [] {
      assert (items + [last])[1..] == items[1..] + [last];
    } else {
      assert items + [last] == [last];
    }
  }

  /** A stricter test that one more item fails leaves that item out. */
  lemma {:induction false} FilterWithout<T(!new)>(s: seq<T>, p: T -> bool, stricter: T -> bool, x: T)
    requires Distinct(Filter(s, p)) && forall t :: stricter(t) <==> p(t) && t != x
    ensures Filter(s, stricter) == WithoutFirst(Filter(s, p), x)
  {
    if s != [] {
      var prev, last := s[..|s| - 1], s[|s| - 1];
      var before := Filter(prev, p);
      assert Filter(s, p) == if p(last) then before + [last] else before;
      assert forall i :: 0 <= i < |before| ==> before[i] == Filter(s, p)[i];
      FilterWithout(prev, p, stricter, x);
      if p(last) {
        LastIsOnce(before, last);
        WithoutFirstSnoc(before, last, x);
      }
      if x !in before {
        WithoutFirstAbsent(before, x);
      }
    }
  }

  lemma LastIsOnce<T>(items: seq<T>, last: T)
    requires Distinct(items + [last])
    ensures last !in items
  {
    forall i | 0 <= i < |items| ensures items[i] != last {
      assert (items + [last])[i] != (items + [last])[|items|];
    }
  }

  function Not<T>(p: T -> bool): T -> bool {
    x => !p(x)
  }

  /** Removing the first occurrence of each item that fails the test leaves the items that pass it, in order. */
  lemma {:induction false} RemoveAllIsFilter<T>(s: seq<T>, rest: seq<T>, p: T -> bool)
    ensures WithoutEach(s + rest, Filter(s, Not(p))) == Filter(s, p) + rest
    decreases |s|
  {
    if s == [] {
      assert s + rest == rest;
    } else {
      var prev, last := s[..|s| - 1], s[|s| - 1];
      var removed, kept := Filter(prev, Not(p)), Filter(prev, p);
      assert s + rest == prev + ([last] + rest);
      RemoveAllIsFilter(prev, [last] + rest, p);
      assert kept + [last] + rest == kept + ([last] + rest);
      if p(last) {
        assert removed + [] == removed;
      } else {
        assert (removed + [last])[..|removed|] == removed;
        FilterMembers(prev, p, last);
        WithoutFirstAt(kept, last, rest);
        assert kept + [] == kept;
      }
    }
  }

  lemma {:induction false} WithoutFirstAt<T>(kept: seq<T>, x: T, rest: seq<T>)
    requires x !in kept
    ensures WithoutFirst(kept + [x] + rest, x) == kept + rest
  {
    if kept == [] {
      assert (kept + [x] + rest)[1..] == kept + rest;
    } else {
      TailOfParts(kept, x, rest);
      WithoutFirstAt(kept[1..], x, rest);
    }
  }

  lemma TailOfParts<T>(kept: seq<T>, x: T, rest: seq<T>)
    requires kept != []
    ensures (kept + [x] + rest)[0] == kept[0] && (kept + [x] + rest)[1..] == kept[1..] + [x] + rest
    ensures [kept[0]] + (kept[1..] + rest) == kept + rest
  {
  }
}
