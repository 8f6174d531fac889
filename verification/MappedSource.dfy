/**
  A list that mirrors another one through a pair of conversions.  Tightly coupled,
  every change of one list is announced and handled by changing the other, which
  announces in turn; lazily coupled, the changes are committed on demand.
 */
module MappedSources {
  import opened Wrappers
  import opened CollectionSources
  import opened Sequences

  /** Both lists, by value. */
  datatype Lists<O, M> = Lists(origin: seq<O>, mapped: seq<M>)

  function Map<A, B>(f: A -> B, s: seq<A>): seq<B> {
    seq(|s|, i requires 0 <= i < |s| => f(s[i]))
  }

  /** The mapped list is the origin list mapped element by element. */
  ghost predicate Coupled<O, M>(f: O -> M, l: Lists<O, M>) {
    l.mapped == Map(f, l.origin)
  }

  ghost predicate Inverse<O(!new), M(!new)>(f: O -> M, g: M -> O) {
    (forall x :: g(f(x)) == x) && (forall y :: f(g(y)) == y)
  }

  /** Converting back and forth leaves the two finite sets only for items that are there already. */
  ghost predicate ClosedUpTo<O, M>(f: O -> M, g: M -> O, l: Lists<O, M>, us: set<O>, vs: set<M>) {
    && (forall u :: u in us ==> f(u) in vs || f(u) in l.mapped)
    && (forall v :: v in vs ==> g(v) in us || g(v) in l.origin)
  }

  // ---------- Adding ----------

  /** The lists after adding an item to the origin and handling all announcements; None if more than n items are added. */
  function AddedToOrigin<O(==), M(==)>(f: O -> M, g: M -> O, l: Lists<O, M>, x: O, n: nat): Option<Lists<O, M>>
    decreases n
  {
    if n == 0 then None
    else
      var l' := l.(origin := l.origin + [x]);
      if f(x) in l.mapped then Some(l') else AddedToMapped(f, g, l', f(x), n - 1)
  }

  function AddedToMapped<O(==), M(==)>(f: O -> M, g: M -> O, l: Lists<O, M>, y: M, n: nat): Option<Lists<O, M>>
    decreases n
  {
    if n == 0 then None
    else
      var l' := l.(mapped := l.mapped + [y]);
      if g(y) in l.origin then Some(l') else AddedToOrigin(f, g, l', g(y), n - 1)
  }

  /** A cascade that ends, ends in the same lists whatever the limit. */
  lemma {:induction false} LimitDoesNotMatter<O, M>(f: O -> M, g: M -> O, l: Lists<O, M>, x: O, y: M, n: nat, more: nat)
    requires n <= more
    ensures AddedToOrigin(f, g, l, x, n).Some? ==> AddedToOrigin(f, g, l, x, more) == AddedToOrigin(f, g, l, x, n)
    ensures AddedToMapped(f, g, l, y, n).Some? ==> AddedToMapped(f, g, l, y, more) == AddedToMapped(f, g, l, y, n)
    decreases n
  {
    if n > 0 {
      LimitDoesNotMatter(f, g, l.(origin := l.origin + [x]), x, f(x), n - 1, more - 1);
      LimitDoesNotMatter(f, g, l.(mapped := l.mapped + [y]), g(y), y, n - 1, more - 1);
    }
  }

  /**
    With inverse conversions, adding to the origin ends after one addition on each
    side.  The lists stay coupled exactly if the item was absent.
   */
  lemma AddToOriginKeepsCoupled<O(!new), M(!new)>(f: O -> M, g: M -> O, l: Lists<O, M>, x: O, n: nat)
    requires Inverse(f, g) && Coupled(f, l) && n >= 2
    ensures AddedToOrigin(f, g, l, x, n).Some?
    ensures var l' := AddedToOrigin(f, g, l, x, n).value;
            && l'.origin == l.origin + [x]
            && l'.mapped == (if x in l.origin then l.mapped else l.mapped + [f(x)])
            && (Coupled(f, l') <==> x !in l.origin)
  {
    MappedContains(f, g, l.origin, x);
    assert x !in l.origin ==> Map(f, l.origin + [x]) == Map(f, l.origin) + [f(x)];
  }

  lemma AddToMappedKeepsCoupled<O(!new), M(!new)>(f: O -> M, g: M -> O, l: Lists<O, M>, y: M, n: nat)
    requires Inverse(f, g) && Coupled(f, l) && n >= 2
    ensures AddedToMapped(f, g, l, y, n).Some?
    ensures var l' := AddedToMapped(f, g, l, y, n).value;
            && l'.mapped == l.mapped + [y]
            && l'.origin == (if y in l.mapped then l.origin else l.origin + [g(y)])
            && (Coupled(f, l') <==> y !in l.mapped)
  {
    MappedContains(f, g, l.origin, g(y));
    assert y !in l.mapped ==> Map(f, l.origin + [g(y)]) == Map(f, l.origin) + [y];
  }

  lemma {:induction false} ClosedEnds<O, M>(f: O -> M, g: M -> O, l: Lists<O, M>, x: O, us: set<O>, vs: set<M>, n: nat)
    requires ClosedUpTo(f, g, l, us, vs) && x in us
    requires n > |set u | u in us && u !in l.origin && u != x| + |set v | v in vs && v !in l.mapped|
    ensures AddedToOrigin(f, g, l, x, n).Some?
    decreases n
  {
    var l' := l.(origin := l.origin + [x]);
    var y := f(x);
    if y !in l.mapped {
      assert (set u | u in us && u !in l'.origin) == (set u | u in us && u !in l.origin && u != x);
      OneLess(vs, l.mapped, y);
      ClosedMappedEnds(f, g, l', y, us, vs, n - 1);
    }
  }

  lemma {:induction false} ClosedMappedEnds<O, M>(f: O -> M, g: M -> O, l: Lists<O, M>, y: M, us: set<O>, vs: set<M>, n: nat)
    requires ClosedUpTo(f, g, l, us, vs) && y in vs
    requires n > |set u | u in us && u !in l.origin| + |set v | v in vs && v !in l.mapped && v != y|
    ensures AddedToMapped(f, g, l, y, n).Some?
    decreases n
  {
    var l' := l.(mapped := l.mapped + [y]);
    var x := g(y);
    if x !in l.origin {
      assert (set v | v in vs && v !in l'.mapped) == (set v | v in vs && v !in l.mapped && v != y);
      OneLess(us, l.origin, x);
      ClosedEnds(f, g, l', x, us, vs, n - 1);
    }
  }

  /** The items that a cascade adds before it ends. */
  lemma {:induction false} EndIsClosed<O, M>(f: O -> M, g: M -> O, l: Lists<O, M>, x: O, n: nat) returns (us: set<O>, vs: set<M>)
    requires AddedToOrigin(f, g, l, x, n).Some?
    ensures x in us && ClosedUpTo(f, g, l, us, vs)
    decreases n
  {
    if f(x) in l.mapped {
      us, vs := {x}, {};
    } else {
      us, vs := MappedEndIsClosed(f, g, l.(origin := l.origin + [x]), f(x), n - 1);
      us := us + {x};
    }
  }

  lemma {:induction false} MappedEndIsClosed<O, M>(f: O -> M, g: M -> O, l: Lists<O, M>, y: M, n: nat) returns (us: set<O>, vs: set<M>)
    requires AddedToMapped(f, g, l, y, n).Some?
    ensures y in vs && ClosedUpTo(f, g, l, us, vs)
    decreases n
  {
    if g(y) in l.origin {
      us, vs := {}, {y};
    } else {
      us, vs := EndIsClosed(f, g, l.(mapped := l.mapped + [y]), g(y), n - 1);
      vs := vs + {y};
    }
  }

  /**
    Whatever the conversions: adding an item to the origin ends exactly if converting
    back and forth from it meets finitely many items before one that is there already.
   */
  lemma AdditionEndsExactly<O(!new), M(!new)>(f: O -> M, g: M -> O, l: Lists<O, M>, x: O)
    ensures (exists n: nat :: AddedToOrigin(f, g, l, x, n).Some?) <==> exists us, vs :: x in us && ClosedUpTo(f, g, l, us, vs)
  {
    if n: nat :| AddedToOrigin(f, g, l, x, n).Some? {
      var us, vs := EndIsClosed(f, g, l, x, n);
    }
    if us, vs :| x in us && ClosedUpTo(f, g, l, us, vs) {
      var n := 1 + |set u | u in us && u !in l.origin && u != x| + |set v | v in vs && v !in l.mapped|;
      ClosedEnds(f, g, l, x, us, vs, n);
      assert AddedToOrigin(f, g, l, x, n).Some?;
    }
  }

  lemma MappedAdditionEndsExactly<O(!new), M(!new)>(f: O -> M, g: M -> O, l: Lists<O, M>, y: M)
    ensures (exists n: nat :: AddedToMapped(f, g, l, y, n).Some?) <==> exists us, vs :: y in vs && ClosedUpTo(f, g, l, us, vs)
  {
    if n: nat :| AddedToMapped(f, g, l, y, n).Some? {
      var us, vs := MappedEndIsClosed(f, g, l, y, n);
    }
    if us, vs :| y in vs && ClosedUpTo(f, g, l, us, vs) {
      var n := 1 + |set u | u in us && u !in l.origin| + |set v | v in vs && v !in l.mapped && v != y|;
      ClosedMappedEnds(f, g, l, y, us, vs, n);
      assert AddedToMapped(f, g, l, y, n).Some?;
    }
  }

  lemma OneLess<T>(s: set<T>, present: seq<T>, x: T)
    requires x in s && x !in present
    ensures |set u | u in s && u !in present && u != x| == |set u | u in s && u !in present| - 1
  {
    assert (set u | u in s && u !in present && u != x) == (set u | u in s && u !in present) - {x};
  }

  lemma MappedContains<O(!new), M(!new)>(f: O -> M, g: M -> O, s: seq<O>, x: O)
    requires Inverse(f, g)
    ensures f(x) in Map(f, s) <==> x in s
  {
    if x in s {
      var i :| 0 <= i < |s| && s[i] == x;
      assert Map(f, s)[i] == f(x);
    }
    if f(x) in Map(f, s) {
      var i :| 0 <= i < |s| && Map(f, s)[i] == f(x);
      assert g(f(s[i])) == s[i] && g(f(x)) == x;
    }
  }

  /** The item and its image are all that the handlers touch when the conversions are inverse. */
  lemma OrbitIsClosed<O(!new), M(!new)>(f: O -> M, g: M -> O, l: Lists<O, M>, x: O)
    requires Inverse(f, g)
    ensures ClosedUpTo(f, g, l, {x}, {f(x)})
  {
  }

  /** Nothing is lost from either list while items are added. */
  lemma {:induction false} AdditionsExtend<O, M>(f: O -> M, g: M -> O, l: Lists<O, M>, x: O, y: M, n: nat)
    ensures AddedToOrigin(f, g, l, x, n).Some? ==>
              var r := AddedToOrigin(f, g, l, x, n).value; l.origin + [x] <= r.origin && l.mapped <= r.mapped
    ensures AddedToMapped(f, g, l, y, n).Some? ==>
              var r := AddedToMapped(f, g, l, y, n).value; l.origin <= r.origin && l.mapped + [y] <= r.mapped
    decreases n
  {
    if n > 0 {
      AdditionsExtend(f, g, l.(origin := l.origin + [x]), x, f(x), n - 1);
      AdditionsExtend(f, g, l.(mapped := l.mapped + [y]), g(y), y, n - 1);
    }
  }

  /** Converting back and forth so many times: the origin items that this yields, beginning with the given one. */
  function Orbit<O, M>(f: O -> M, g: M -> O, x: O, n: nat): (items: seq<O>)
    ensures |items| == n
  {
    if n == 0 then [] else [x] + Orbit(f, g, g(f(x)), n - 1)
  }

  /** Additions and removals follow the orbits of the item and of its image, in turns; so many on each side. */
  ghost predicate InTurns(i: nat, j: nat) {
    i == j || i == j + 1
  }

  /** Whatever the conversions: an addition appends the items of the orbits, in turns, up to one whose image is there already. */
  lemma {:induction false} AdditionsFollowOrbit<O, M>(f: O -> M, g: M -> O, l: Lists<O, M>, x: O, n: nat) returns (i: nat, j: nat)
    requires AddedToOrigin(f, g, l, x, n).Some?
    ensures InTurns(i, j) && i > 0
    ensures AddedToOrigin(f, g, l, x, n).value == Lists(l.origin + Orbit(f, g, x, i), l.mapped + Orbit(g, f, f(x), j))
    ensures var r := AddedToOrigin(f, g, l, x, n).value;
            if i == j then g(r.mapped[|r.mapped| - 1]) in r.origin else f(r.origin[|r.origin| - 1]) in r.mapped
    decreases n
  {
    var l' := l.(origin := l.origin + [x]);
    if f(x) in l.mapped {
      i, j := 1, 0;
      assert Orbit(f, g, x, 1) == [x];
    } else {
      j, i := MappedAdditionsFollowOrbit(f, g, l', f(x), n - 1);
      i := i + 1;
      Associates(l.origin, [x], Orbit(f, g, g(f(x)), i - 1));
    }
  }

  lemma {:induction false} MappedAdditionsFollowOrbit<O, M>(f: O -> M, g: M -> O, l: Lists<O, M>, y: M, n: nat) returns (j: nat, i: nat)
    requires AddedToMapped(f, g, l, y, n).Some?
    ensures InTurns(j, i) && j > 0
    ensures AddedToMapped(f, g, l, y, n).value == Lists(l.origin + Orbit(f, g, g(y), i), l.mapped + Orbit(g, f, y, j))
    ensures var r := AddedToMapped(f, g, l, y, n).value;
            if i == j then f(r.origin[|r.origin| - 1]) in r.mapped else g(r.mapped[|r.mapped| - 1]) in r.origin
    decreases n
  {
    var l' := l.(mapped := l.mapped + [y]);
    if g(y) in l.origin {
      j, i := 1, 0;
      assert Orbit(g, f, y, 1) == [y];
    } else {
      i, j := AdditionsFollowOrbit(f, g, l', g(y), n - 1);
      j := j + 1;
      Associates(l.mapped, [y], Orbit(g, f, f(g(y)), j - 1));
    }
  }

  ghost predicate OriginEndsCoupled<O(!new), M(!new)>(f: O -> M, g: M -> O, l: Lists<O, M>, x: O) {
    exists n: nat :: AddedToOrigin(f, g, l, x, n).Some? && Coupled(f, AddedToOrigin(f, g, l, x, n).value)
  }

  ghost predicate MappedEndsCoupled<O(!new), M(!new)>(f: O -> M, g: M -> O, l: Lists<O, M>, y: M) {
    exists n: nat :: AddedToMapped(f, g, l, y, n).Some? && Coupled(f, AddedToMapped(f, g, l, y, n).value)
  }

  /** Adding an absent item on either side of any coupled lists ends, with coupled lists. */
  ghost predicate KeepsCoupled<O(!new), M(!new)>(f: O -> M, g: M -> O) {
    && (forall l, x {:trigger OriginEndsCoupled(f, g, l, x)} :: Coupled(f, l) && x !in l.origin ==> OriginEndsCoupled(f, g, l, x))
    && (forall l, y {:trigger MappedEndsCoupled(f, g, l, y)} :: Coupled(f, l) && y !in l.mapped ==> MappedEndsCoupled(f, g, l, y))
  }

  /** The lists stay coupled, whatever they hold and whatever absent item is added, exactly if the conversions are inverse. */
  lemma CoupledExactlyIfInverse<O(!new), M(!new)>(f: O -> M, g: M -> O)
    ensures KeepsCoupled(f, g) <==> Inverse(f, g)
  {
    if Inverse(f, g) {
      forall l, x | Coupled(f, l) && x !in l.origin ensures OriginEndsCoupled(f, g, l, x) {
        AddToOriginKeepsCoupled(f, g, l, x, 2);
        assert AddedToOrigin(f, g, l, x, 2).Some?;
      }
      forall l, y | Coupled(f, l) && y !in l.mapped ensures MappedEndsCoupled(f, g, l, y) {
        AddToMappedKeepsCoupled(f, g, l, y, 2);
        assert AddedToMapped(f, g, l, y, 2).Some?;
      }
    }
    if KeepsCoupled(f, g) {
      forall y ensures f(g(y)) == y {
        assert MappedEndsCoupled(f, g, Lists([], []), y);
        BackAndForth(f, g, y);
      }
      forall x ensures g(f(x)) == x {
        var l := Lists([g(f(x))], [f(x)]);
        if x != g(f(x)) {
          assert Coupled(f, l);
          assert OriginEndsCoupled(f, g, l, x);
          ForthAndBack(f, g, x);
        }
      }
    }
  }

  lemma BackAndForth<O(!new), M(!new)>(f: O -> M, g: M -> O, y: M)
    requires MappedEndsCoupled(f, g, Lists([], []), y)
    ensures f(g(y)) == y
  {
    var l: Lists<O, M> := Lists([], []);
    var n: nat :| AddedToMapped(f, g, l, y, n).Some? && Coupled(f, AddedToMapped(f, g, l, y, n).value);
    var r := AddedToMapped(f, g, l, y, n).value;
    assert l.(mapped := l.mapped + [y]) == Lists([], [y]);
    AdditionsExtend(f, g, Lists([], [y]), g(y), y, n - 1);
    assert r.origin[0] == g(y) && r.mapped[0] == y;
  }

  lemma ForthAndBack<O(!new), M(!new)>(f: O -> M, g: M -> O, x: O)
    requires x != g(f(x)) && Coupled(f, Lists([g(f(x))], [f(x)]))
    ensures !OriginEndsCoupled(f, g, Lists([g(f(x))], [f(x)]), x)
  {
    var l := Lists([g(f(x))], [f(x)]);
    forall n: nat | AddedToOrigin(f, g, l, x, n).Some? ensures !Coupled(f, AddedToOrigin(f, g, l, x, n).value) {
      assert AddedToOrigin(f, g, l, x, n).value == Lists([g(f(x))] + [x], [f(x)]);
    }
  }

  /** Conversions that are not inverse may add items without end: each side follows the other with one more. */
  lemma {:induction false} AdditionsNeverEnd(l: Lists<int, int>, x: int, n: nat)
    requires forall y :: y in l.origin ==> y < x
    requires forall y :: y in l.mapped ==> y < x
    ensures AddedToOrigin(Successor, Successor, l, x, n) == None == AddedToMapped(Successor, Successor, l, x, n)
    decreases n
  {
    if n > 0 {
      AdditionsNeverEnd(l.(origin := l.origin + [x]), x + 1, n - 1);
      AdditionsNeverEnd(l.(mapped := l.mapped + [x]), x + 1, n - 1);
    }
  }

  function Successor(x: int): int {
    x + 1
  }

  // ---------- Removing ----------

  /** The lists after removing an item from the origin and handling all announcements. */
  ghost function RemovedFromOrigin<O, M>(f: O -> M, g: M -> O, l: Lists<O, M>, x: O): Lists<O, M>
    decreases |l.origin| + |l.mapped|
  {
    if x !in l.origin then l
    else RemovedFromMapped(f, g, l.(origin := WithoutFirst(l.origin, x)), f(x))
  }

  ghost function RemovedFromMapped<O, M>(f: O -> M, g: M -> O, l: Lists<O, M>, y: M): Lists<O, M>
    decreases |l.origin| + |l.mapped|
  {
    if y !in l.mapped then l
    else RemovedFromOrigin(f, g, l.(mapped := WithoutFirst(l.mapped, y)), g(y))
  }

  /** The list without any occurrence of the item. */
  function WithoutAll<T(==)>(s: seq<T>, x: T): seq<T> {
    if s == [] then [] else (if s[0] == x then [] else [s[0]]) + WithoutAll(s[1..], x)
  }

  lemma {:induction false} WithoutAllOfFirst<T>(s: seq<T>, x: T)
    requires x in s
    ensures WithoutAll(WithoutFirst(s, x), x) == WithoutAll(s, x)
  {
    if s[0] != x {
      var rest := WithoutFirst(s[1..], x);
      WithoutAllOfFirst(s[1..], x);
      assert ([s[0]] + rest)[1..] == rest;
    }
  }

  lemma {:induction false} WithoutAllAbsent<T>(s: seq<T>, x: T)
    requires x !in s
    ensures WithoutAll(s, x) == s
  {
    if s != [] {
      WithoutAllAbsent(s[1..], x);
    }
  }

  lemma MapCons<A, B>(f: A -> B, x: A, rest: seq<A>)
    ensures Map(f, [x] + rest) == [f(x)] + Map(f, rest)
  {
  }

  /** The first occurrences are at the same position. */
  lemma {:induction false} MappedWithoutFirst<O(!new), M(!new)>(f: O -> M, g: M -> O, s: seq<O>, x: O)
    requires Inverse(f, g)
    ensures WithoutFirst(Map(f, s), f(x)) == Map(f, WithoutFirst(s, x))
  {
    if s != [] {
      var rest := s[1..];
      MappedWithoutFirst(f, g, rest, x);
      assert Map(f, s)[1..] == Map(f, rest);
      assert g(f(s[0])) == s[0] && g(f(x)) == x;
      MapCons(f, s[0], WithoutFirst(rest, x));
    }
  }

  /**
    Removing from either side of coupled lists removes every occurrence on both
    sides; the lists stay coupled.  Without duplicates that is the one occurrence.
   */
  lemma {:induction false} RemoveKeepsCoupled<O(!new), M(!new)>(f: O -> M, g: M -> O, l: Lists<O, M>, x: O)
    requires Inverse(f, g) && Coupled(f, l)
    ensures RemovedFromOrigin(f, g, l, x) == RemovedFromMapped(f, g, l, f(x)) ==
            Lists(WithoutAll(l.origin, x), WithoutAll(l.mapped, f(x)))
    ensures Coupled(f, RemovedFromOrigin(f, g, l, x))
    decreases |l.origin|
  {
    MappedContains(f, g, l.origin, x);
    if x !in l.origin {
      WithoutAllAbsent(l.origin, x);
      WithoutAllAbsent(l.mapped, f(x));
    } else {
      var l' := Lists(WithoutFirst(l.origin, x), WithoutFirst(l.mapped, f(x)));
      MappedWithoutFirst(f, g, l.origin, x);
      RemoveKeepsCoupled(f, g, l', x);
      WithoutAllOfFirst(l.origin, x);
      WithoutAllOfFirst(l.mapped, f(x));
      assert g(f(x)) == x;
    }
  }

  /** Whatever the conversions and the lists: a removal removes one occurrence of each item of the orbits, in turns, up to one that is not there. */
  lemma {:induction false} RemovalsFollowOrbit<O, M>(f: O -> M, g: M -> O, l: Lists<O, M>, x: O) returns (i: nat, j: nat)
    ensures InTurns(i, j)
    ensures var r := RemovedFromOrigin(f, g, l, x);
            && r == Lists(WithoutEach(l.origin, Orbit(f, g, x, i)), WithoutEach(l.mapped, Orbit(g, f, f(x), j)))
            && if i == j then Orbit(f, g, x, i + 1)[i] !in r.origin else Orbit(g, f, f(x), j + 1)[j] !in r.mapped
    ensures |RemovedFromOrigin(f, g, l, x).origin| == |l.origin| - i && |RemovedFromOrigin(f, g, l, x).mapped| == |l.mapped| - j
    decreases |l.origin| + |l.mapped|
  {
    if x !in l.origin {
      i, j := 0, 0;
      assert Orbit(f, g, x, 1)[0] == x;
    } else {
      j, i := MappedRemovalsFollowOrbit(f, g, l.(origin := WithoutFirst(l.origin, x)), f(x));
      WithoutEachCons(l.origin, x, Orbit(f, g, g(f(x)), i));
      i := i + 1;
    }
  }

  lemma {:induction false} MappedRemovalsFollowOrbit<O, M>(f: O -> M, g: M -> O, l: Lists<O, M>, y: M) returns (j: nat, i: nat)
    ensures InTurns(j, i)
    ensures var r := RemovedFromMapped(f, g, l, y);
            && r == Lists(WithoutEach(l.origin, Orbit(f, g, g(y), i)), WithoutEach(l.mapped, Orbit(g, f, y, j)))
            && if i == j then Orbit(g, f, y, j + 1)[j] !in r.mapped else Orbit(f, g, g(y), i + 1)[i] !in r.origin
    ensures |RemovedFromMapped(f, g, l, y).origin| == |l.origin| - i && |RemovedFromMapped(f, g, l, y).mapped| == |l.mapped| - j
    decreases |l.origin| + |l.mapped|
  {
    if y !in l.mapped {
      i, j := 0, 0;
      assert Orbit(g, f, y, 1)[0] == y;
    } else {
      i, j := RemovalsFollowOrbit(f, g, l.(mapped := WithoutFirst(l.mapped, y)), g(y));
      WithoutEachCons(l.mapped, y, Orbit(g, f, f(g(y)), j));
      j := j + 1;
    }
  }

  lemma {:induction false} WithoutAllOnce<T>(s: seq<T>, x: T)
    requires multiset(s)[x] <= 1
    ensures WithoutAll(s, x) == WithoutFirst(s, x)
  {
    if x in s {
      WithoutFirstCount(s, x);
      WithoutAllOfFirst(s, x);
      assert multiset(WithoutFirst(s, x))[x] == 0;
      assert x !in WithoutFirst(s, x);
      WithoutAllAbsent(WithoutFirst(s, x), x);
    } else {
      WithoutAllAbsent(s, x);
      WithoutFirstIndex(s, x);
    }
  }

  // ---------- Updating ----------

  datatype Update<O, M> = OnOrigin(item: O) | OnMapped(image: M)

  /** The announcements that follow an update; an item whose update is being handled is not handled again. */
  ghost function OriginUpdates<O, M>(f: O -> M, g: M -> O, updating: set<O>, x: O): seq<Update<O, M>>
    decreases if x in updating then 0 else 2
  {
    [OnOrigin(x)] + if x in updating then [] else MappedUpdates(f, g, updating + {x}, f(x))
  }

  ghost function MappedUpdates<O, M>(f: O -> M, g: M -> O, updating: set<O>, y: M): seq<Update<O, M>>
    decreases 1
  {
    [OnMapped(y)] + if g(y) in updating then [] else OriginUpdates(f, g, updating + {g(y)}, g(y))
  }

  /** An update of an origin item is announced once on each side exactly if converting back and forth yields the item. */
  lemma UpdateAnnouncedOnce<O, M>(f: O -> M, g: M -> O, x: O)
    ensures OriginUpdates(f, g, {}, x) == [OnOrigin(x), OnMapped(f(x))] <==> g(f(x)) == x
    ensures OriginUpdates(f, g, {}, x) ==
            [OnOrigin(x), OnMapped(f(x))] + if g(f(x)) == x then [] else [OnOrigin(g(f(x)))]
  {
    var i := g(f(x));
    assert OriginUpdates(f, g, {} + {x}, i) == [OnOrigin(i)] + if i == x then [] else MappedUpdates(f, g, {} + {x} + {i}, f(i));
    assert OriginUpdates(f, g, {} + {x} + {i}, i) == [OnOrigin(i)];
    assert MappedUpdates(f, g, {} + {x}, f(x)) == [OnMapped(f(x))] + if i == x then [] else [OnOrigin(i)];
  }

  /** An update of a mapped item is always announced once on each side. */
  lemma MappedUpdateAnnouncedOnce<O, M>(f: O -> M, g: M -> O, y: M)
    ensures MappedUpdates(f, g, {}, y) == [OnMapped(y), OnOrigin(g(y))]
  {
    assert OriginUpdates(f, g, {} + {g(y)}, g(y)) == [OnOrigin(g(y))];
  }

  // ---------- The tightly coupled source ----------

  class MappedSource<O(==, !new), M(==, !new)> {
    var origin: seq<O>
    var mapped: seq<M>
    var updating: set<O>
    const originToMapped: O -> M
    const mappedToOrigin: M -> O

    /** The updates announced so far. */
    var updates: seq<Update<O, M>>

    function Both(): Lists<O, M>
      reads this
    {
      Lists(origin, mapped)
    }

    constructor (origin: seq<O>, originToMapped: O -> M, mappedToOrigin: M -> O)
      ensures this.origin == origin && mapped == Map(originToMapped, origin)
      ensures this.originToMapped == originToMapped && this.mappedToOrigin == mappedToOrigin
      ensures updating == {} && updates == []
    {
      this.origin, mapped, updating, updates := origin, Map(originToMapped, origin), {}, [];
      this.originToMapped, this.mappedToOrigin := originToMapped, mappedToOrigin;
    }

    /** Adds an item and handles all announcements; n bounds how many additions there are, as they need not end. */
    method AddToOrigin(x: O, ghost n: nat)
      requires AddedToOrigin(originToMapped, mappedToOrigin, Both(), x, n).Some?
      modifies `origin, `mapped
      ensures Some(Both()) == AddedToOrigin(originToMapped, mappedToOrigin, old(Both()), x, n)
      decreases n
    {
      origin := origin + [x];
      var i := originToMapped(x);
      if i !in mapped {
        AddToMapped(i, n - 1);
      }
    }

    method AddToMapped(y: M, ghost n: nat)
      requires AddedToMapped(originToMapped, mappedToOrigin, Both(), y, n).Some?
      modifies `origin, `mapped
      ensures Some(Both()) == AddedToMapped(originToMapped, mappedToOrigin, old(Both()), y, n)
      decreases n
    {
      mapped := mapped + [y];
      var i := mappedToOrigin(y);
      if i !in origin {
        AddToOrigin(i, n - 1);
      }
    }

    method RemoveFromOrigin(x: O)
      modifies `origin, `mapped
      ensures Both() == RemovedFromOrigin(originToMapped, mappedToOrigin, old(Both()), x)
      decreases |origin| + |mapped|
    {
      if x in origin {
        origin := WithoutFirst(origin, x);
        RemoveFromMapped(originToMapped(x));
      }
    }

    method RemoveFromMapped(y: M)
      modifies `origin, `mapped
      ensures Both() == RemovedFromMapped(originToMapped, mappedToOrigin, old(Both()), y)
      decreases |origin| + |mapped|
    {
      if y in mapped {
        mapped := WithoutFirst(mapped, y);
        RemoveFromOrigin(mappedToOrigin(y));
      }
    }

    /** Announces an update of an origin item; the handler updates the image unless it is being handled already. */
    method UpdateOrigin(x: O)
      modifies `updating, `updates
      ensures updating == old(updating)
      ensures updates == old(updates) + OriginUpdates(originToMapped, mappedToOrigin, old(updating), x)
      decreases if x in updating then 0 else 2
    {
      updates := updates + [OnOrigin(x)];
      if x in updating {
        return;
      }
      updating := updating + {x};
      UpdateMapped(originToMapped(x));
      updating := updating - {x};
    }

    method UpdateMapped(y: M)
      modifies `updating, `updates
      ensures updating == old(updating)
      ensures updates == old(updates) + MappedUpdates(originToMapped, mappedToOrigin, old(updating), y)
      decreases 1
    {
      updates := updates + [OnMapped(y)];
      var i := mappedToOrigin(y);
      if i in updating {
        return;
      }
      updating := updating + {i};
      UpdateOrigin(i);
      updating := updating - {i};
    }
  }

  // ---------- Committing a lazily coupled source ----------

  function HasImageIn<O, M(==)>(f: O -> M, data: seq<M>): O -> bool {
    item => f(item) in data
  }

  /** The origin list after a commit: the items whose images are still there, then the converted new ones. */
  function Committed<O(==), M(==)>(f: O -> M, g: M -> O, origin: seq<O>, data: seq<M>): seq<O> {
    Filter(origin, HasImageIn(f, data)) + Map(g, Except(data, Map(f, origin)))
  }

  /** New items convert back to themselves. */
  ghost predicate NewItemsConvert<O, M>(f: O -> M, g: M -> O, origin: seq<O>, data: seq<M>) {
    forall i :: 0 <= i < |data| && data[i] !in Map(f, origin) ==> f(g(data[i])) == data[i]
  }

  lemma NewItem<O, M>(f: O -> M, g: M -> O, origin: seq<O>, data: seq<M>, j: nat)
    requires NewItemsConvert(f, g, origin, data) && j < |Except(data, Map(f, origin))|
    ensures var y := Except(data, Map(f, origin))[j]; y in data && f(g(y)) == y
  {
    var y := Except(data, Map(f, origin))[j];
    ExceptMembers(data, Map(f, origin), y);
  }

  /** After a commit the origin maps to the same items as the committed list holds. */
  lemma CommitAgrees<O, M>(f: O -> M, g: M -> O, origin: seq<O>, data: seq<M>, y: M)
    requires NewItemsConvert(f, g, origin, data)
    ensures y in Map(f, Committed(f, g, origin, data)) <==> y in data
  {
    var kept, added := Filter(origin, HasImageIn(f, data)), Except(data, Map(f, origin));
    var all := kept + Map(g, added);
    if y in Map(f, all) {
      var i :| 0 <= i < |all| && Map(f, all)[i] == y;
      if i < |kept| {
        FilterMembers(origin, HasImageIn(f, data), kept[i]);
        assert y == f(kept[i]);
      } else {
        NewItem(f, g, origin, data, i - |kept|);
        assert y == f(g(added[i - |kept|]));
      }
    }
    if y in data && y in Map(f, origin) {
      var i :| 0 <= i < |origin| && Map(f, origin)[i] == y;
      FilterMembers(origin, HasImageIn(f, data), origin[i]);
      var j :| 0 <= j < |kept| && kept[j] == origin[i];
      assert Map(f, all)[j] == y;
    } else if y in data {
      ExceptMembers(data, Map(f, origin), y);
      var j :| 0 <= j < |added| && added[j] == y;
      NewItem(f, g, origin, data, j);
      assert Map(f, all)[|kept| + j] == y;
    }
  }

  /**
    The order after a commit: the origin items whose images are in the list, at all
    their positions, and behind them, if there is a conversion, those of the items that
    the origin has no image for, at their first positions.
   */
  lemma CommitOrder<O, M>(f: O -> M, g: Option<M -> O>, origin: seq<O>, data: seq<M>) returns (kept: seq<nat>, added: seq<nat>)
    ensures Ascending(kept, |origin|) && Ascending(added, |data|)
    ensures forall i: nat :: i in kept <==> i < |origin| && f(origin[i]) in data
    ensures forall j: nat :: j in added <==> j < |data| && data[j] !in data[..j] && forall x :: x in origin ==> f(x) != data[j]
    ensures var after := CommitOutcome(f, g, origin, data).0;
            && |after| == |kept| + (if g.Some? then |added| else 0)
            && (forall k :: 0 <= k < |kept| ==> after[k] == origin[kept[k]])
            && (g.Some? ==> forall k :: 0 <= k < |added| ==> after[|kept| + k] == g.value(data[added[k]]))
  {
    kept := FilterPicks(origin, HasImageIn(f, data));
    added := ExceptPicks(data, Map(f, origin));
    forall j: nat | j < |data| ensures data[j] in Map(f, origin) <==> exists x :: x in origin && f(x) == data[j] {
      InMap(f, origin, data[j]);
    }
  }

  lemma InMap<O, M>(f: O -> M, s: seq<O>, y: M)
    ensures y in Map(f, s) <==> exists x :: x in s && f(x) == y
  {
    if y in Map(f, s) {
      var i :| 0 <= i < |s| && Map(f, s)[i] == y;
      assert s[i] in s;
    }
    if x :| x in s && f(x) == y {
      var i :| 0 <= i < |s| && s[i] == x;
      assert Map(f, s)[i] == y;
    }
  }

  ghost predicate Ascending(at: seq<nat>, n: nat) {
    && (forall k :: 0 <= k < |at| ==> at[k] < n)
    && forall j, k :: 0 <= j < k < |at| ==> at[j] < at[k]
  }

  lemma {:induction false} ExceptMembers<T>(a: seq<T>, b: seq<T>, x: T)
    ensures x in Except(a, b) <==> x in a && x !in b
  {
    ExceptOnce(a, b, x);
    assert x in Except(a, b) <==> x in multiset(Except(a, b));
  }

  /** A second commit changes nothing. */
  lemma CommitTwice<O, M>(f: O -> M, g: M -> O, origin: seq<O>, data: seq<M>)
    requires NewItemsConvert(f, g, origin, data)
    ensures Committed(f, g, Committed(f, g, origin, data), data) == Committed(f, g, origin, data)
  {
    var once := Committed(f, g, origin, data);
    forall i | 0 <= i < |once| ensures f(once[i]) in data {
      assert Map(f, once)[i] == f(once[i]);
      CommitAgrees(f, g, origin, data, f(once[i]));
    }
    FilterAll(once, HasImageIn(f, data));
    var added := Except(data, Map(f, once));
    if added != [] {
      ExceptMembers(data, Map(f, once), added[0]);
      CommitAgrees(f, g, origin, data, added[0]);
    }
  }

  datatype CommitError = InvalidOperation | ArgumentNull

  /** The origin list after a commit, and the exception; the removals are done in any case. */
  function CommitOutcome<O(==), M(==)>(f: O -> M, g: Option<M -> O>, origin: seq<O>, data: seq<M>): (seq<O>, Option<CommitError>) {
    if g.Some? then (Committed(f, g.value, origin, data), None)
    else (Filter(origin, HasImageIn(f, data)), Some(if Except(data, Map(f, origin)) != [] then InvalidOperation else ArgumentNull))
  }

  /** A commit succeeds exactly if there is a conversion; without one, the exception tells whether there was anything to convert. */
  lemma CommitNeedsConversion<O, M(!new)>(f: O -> M, g: Option<M -> O>, origin: seq<O>, data: seq<M>)
    ensures var (_, error) := CommitOutcome(f, g, origin, data);
            && (error.None? <==> g.Some?)
            && (error == Some(InvalidOperation) <==> g.None? && exists y :: y in data && y !in Map(f, origin))
            && (error == Some(ArgumentNull) <==> g.None? && forall y :: y in data ==> y in Map(f, origin))
  {
    var added := Except(data, Map(f, origin));
    forall y ensures y in added <==> y in data && y !in Map(f, origin) {
      ExceptMembers(data, Map(f, origin), y);
    }
    if added != [] {
      assert added[0] in added;
    }
  }

  /** Without a conversion, committing an unchanged list fails although there is nothing to do. */
  lemma UnchangedCommitFails<O, M>(f: O -> M, origin: seq<O>)
    ensures CommitOutcome(f, None, origin, Map(f, origin)) == (origin, Some(ArgumentNull))
  {
    var data := Map(f, origin);
    forall i | 0 <= i < |origin| ensures HasImageIn(f, data)(origin[i]) {
      assert data[i] == f(origin[i]);
    }
    FilterAll(origin, HasImageIn(f, data));
    var added := Except(data, data);
    if added != [] {
      ExceptMembers(data, data, added[0]);
    }
  }

  class LazyMappedSource<O(==, !new), M(==, !new)> {
    var origin: seq<O>
    var data: seq<M>
    const originToMapped: O -> M
    const mappedToOrigin: Option<M -> O>

    constructor (origin: seq<O>, originToMapped: O -> M, mappedToOrigin: Option<M -> O>)
      ensures this.origin == origin && data == Map(originToMapped, origin)
      ensures this.originToMapped == originToMapped && this.mappedToOrigin == mappedToOrigin
    {
      this.origin, data := origin, Map(originToMapped, origin);
      this.originToMapped, this.mappedToOrigin := originToMapped, mappedToOrigin;
    }

    /** Removes what is gone, then adds what is new; without a conversion it fails in between. */
    method Commit() returns (error: Option<CommitError>)
      modifies `origin
      ensures (origin, error) == CommitOutcome(originToMapped, mappedToOrigin, old(origin), data)
    {
      ghost var before := origin;
      var f := originToMapped;
      var newCommit := Except(data, Map(f, origin));
      var toRemove := Filter(origin, Not(HasImageIn(f, data)));
      for i := 0 to |toRemove|
        invariant origin == WithoutEach(before, toRemove[..i])
      {
        Snoc(toRemove, i);
        origin := WithoutFirst(origin, toRemove[i]);
      }
      assert toRemove[..|toRemove|] == toRemove;
      RemoveAllIsFilter(before, [], HasImageIn(f, data));
      assert before + [] == before;
      assert Filter(before, HasImageIn(f, data)) + [] == Filter(before, HasImageIn(f, data));
      if newCommit != [] && mappedToOrigin.None? {
        return Some(InvalidOperation);
      }
      if mappedToOrigin.None? {
        return Some(ArgumentNull);
      }
      origin := origin + Map(mappedToOrigin.value, newCommit);
      return None;
    }
  }
}
