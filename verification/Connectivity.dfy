/**
  The equivalence relation generated by a sequence of pairs, which is the
  meaning of "belong to the same set" in the union-find structure and of
  "connected" in a graph, and the number of its classes.
 */
module Connectivity {

  type Pair = (nat, nat)

  /** Adding the pair (x, y) last relates what was related, and joins the classes of x and y. */
  ghost predicate Connected(pairs: seq<Pair>, a: nat, b: nat) {
    if pairs == [] then
      a == b
    else
      var prev := pairs[..|pairs| - 1];
      var (x, y) := pairs[|pairs| - 1];
      || Connected(prev, a, b)
      || (Connected(prev, a, x) && Connected(prev, y, b))
      || (Connected(prev, a, y) && Connected(prev, x, b))
  }

  ghost predicate IsEquivalence(rel: (nat, nat) -> bool) {
    && (forall a :: rel(a, a))
    && (forall a, b :: rel(a, b) ==> rel(b, a))
    && (forall a, b, c :: rel(a, b) && rel(b, c) ==> rel(a, c))
  }

  ghost predicate Contains(rel: (nat, nat) -> bool, pairs: seq<Pair>) {
    forall p :: p in pairs ==> rel(p.0, p.1)
  }

  lemma {:induction false} ConnectedReflexive(pairs: seq<Pair>, a: nat)
    ensures Connected(pairs, a, a)
  {
    if pairs != [] {
      ConnectedReflexive(pairs[..|pairs| - 1], a);
    }
  }

  lemma {:induction false} ConnectedSymmetric(pairs: seq<Pair>, a: nat, b: nat)
    requires Connected(pairs, a, b)
    ensures Connected(pairs, b, a)
  {
    if pairs != [] {
      var prev := pairs[..|pairs| - 1];
      var (x, y) := pairs[|pairs| - 1];
      if Connected(prev, a, b) {
        ConnectedSymmetric(prev, a, b);
      } else if Connected(prev, a, x) && Connected(prev, y, b) {
        ConnectedSymmetric(prev, a, x);
        ConnectedSymmetric(prev, y, b);
      } else {
        ConnectedSymmetric(prev, a, y);
        ConnectedSymmetric(prev, x, b);
      }
    }
  }

  /**
    The label of a: adding the pair (x, y) relabels the class of y with the
    label of x.  Labels decide the relation (LabelsDecide).
   */
  ghost function Label(pairs: seq<Pair>, a: nat): nat {
    if pairs == [] then
      a
    else
      var prev := pairs[..|pairs| - 1];
      var (x, y) := pairs[|pairs| - 1];
      if Label(prev, a) == Label(prev, y) then Label(prev, x) else Label(prev, a)
  }

  lemma {:induction false} LabelsDecide(pairs: seq<Pair>, a: nat, b: nat)
    ensures Connected(pairs, a, b) <==> Label(pairs, a) == Label(pairs, b)
  {
    if pairs != [] {
      var prev := pairs[..|pairs| - 1];
      var (x, y) := pairs[|pairs| - 1];
      LabelsDecide(prev, a, b);
      LabelsDecide(prev, a, x);
      LabelsDecide(prev, a, y);
      LabelsDecide(prev, x, b);
      LabelsDecide(prev, y, b);
    }
  }

  lemma ConnectedTransitive(pairs: seq<Pair>, a: nat, b: nat, c: nat)
    requires Connected(pairs, a, b) && Connected(pairs, b, c)
    ensures Connected(pairs, a, c)
  {
    LabelsDecide(pairs, a, b);
    LabelsDecide(pairs, b, c);
    LabelsDecide(pairs, a, c);
  }

  lemma {:induction false} PairsAreConnected(pairs: seq<Pair>, i: nat)
    requires i < |pairs|
    ensures Connected(pairs, pairs[i].0, pairs[i].1)
  {
    var prev := pairs[..|pairs| - 1];
    var (x, y) := pairs[|pairs| - 1];
    if i == |pairs| - 1 {
      ConnectedReflexive(prev, x);
      ConnectedReflexive(prev, y);
    } else {
      PairsAreConnected(prev, i);
    }
  }

  /** Connected is an equivalence relation that contains the pairs ... */
  lemma ConnectedIsEquivalence(pairs: seq<Pair>)
    ensures IsEquivalence((a: nat, b: nat) => Connected(pairs, a, b))
    ensures Contains((a: nat, b: nat) => Connected(pairs, a, b), pairs)
  {
    forall a: nat ensures Connected(pairs, a, a) {
      ConnectedReflexive(pairs, a);
    }
    forall a: nat, b: nat | Connected(pairs, a, b) ensures Connected(pairs, b, a) {
      ConnectedSymmetric(pairs, a, b);
    }
    forall a: nat, b: nat, c: nat | Connected(pairs, a, b) && Connected(pairs, b, c) ensures Connected(pairs, a, c) {
      ConnectedTransitive(pairs, a, b, c);
    }
    forall p | p in pairs ensures Connected(pairs, p.0, p.1) {
      var i :| 0 <= i < |pairs| && pairs[i] == p;
      PairsAreConnected(pairs, i);
    }
  }

  /** ... and the least one. */
  lemma {:induction false} ConnectedIsLeast(pairs: seq<Pair>, rel: (nat, nat) -> bool, a: nat, b: nat)
    requires IsEquivalence(rel) && Contains(rel, pairs)
    requires Connected(pairs, a, b)
    ensures rel(a, b)
  {
    if pairs != [] {
      var prev := pairs[..|pairs| - 1];
      var (x, y) := pairs[|pairs| - 1];
      assert rel(pairs[|pairs| - 1].0, pairs[|pairs| - 1].1);
      if Connected(prev, a, b) {
        ConnectedIsLeast(prev, rel, a, b);
      } else if Connected(prev, a, x) && Connected(prev, y, b) {
        ConnectedIsLeast(prev, rel, a, x);
        ConnectedIsLeast(prev, rel, y, b);
      } else {
        ConnectedIsLeast(prev, rel, a, y);
        ConnectedIsLeast(prev, rel, x, b);
      }
    }
  }

  lemma ConnectedByLast(prev: seq<Pair>, x: nat, y: nat, a: nat, b: nat)
    ensures Connected(prev + [(x, y)], a, b) <==>
            || Connected(prev, a, b)
            || (Connected(prev, a, x) && Connected(prev, y, b))
            || (Connected(prev, a, y) && Connected(prev, x, b))
  {
    assert (prev + [(x, y)])[..|prev|] == prev;
  }

  /** A pair that is related already adds nothing. */
  lemma ConnectAlready(pairs: seq<Pair>, x: nat, y: nat, a: nat, b: nat)
    requires Connected(pairs, x, y)
    ensures Connected(pairs + [(x, y)], a, b) <==> Connected(pairs, a, b)
  {
    var more := pairs + [(x, y)];
    assert more[..|more| - 1] == pairs;
    LabelsDecide(pairs, x, y);
    LabelsDecide(more, a, b);
    LabelsDecide(pairs, a, b);
  }

  /** More pairs connect more. */
  lemma ConnectedMonotone(few: seq<Pair>, many: seq<Pair>, a: nat, b: nat)
    requires forall p :: p in few ==> Connected(many, p.0, p.1)
    requires Connected(few, a, b)
    ensures Connected(many, a, b)
  {
    ConnectedIsEquivalence(many);
    ConnectedIsLeast(few, (x: nat, y: nat) => Connected(many, x, y), a, b);
  }

  /** The labels in use among the items below n, one for each class. */
  ghost function Labels(n: nat, pairs: seq<Pair>): set<nat> {
    set i | 0 <= i < n :: Label(pairs, i)
  }

  ghost predicate InRange(n: nat, pairs: seq<Pair>) {
    forall p :: p in pairs ==> p.0 < n && p.1 < n
  }

  /** A label is itself an item of the class that it names. */
  lemma {:induction false} LabelIsMember(n: nat, pairs: seq<Pair>, a: nat)
    requires InRange(n, pairs) && a < n
    ensures Label(pairs, a) < n && Label(pairs, Label(pairs, a)) == Label(pairs, a)
  {
    if pairs != [] {
      var prev := pairs[..|pairs| - 1];
      var (x, y) := pairs[|pairs| - 1];
      assert pairs[|pairs| - 1] in pairs;
      LabelIsMember(n, prev, a);
      LabelIsMember(n, prev, x);
    }
  }

  /** Adding a pair joins two classes into one, or changes nothing when they are the same. */
  lemma ClassesAfterPair(n: nat, prev: seq<Pair>, x: nat, y: nat)
    requires InRange(n, prev) && x < n && y < n
    ensures |Labels(n, prev + [(x, y)])| == |Labels(n, prev)| - (if Connected(prev, x, y) then 0 else 1)
  {
    var pairs := prev + [(x, y)];
    assert pairs[..|pairs| - 1] == prev;
    LabelsDecide(prev, x, y);
    var lx, ly := Label(prev, x), Label(prev, y);
    if lx == ly {
      assert forall i: nat :: Label(pairs, i) == Label(prev, i);
      assert Labels(n, pairs) == Labels(n, prev);
    } else {
      forall i | 0 <= i < n ensures Label(pairs, i) in Labels(n, prev) - {ly} {}
      forall l | l in Labels(n, prev) - {ly} ensures l in Labels(n, pairs) {
        var i :| 0 <= i < n && Label(prev, i) == l;
        assert Label(pairs, i) == l;
      }
      assert Labels(n, pairs) == Labels(n, prev) - {ly};
      assert ly in Labels(n, prev);
    }
  }

  lemma {:induction false} ClassesInitially(n: nat)
    ensures |Labels(n, [])| == n
  {
    if n > 0 {
      ClassesInitially(n - 1);
      assert Label([], n - 1) == n - 1;
      assert Labels(n, []) == Labels(n - 1, []) + {n - 1};
    }
  }

  lemma {:induction false} ImageSize(s: set<nat>, f: nat -> nat)
    ensures |set x | x in s :: f(x)| <= |s|
    decreases |s|
  {
    if s == {} {
      assert (set x | x in s :: f(x)) == {};
    } else {
      var a :| a in s;
      ImageSize(s - {a}, f);
      assert (set x | x in s :: f(x)) == (set x | x in s - {a} :: f(x)) + {f(a)};
    }
  }

  /** A coarser relation has at most as many classes. */
  lemma CoarserHasFewerClasses(n: nat, fine: seq<Pair>, coarse: seq<Pair>)
    requires InRange(n, fine) && InRange(n, coarse)
    requires forall p :: p in fine ==> Connected(coarse, p.0, p.1)
    ensures |Labels(n, coarse)| <= |Labels(n, fine)|
  {
    var f := l => Label(coarse, l);
    forall l | l in Labels(n, coarse) ensures l in set x | x in Labels(n, fine) :: f(x) {
      var i :| 0 <= i < n && Label(coarse, i) == l;
      var a := Label(fine, i);
      LabelIsMember(n, fine, i);
      LabelsDecide(fine, a, i);
      ConnectedMonotone(fine, coarse, a, i);
      LabelsDecide(coarse, a, i);
      assert a in Labels(n, fine) && f(a) == l;
    }
    forall x | x in Labels(n, fine) ensures f(x) in Labels(n, coarse) {
      var i :| 0 <= i < n && Label(fine, i) == x;
      LabelIsMember(n, fine, i);
    }
    assert Labels(n, coarse) == set x | x in Labels(n, fine) :: f(x);
    ImageSize(Labels(n, fine), f);
  }
}
