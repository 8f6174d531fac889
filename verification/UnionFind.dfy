/**
  Union-find with union by rank and path compression.  The forest is first
  described on snapshots of the two arrays; the class below updates the arrays
  in place and is specified by these snapshots.
 */
module UnionFinds {
  import opened Connectivity

  type Links = seq<nat>

  ghost function Pow2(k: nat): (p: nat)
    ensures p > k
  {
    if k == 0 then 1 else 2 * Pow2(k - 1)
  }

  lemma {:induction false} Pow2Monotone(j: nat, k: nat)
    requires j <= k
    ensures Pow2(j) <= Pow2(k)
  {
    if j < k {
      Pow2Monotone(j, k - 1);
    }
  }

  lemma Pow2Doubles(k: nat)
    ensures Pow2(k + 1) == Pow2(k) + Pow2(k)
  {
  }

  // ---------- Forests ----------

  /** Parent links stay in range and rank strictly grows along them. */
  ghost predicate RanksGrow(parents: Links, ranks: Links) {
    && |parents| <= |ranks|
    && forall i {:trigger parents[i]} :: 0 <= i < |parents| ==>
         && ranks[i] < |parents|
         && parents[i] < |parents|
         && (parents[i] != i ==> ranks[i] < ranks[parents[i]])
  }

  /** The representative of the set of an item: where its parent links end. */
  ghost function Root(parents: Links, ranks: Links, item: nat): (r: nat)
    requires RanksGrow(parents, ranks) && item < |parents|
    ensures r < |parents| && parents[r] == r
    ensures if r == item then parents[item] == item else ranks[item] < ranks[r]
    decreases |parents| - ranks[item]
  {
    if parents[item] == item then item else Root(parents, ranks, parents[item])
  }

  /** The number of links from an item to its representative. */
  ghost function Depth(parents: Links, ranks: Links, item: nat): (d: nat)
    requires RanksGrow(parents, ranks) && item < |parents|
    ensures d <= ranks[Root(parents, ranks, item)] - ranks[item]
    decreases |parents| - ranks[item]
  {
    if parents[item] == item then 0 else 1 + Depth(parents, ranks, parents[item])
  }

  ghost function Members(parents: Links, ranks: Links, root: nat): set<nat>
    requires RanksGrow(parents, ranks)
  {
    set i | 0 <= i < |parents| && Root(parents, ranks, i) == root
  }

  /** A root of rank r has at least 2^r members. */
  ghost predicate RootsAreBig(parents: Links, ranks: Links)
    requires RanksGrow(parents, ranks)
  {
    forall r {:trigger Members(parents, ranks, r)} :: 0 <= r < |parents| && parents[r] == r ==>
      Pow2(ranks[r]) <= |Members(parents, ranks, r)|
  }

  ghost predicate Forest(parents: Links, ranks: Links) {
    RanksGrow(parents, ranks) && RootsAreBig(parents, ranks)
  }

  lemma MembersAreItems(parents: Links, ranks: Links, s: set<nat>)
    requires forall i :: i in s ==> i < |parents|
    ensures |s| <= |parents|
  {
    ClassesInitially(|parents|);
    forall i | i in s ensures i in Labels(|parents|, []) {
      assert Label([], i) == i;
    }
    SubsetSize(s, Labels(|parents|, []));
  }

  lemma {:induction false} SubsetSize(s: set<nat>, t: set<nat>)
    requires s <= t
    ensures |s| <= |t|
    decreases |s|
  {
    if s != {} {
      var a :| a in s;
      SubsetSize(s - {a}, t - {a});
    }
  }

  /** No path to a representative is longer than the logarithm of the number of items. */
  lemma HeightIsLogarithmic(parents: Links, ranks: Links, item: nat)
    requires Forest(parents, ranks) && item < |parents|
    ensures Pow2(Depth(parents, ranks, item)) <= |parents|
  {
    var r := Root(parents, ranks, item);
    Pow2Monotone(Depth(parents, ranks, item), ranks[r]);
    MembersAreItems(parents, ranks, Members(parents, ranks, r));
  }

  // ---------- Path compression ----------

  /** Linking an item straight to its representative changes no representative. */
  lemma {:induction false} CompressKeepsRoot(parents: Links, ranks: Links, item: nat, i: nat)
    requires RanksGrow(parents, ranks) && item < |parents| && i < |parents|
    ensures var shorter := parents[item := Root(parents, ranks, item)];
            RanksGrow(shorter, ranks) && Root(shorter, ranks, i) == Root(parents, ranks, i)
    decreases |parents| - ranks[i]
  {
    var root := Root(parents, ranks, item);
    var shorter := parents[item := root];
    assert RanksGrow(shorter, ranks) by {
      assert root != item ==> ranks[item] < ranks[root];
      forall k | 0 <= k < |shorter|
        ensures ranks[k] < |shorter| && shorter[k] < |shorter| && (shorter[k] != k ==> ranks[k] < ranks[shorter[k]])
      {
        assert parents[k] < |parents|;
      }
    }
    if i == item {
      assert Root(shorter, ranks, root) == root;
    } else if parents[i] != i {
      CompressKeepsRoot(parents, ranks, item, parents[i]);
    }
  }

  lemma CompressKeepsForest(parents: Links, ranks: Links, item: nat)
    requires Forest(parents, ranks) && item < |parents|
    ensures Forest(parents[item := Root(parents, ranks, item)], ranks)
    ensures SameRoots(parents, parents[item := Root(parents, ranks, item)], ranks)
  {
    var shorter := parents[item := Root(parents, ranks, item)];
    CompressKeepsRoot(parents, ranks, item, item);
    forall i | 0 <= i < |parents| ensures Root(shorter, ranks, i) == Root(parents, ranks, i) {
      CompressKeepsRoot(parents, ranks, item, i);
    }
    forall r | 0 <= r < |parents| && shorter[r] == r ensures Pow2(ranks[r]) <= |Members(shorter, ranks, r)| {
      assert Members(shorter, ranks, r) == Members(parents, ranks, r);
    }
  }

  ghost predicate SameRoots(before: Links, after: Links, ranks: Links) {
    && RanksGrow(before, ranks) && RanksGrow(after, ranks) && |before| == |after|
    && forall i {:trigger Root(after, ranks, i)} :: 0 <= i < |before| ==> Root(after, ranks, i) == Root(before, ranks, i)
  }

  /** Whether an item lies on the path from another item to its representative. */
  ghost predicate OnPath(parents: Links, ranks: Links, from: nat, item: nat)
    requires RanksGrow(parents, ranks) && from < |parents|
    decreases |parents| - ranks[from]
  {
    from == item || (parents[from] != from && OnPath(parents, ranks, parents[from], item))
  }

  /** What Find leaves behind: the whole path points at the representative, all else is as before. */
  ghost predicate PathCompressed(before: Links, after: Links, ranks: Links, item: nat)
    requires RanksGrow(before, ranks) && item < |before|
  {
    && |after| == |before|
    && forall i {:trigger after[i]} :: 0 <= i < |before| ==>
         after[i] == if OnPath(before, ranks, item, i) then Root(before, ranks, item) else before[i]
  }

  // ---------- Union by rank ----------

  /** The links after the smaller of two roots is hung below the other. */
  ghost predicate Hung(before: Links, ranks: Links, after: Links, newRanks: Links, low: nat, high: nat) {
    && RanksGrow(before, ranks)
    && low < |before| && high < |before| && low != high
    && before[low] == low && before[high] == high
    && ranks[low] <= ranks[high]
    && after == before[low := high]
    && newRanks == if ranks[low] == ranks[high] then ranks[high := ranks[high] + 1] else ranks
  }

  lemma MembersDisjoint(parents: Links, ranks: Links, low: nat, high: nat)
    requires Forest(parents, ranks) && low < |parents| && high < |parents| && low != high
    requires parents[low] == low && parents[high] == high
    ensures Pow2(ranks[low]) + Pow2(ranks[high])
         <= |Members(parents, ranks, low) + Members(parents, ranks, high)| <= |parents|
  {
    var lows, highs := Members(parents, ranks, low), Members(parents, ranks, high);
    assert lows !! highs;
    assert |lows + highs| == |lows| + |highs|;
    MembersAreItems(parents, ranks, lows + highs);
  }

  lemma HungRanksGrow(before: Links, ranks: Links, after: Links, newRanks: Links, low: nat, high: nat)
    requires Hung(before, ranks, after, newRanks, low, high) && Forest(before, ranks)
    ensures RanksGrow(after, newRanks)
  {
    MembersDisjoint(before, ranks, low, high);
    Pow2Doubles(ranks[high]);
    forall i | 0 <= i < |after|
      ensures newRanks[i] < |after| && after[i] < |after| && (after[i] != i ==> newRanks[i] < newRanks[after[i]])
    {
      assert before[i] < |before|;
    }
  }

  lemma {:induction false} HungRoot(before: Links, ranks: Links, after: Links, newRanks: Links, low: nat, high: nat, i: nat)
    requires Hung(before, ranks, after, newRanks, low, high) && RanksGrow(after, newRanks)
    requires i < |before|
    ensures Root(after, newRanks, i) ==
            if Root(before, ranks, i) == low then high else Root(before, ranks, i)
    decreases |before| - ranks[i]
  {
    if i == low {
      assert Root(after, newRanks, high) == high;
    } else if before[i] != i {
      HungRoot(before, ranks, after, newRanks, low, high, before[i]);
    }
  }

  lemma HungRoots(before: Links, ranks: Links, after: Links, newRanks: Links, low: nat, high: nat)
    requires Hung(before, ranks, after, newRanks, low, high) && RanksGrow(after, newRanks)
    ensures forall i {:trigger Root(after, newRanks, i)} :: 0 <= i < |before| ==>
              Root(after, newRanks, i) == if Root(before, ranks, i) == low then high else Root(before, ranks, i)
  {
    forall i | 0 <= i < |before|
      ensures Root(after, newRanks, i) == if Root(before, ranks, i) == low then high else Root(before, ranks, i)
    {
      HungRoot(before, ranks, after, newRanks, low, high, i);
    }
  }

  lemma HungMembers(before: Links, ranks: Links, after: Links, newRanks: Links, low: nat, high: nat, r: nat)
    requires Hung(before, ranks, after, newRanks, low, high) && RanksGrow(after, newRanks) && r != low
    ensures r == high ==> Members(after, newRanks, r) == Members(before, ranks, low) + Members(before, ranks, high)
    ensures r != high ==> Members(after, newRanks, r) == Members(before, ranks, r)
  {
    HungRoots(before, ranks, after, newRanks, low, high);
    forall i | 0 <= i < |before|
      ensures i in Members(after, newRanks, r) <==>
              i in Members(before, ranks, r) || (r == high && i in Members(before, ranks, low))
    {
      assert Root(after, newRanks, i) == if Root(before, ranks, i) == low then high else Root(before, ranks, i);
    }
  }

  lemma GrownRankIsBig(lowRank: nat, highRank: nat, newRank: nat, size: nat)
    requires Pow2(lowRank) + Pow2(highRank) <= size
    requires newRank == if lowRank == highRank then highRank + 1 else highRank
    ensures Pow2(newRank) <= size
  {
    Pow2Doubles(highRank);
  }

  lemma OtherRootIsBig(before: Links, ranks: Links, after: Links, newRanks: Links, low: nat, high: nat, r: nat)
    requires Hung(before, ranks, after, newRanks, low, high) && Forest(before, ranks) && RanksGrow(after, newRanks)
    requires r < |after| && after[r] == r && r != high
    ensures Pow2(newRanks[r]) <= |Members(after, newRanks, r)|
  {
    HungMembers(before, ranks, after, newRanks, low, high, r);
    assert before[r] == r && newRanks[r] == ranks[r];
  }

  lemma HungIsForest(before: Links, ranks: Links, after: Links, newRanks: Links, low: nat, high: nat)
    requires Hung(before, ranks, after, newRanks, low, high) && Forest(before, ranks)
    ensures Forest(after, newRanks)
  {
    HungRanksGrow(before, ranks, after, newRanks, low, high);
    forall r | 0 <= r < |after| && after[r] == r ensures Pow2(newRanks[r]) <= |Members(after, newRanks, r)| {
      if r == high {
        MembersDisjoint(before, ranks, low, high);
        HungMembers(before, ranks, after, newRanks, low, high, high);
        GrownRankIsBig(ranks[low], ranks[high], newRanks[high], |Members(after, newRanks, high)|);
      } else {
        OtherRootIsBig(before, ranks, after, newRanks, low, high, r);
      }
    }
  }

  /** Two items have the same representative exactly when the united pairs relate them. */
  ghost predicate Agrees(parents: Links, ranks: Links, united: seq<Pair>)
    requires RanksGrow(parents, ranks)
  {
    forall i, j {:trigger Root(parents, ranks, i), Root(parents, ranks, j)} :: 0 <= i < |parents| && 0 <= j < |parents| ==>
      (Connected(united, i, j) <==> Root(parents, ranks, i) == Root(parents, ranks, j))
  }

  lemma HungAgrees(before: Links, ranks: Links, after: Links, newRanks: Links, low: nat, high: nat,
                   united: seq<Pair>, x: nat, y: nat)
    requires Hung(before, ranks, after, newRanks, low, high) && RanksGrow(after, newRanks)
    requires Agrees(before, ranks, united) && x < |before| && y < |before|
    requires var rx, ry := Root(before, ranks, x), Root(before, ranks, y);
             (rx == low && ry == high) || (rx == high && ry == low)
    ensures Agrees(after, newRanks, united + [(x, y)])
  {
    var more := united + [(x, y)];
    HungRoots(before, ranks, after, newRanks, low, high);
    forall i, j | 0 <= i < |before| && 0 <= j < |before|
      ensures Connected(more, i, j) <==> Root(after, newRanks, i) == Root(after, newRanks, j)
    {
      var ri, rj, rx, ry := Root(before, ranks, i), Root(before, ranks, j), Root(before, ranks, x), Root(before, ranks, y);
      ConnectedByLast(united, x, y, i, j);
      assert Connected(more, i, j) <==> ri == rj || (ri == rx && ry == rj) || (ri == ry && rx == rj);
    }
  }

  lemma StillAgrees(parents: Links, ranks: Links, united: seq<Pair>, x: nat, y: nat)
    requires RanksGrow(parents, ranks) && Agrees(parents, ranks, united)
    requires x < |parents| && y < |parents| && Root(parents, ranks, x) == Root(parents, ranks, y)
    ensures Agrees(parents, ranks, united + [(x, y)])
  {
    forall i, j | 0 <= i < |parents| && 0 <= j < |parents|
      ensures Connected(united + [(x, y)], i, j) <==> Root(parents, ranks, i) == Root(parents, ranks, j)
    {
      ConnectAlready(united, x, y, i, j);
    }
  }

  // ---------- The class ----------

  class UnionFind {
    const parents: array<nat>
    const ranks: array<nat>

    /** Every pair of items passed to Union so far. */
    ghost var united: seq<Pair>

    /**
      The arrays form a forest, and two items have the same representative
      exactly when the united pairs relate them.
     */
    ghost predicate Valid()
      reads this, parents, ranks
    {
      && parents != ranks
      && Forest(parents[..], ranks[..])
      && InRange(parents.Length, united)
      && Agrees(parents[..], ranks[..], united)
    }

    ghost function RootOf(item: nat): nat
      requires RanksGrow(parents[..], ranks[..]) && item < parents.Length
      reads this, parents, ranks
    {
      Root(parents[..], ranks[..], item)
    }

    /** The range of parents is one shorter than the list of items, and must not have negative length. */
    constructor (itemCount: nat)
      requires itemCount > 0
      ensures Valid() && fresh(parents) && fresh(ranks)
      ensures parents.Length == itemCount - 1 && ranks.Length == itemCount
      ensures united == []
    {
      parents := new nat[itemCount - 1](i => i);
      ranks := new nat[itemCount](_ => 0);
      united := [];
      new;
      forall r | 0 <= r < parents.Length ensures r in Members(parents[..], ranks[..], r) {
      }
      forall r | 0 <= r < parents.Length ensures Pow2(0) <= |Members(parents[..], ranks[..], r)| {
        SubsetSize({r}, Members(parents[..], ranks[..], r));
      }
    }

    /** Returns the representative; calls counts the recursive calls, one for each link followed. */
    method Find(item: nat) returns (root: nat, ghost calls: nat)
      requires Valid() && item < parents.Length
      modifies parents
      ensures Valid()
      ensures root == old(RootOf(item)) == RootOf(item)
      ensures SameRoots(old(parents[..]), parents[..], ranks[..])
      ensures PathCompressed(old(parents[..]), parents[..], ranks[..], item)
      ensures calls == old(Depth(parents[..], ranks[..], item)) && Pow2(calls) <= parents.Length
      decreases parents.Length - ranks[item]
    {
      ghost var before := parents[..];
      HeightIsLogarithmic(before, ranks[..], item);
      if parents[item] == item {
        return item, 0;
      }
      var above := parents[item];
      root, calls := Find(above);
      calls := calls + 1;
      ghost var between := parents[..];
      CompressKeepsForest(between, ranks[..], item);
      parents[item] := root;
      assert parents[..] == between[item := root];
      forall i | 0 <= i < |before|
        ensures parents[i] == if OnPath(before, ranks[..], item, i) then root else before[i]
      {
        assert between[i] == if OnPath(before, ranks[..], above, i) then root else before[i];
      }
    }

    /** Hangs the root of lower rank below the other; on a tie the second below the first, whose rank grows. */
    method Hang(set1: nat, set2: nat)
      requires parents != ranks && Forest(parents[..], ranks[..])
      requires set1 < parents.Length && set2 < parents.Length && set1 != set2
      requires parents[set1] == set1 && parents[set2] == set2
      modifies parents, ranks
      ensures Forest(parents[..], ranks[..])
      ensures var low, high := if old(ranks[set2]) > old(ranks[set1]) then set1 else set2,
                               if old(ranks[set2]) > old(ranks[set1]) then set2 else set1;
              Hung(old(parents[..]), old(ranks[..]), parents[..], ranks[..], low, high)
    {
      ghost var low, high := set1, set2;
      if ranks[set2] > ranks[set1] {
        parents[set1] := set2;
      } else {
        low, high := set2, set1;
        parents[set2] := set1;
        if ranks[set1] == ranks[set2] {
          ranks[set1] := ranks[set1] + 1;
        }
      }
      ghost var before, oldRanks := old(parents[..]), old(ranks[..]);
      assert parents[..] == before[low := high];
      assert ranks[..] == if oldRanks[low] == oldRanks[high] then oldRanks[high := oldRanks[high] + 1] else oldRanks;
      HungIsForest(before, oldRanks, parents[..], ranks[..], low, high);
    }

    /** Merges the sets of two items; returns false if they were in the same set already. */
    method Union(item1: nat, item2: nat) returns (merged: bool)
      requires Valid() && item1 < parents.Length && item2 < parents.Length
      modifies this, parents, ranks
      ensures Valid()
      ensures united == old(united) + [(item1, item2)]
      ensures merged <==> !Connected(old(united), item1, item2)
    {
      var set1, _ := Find(item1);
      var set2, _ := Find(item2);
      assert RootOf(item1) == set1 && RootOf(item2) == set2;
      united := united + [(item1, item2)];
      merged := set1 != set2;
      if merged {
        ghost var before, oldRanks := parents[..], ranks[..];
        Hang(set1, set2);
        ghost var low, high := if oldRanks[set2] > oldRanks[set1] then set1 else set2,
                               if oldRanks[set2] > oldRanks[set1] then set2 else set1;
        HungAgrees(before, oldRanks, parents[..], ranks[..], low, high, old(united), item1, item2);
      } else {
        StillAgrees(parents[..], ranks[..], old(united), item1, item2);
      }
    }
  }
}
