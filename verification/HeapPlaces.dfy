/** Where sifting leaves every entry, position by position, ties included. */
module HeapPlaces {
  import opened HeapOrder

  // ----- up -----

  /** k is i or an ancestor of i. */
  predicate OnPath(k: nat, i: nat)
    decreases i
  {
    k == i || (i > 0 && OnPath(k, Parent(i)))
  }

  lemma {:induction false} PathGoesUp(k: nat, i: nat)
    requires OnPath(k, i)
    ensures k <= i
    decreases i
  {
    if k != i { PathGoesUp(k, Parent(i)); }
  }

  /** What stands at k once the entry at i is lifted: entries above it move down one place exactly if
      they are greater than it, and nothing else moves. */
  ghost function LiftedAt<K, V>(s: seq<Entry<K, V>>, i: nat, k: nat, rank: K -> int): Entry<K, V>
    requires i < |s| && k < |s|
  {
    if !OnPath(k, i) || (k != i && rank(s[k].key) <= rank(s[i].key)) then s[k]
    else if k > 0 && rank(s[Parent(k)].key) > rank(s[i].key) then s[Parent(k)]
    else s[i]
  }

  ghost predicate Lifted<K, V>(s: seq<Entry<K, V>>, i: nat, r: seq<Entry<K, V>>, rank: K -> int) {
    i < |s| == |r| && forall k :: 0 <= k < |s| ==> r[k] == LiftedAt(s, i, k, rank)
  }

  /** In an ordered table an ancestor is not greater. */
  lemma {:induction false} AncestorNotGreater<K, V>(s: seq<Entry<K, V>>, k: nat, i: nat, rank: K -> int)
    requires i < |s| && Ordered(s, rank) && OnPath(k, i)
    ensures k < |s| && rank(s[k].key) <= rank(s[i].key)
    decreases i
  {
    if k != i {
      AncestorNotGreater(s, k, Parent(i), rank);
    }
  }

  lemma LiftStops<K, V>(s: seq<Entry<K, V>>, i: nat, rank: K -> int)
    requires i < |s| && Ordered(s, rank)
    ensures Lifted(s, i, s, rank)
  {
    forall k | 0 <= k < |s| ensures s[k] == LiftedAt(s, i, k, rank) {
      if OnPath(k, i) { AncestorNotGreater(s, k, i, rank); }
    }
  }

  lemma LiftGoesOn<K, V>(s: seq<Entry<K, V>>, i: nat, k: nat, rank: K -> int)
    requires 0 < i < |s| && k < |s| && rank(s[Parent(i)].key) > rank(s[i].key)
    ensures LiftedAt(Swap(s, i, Parent(i)), Parent(i), k, rank) == LiftedAt(s, i, k, rank)
  {
    var p := Parent(i);
    if OnPath(k, p) { PathGoesUp(k, p); }
    assert k == i ==> !OnPath(k, p);
    assert k != i ==> (OnPath(k, i) <==> OnPath(k, p));
  }

  lemma OrderedFromAbove<K, V>(s: seq<Entry<K, V>>, i: nat, rank: K -> int)
    requires OrderedAbove(s, i, rank) && (i > 0 ==> rank(s[Parent(i)].key) <= rank(s[i].key))
    ensures Ordered(s, rank)
  {}

  /** Sifting up leaves every entry where the closed form says. */
  lemma {:induction false} SiftUpPlaces<K(!new), V>(s: seq<Entry<K, V>>, i: nat, cmp: (K, K) -> int, rank: K -> int)
    requires Comparator(cmp, rank) && OrderedAbove(s, i, rank)
    ensures Lifted(s, i, SiftUp(s, i, cmp), rank)
    decreases i
  {
    if i > 0 && cmp(s[i].key, s[Parent(i)].key) < 0 {
      var p, t := Parent(i), Swap(s, i, Parent(i));
      OrderedAboveSwap(s, i, rank);
      SiftUpPlaces(t, p, cmp, rank);
      hide LiftedAt, SiftUp, OrderedAbove;
      forall k | 0 <= k < |s| ensures LiftedAt(t, p, k, rank) == LiftedAt(s, i, k, rank) {
        LiftGoesOn(s, i, k, rank);
      }
      assert SiftUp(s, i, cmp) == SiftUp(t, p, cmp) by { SiftUpStep(s, i, cmp); }
    } else {
      OrderedFromAbove(s, i, rank);
      LiftStops(s, i, rank);
    }
  }

  lemma SiftUpStep<K, V>(s: seq<Entry<K, V>>, i: nat, cmp: (K, K) -> int)
    requires 0 < i < |s| && cmp(s[i].key, s[Parent(i)].key) < 0
    ensures SiftUp(s, i, cmp) == SiftUp(Swap(s, i, Parent(i)), Parent(i), cmp)
  {}

  // ----- down -----

  /** The child that may rise: the left one unless the right one is strictly smaller. */
  ghost function Riser<K, V>(s: seq<Entry<K, V>>, k: nat, rank: K -> int): (c: nat)
    requires 2 * k + 1 < |s|
    ensures k < c < |s| && Parent(c) == k
  {
    if 2 * k + 2 < |s| && rank(s[2 * k + 2].key) < rank(s[2 * k + 1].key) then 2 * k + 2 else 2 * k + 1
  }

  /** k is reached from i by going to the child that may rise, again and again. */
  ghost predicate Reached<K, V>(s: seq<Entry<K, V>>, i: nat, k: nat, rank: K -> int)
    requires k < |s|
    decreases k
  {
    k == i || (k > i && Riser(s, Parent(k), rank) == k && Reached(s, i, Parent(k), rank))
  }

  /** What stands at k once the entry at i has sunk: entries on that path move up one place exactly if
      they are smaller than it, and nothing else moves. */
  ghost function SunkAt<K, V>(s: seq<Entry<K, V>>, i: nat, k: nat, rank: K -> int): Entry<K, V>
    requires i < |s| && k < |s|
  {
    if !Reached(s, i, k, rank) || (k != i && rank(s[k].key) >= rank(s[i].key)) then s[k]
    else if 2 * k + 1 < |s| && rank(s[Riser(s, k, rank)].key) < rank(s[i].key) then s[Riser(s, k, rank)]
    else s[i]
  }

  ghost predicate Sunk<K, V>(s: seq<Entry<K, V>>, i: nat, r: seq<Entry<K, V>>, rank: K -> int) {
    i < |s| == |r| && forall k :: 0 <= k < |s| ==> r[k] == SunkAt(s, i, k, rank)
  }

  lemma ChildRises<K(!new), V>(s: seq<Entry<K, V>>, i: nat, cmp: (K, K) -> int, rank: K -> int)
    requires Comparator(cmp, rank) && 2 * i + 1 < |s|
    ensures Child(s, i, cmp) == Riser(s, i, rank)
  {}

  /** Below an entry with no smaller child nothing on the path is smaller. */
  lemma {:induction false} PathNotSmaller<K, V>(s: seq<Entry<K, V>>, i: nat, k: nat, rank: K -> int)
    requires i < |s| && k < |s| && OrderedBelow(s, i, rank) && Reached(s, i, k, rank)
    requires 2 * i + 1 < |s| ==> rank(s[i].key) <= rank(s[Riser(s, i, rank)].key)
    ensures rank(s[i].key) <= rank(s[k].key)
    decreases k
  {
    if k != i {
      PathNotSmaller(s, i, Parent(k), rank);
      assert Parent(k) == i || rank(s[Parent(k)].key) <= rank(s[k].key);
    }
  }

  lemma SinkStops<K, V>(s: seq<Entry<K, V>>, i: nat, rank: K -> int)
    requires OrderedBelow(s, i, rank)
    requires 2 * i + 1 < |s| ==> rank(s[i].key) <= rank(s[Riser(s, i, rank)].key)
    ensures Sunk(s, i, s, rank)
  {
    forall k | 0 <= k < |s| ensures s[k] == SunkAt(s, i, k, rank) {
      if Reached(s, i, k, rank) { PathNotSmaller(s, i, k, rank); }
    }
  }

  /** A path from i runs through the child of i that may rise, and is not changed by the swap. */
  lemma {:induction false} PathGoesOn<K, V>(s: seq<Entry<K, V>>, i: nat, m: nat, k: nat, rank: K -> int)
    requires 2 * i + 1 < |s| && m == Riser(s, i, rank) && k < |s| && k != i
    ensures Reached(s, i, k, rank) <==> Reached(Swap(s, i, m), m, k, rank)
    decreases k
  {
    if k > i && k != m && Parent(k) != i {
      PathGoesOn(s, i, m, Parent(k), rank);
      if Parent(k) >= m { RiserStays(s, i, m, Parent(k), rank); }
    }
    if k > m && Parent(k) < m { NotReached(Swap(s, i, m), m, Parent(k), rank); }
    if k > i && Parent(k) < i { NotReached(s, i, Parent(k), rank); }
  }

  lemma NotReached<K, V>(s: seq<Entry<K, V>>, i: nat, k: nat, rank: K -> int)
    requires k < |s| && k < i
    ensures !Reached(s, i, k, rank)
  {}

  lemma RiserStays<K, V>(s: seq<Entry<K, V>>, i: nat, m: nat, j: nat, rank: K -> int)
    requires 2 * i + 1 < |s| && m == Riser(s, i, rank) && 2 * j + 1 < |s| && j >= m
    ensures Riser(Swap(s, i, m), j, rank) == Riser(s, j, rank)
  {}

  lemma SinkGoesOn<K, V>(s: seq<Entry<K, V>>, i: nat, m: nat, k: nat, rank: K -> int)
    requires 2 * i + 1 < |s| && m == Riser(s, i, rank) && k < |s| && rank(s[m].key) < rank(s[i].key)
    ensures SunkAt(Swap(s, i, m), m, k, rank) == SunkAt(s, i, k, rank)
  {
    var t := Swap(s, i, m);
    if k == i {
      NotReached(t, m, k, rank);
    } else {
      PathGoesOn(s, i, m, k, rank);
      if Reached(t, m, k, rank) {
        if k < m { NotReached(t, m, k, rank); }
        if 2 * k + 1 < |s| { RiserStays(s, i, m, k, rank); }
      }
    }
  }

  lemma SiftDownStep<K, V>(s: seq<Entry<K, V>>, i: nat, cmp: (K, K) -> int)
    requires 2 * i + 1 < |s| && cmp(s[i].key, s[Child(s, i, cmp)].key) == 1
    ensures SiftDown(s, i, cmp) == SiftDown(Swap(s, i, Child(s, i, cmp)), Child(s, i, cmp), cmp)
  {}

  /** Sifting down leaves every entry where the closed form says. */
  lemma {:induction false} SiftDownPlaces<K(!new), V>(s: seq<Entry<K, V>>, i: nat, cmp: (K, K) -> int, rank: K -> int)
    requires Comparator(cmp, rank) && OrderedBelow(s, i, rank)
    ensures Sunk(s, i, SiftDown(s, i, cmp), rank)
    decreases |s| - i
  {
    if 2 * i + 1 < |s| { ChildRises(s, i, cmp, rank); }
    if 2 * i + 1 < |s| && cmp(s[i].key, s[Child(s, i, cmp)].key) == 1 {
      var m, t := Child(s, i, cmp), Swap(s, i, Child(s, i, cmp));
      assert rank(s[m].key) < rank(s[i].key);
      OrderedBelowSwap(s, i, cmp, rank);
      SiftDownStep(s, i, cmp);
      SiftDownPlaces(t, m, cmp, rank);
      hide SunkAt, SiftDown, OrderedBelow, Riser;
      forall k | 0 <= k < |s| ensures SunkAt(t, m, k, rank) == SunkAt(s, i, k, rank) {
        SinkGoesOn(s, i, m, k, rank);
      }
    } else {
      SinkStops(s, i, rank);
    }
  }

  // ----- what insert and delmin leave -----

  /** `after` is `before` with e added at the end and lifted. */
  ghost predicate AddedTo<K, V>(before: seq<Entry<K, V>>, e: Entry<K, V>, after: seq<Entry<K, V>>, rank: K -> int) {
    Lifted(before + [e], |before|, after, rank)
  }

  /** `after` is `before` with the last entry in the root's place, and sunk. */
  ghost predicate RootTakenFrom<K, V>(before: seq<Entry<K, V>>, after: seq<Entry<K, V>>, rank: K -> int)
    requires before != []
  {
    if |before| == 1 then after == []
    else Sunk([before[|before| - 1]] + before[1..|before| - 1], 0, after, rank)
  }

  lemma InsertPlaces<K(!new), V>(s: seq<Entry<K, V>>, e: Entry<K, V>, cmp: (K, K) -> int, rank: K -> int)
    requires Comparator(cmp, rank) && Ordered(s, rank)
    ensures AddedTo(s, e, Inserted(s, e, cmp), rank)
  {
    SiftUpPlaces(s + [e], |s|, cmp, rank);
  }

  lemma RemovePlaces<K(!new), V>(s: seq<Entry<K, V>>, cmp: (K, K) -> int, rank: K -> int)
    requires Comparator(cmp, rank) && Ordered(s, rank) && s != []
    ensures RootTakenFrom(s, Removed(s, cmp), rank)
  {
    var n := |s| - 1;
    if n > 0 {
      hide Sunk, SiftDown, Ordered, OrderedBelow, Comparator;
      var t := [s[n]] + s[1..n];
      assert t == s[0 := s[n]][..n];
      LastAtRoot(s, t, rank);
      SiftDownPlaces(t, 0, cmp, rank);
    }
  }

  lemma LastAtRoot<K, V>(s: seq<Entry<K, V>>, t: seq<Entry<K, V>>, rank: K -> int)
    requires Ordered(s, rank) && |s| > 1 && t == [s[|s| - 1]] + s[1..|s| - 1]
    ensures OrderedBelow(t, 0, rank)
  {
    forall j | 0 < j < |t| && Parent(j) != 0 ensures rank(t[Parent(j)].key) <= rank(t[j].key) {
      assert rank(s[Parent(j)].key) <= rank(s[j].key);
    }
  }

  /** An insertion moves no entry whose key is at most the new key: the root stays on a tie. */
  lemma InsertMovesOnlyGreater<K, V>(s: seq<Entry<K, V>>, e: Entry<K, V>, r: seq<Entry<K, V>>, rank: K -> int, k: nat)
    requires AddedTo(s, e, r, rank) && k < |s| && rank(s[k].key) <= rank(e.key)
    ensures r[k] == s[k]
  {
    assert r[k] == LiftedAt(s + [e], |s|, k, rank);
  }

  /** An entry greater than the new one, on the path above its place, makes room by one place. */
  lemma InsertMovesEachGreater<K, V>(s: seq<Entry<K, V>>, e: Entry<K, V>, r: seq<Entry<K, V>>, rank: K -> int, j: nat)
    requires AddedTo(s, e, r, rank) && 0 < j <= |s| && OnPath(j, |s|)
    requires rank(s[Parent(j)].key) > rank(e.key)
    requires j < |s| ==> rank(s[j].key) > rank(e.key)
    ensures r[j] == s[Parent(j)]
  {
    assert r[j] == LiftedAt(s + [e], |s|, j, rank);
  }

  /** When the root's place is refilled and its two children have the same key, below that of the
      last entry, the left one rises to the root. */
  lemma LeftRisesOnTie<K, V>(s: seq<Entry<K, V>>, r: seq<Entry<K, V>>, rank: K -> int)
    requires |s| > 3 && RootTakenFrom(s, r, rank)
    requires rank(s[1].key) == rank(s[2].key) < rank(s[|s| - 1].key)
    ensures r[0] == s[1] && r[2] == s[2]
  {
    var t := [s[|s| - 1]] + s[1..|s| - 1];
    assert r[0] == SunkAt(t, 0, 0, rank) && r[2] == SunkAt(t, 0, 2, rank);
  }

  /** A last entry that is not greater than the root's children stays at the root. */
  lemma TieStaysAtRoot<K, V>(s: seq<Entry<K, V>>, r: seq<Entry<K, V>>, rank: K -> int)
    requires |s| > 1 && RootTakenFrom(s, r, rank)
    requires forall k :: 1 <= k < |s| - 1 && k <= 2 ==> rank(s[|s| - 1].key) <= rank(s[k].key)
    ensures r[0] == s[|s| - 1]
  {
    var t := [s[|s| - 1]] + s[1..|s| - 1];
    assert r[0] == SunkAt(t, 0, 0, rank);
  }
}
