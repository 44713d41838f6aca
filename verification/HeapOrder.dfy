/** The array heap on sequences: sifting entries up and down, and what it preserves. */
module HeapOrder {

  datatype Entry<+K, +V> = Entry(key: K, value: V)

  function Sign(d: int): int { if d < 0 then -1 else if d == 0 then 0 else 1 }

  /** A comparison function as the heap demands it: it returns exactly -1, 0 or 1, and orders the
      keys by some rank. */
  ghost predicate Comparator<K(!new)>(cmp: (K, K) -> int, rank: K -> int) {
    forall a, b {:trigger cmp(a, b)} :: cmp(a, b) == Sign(rank(a) - rank(b))
  }

  function Parent(i: nat): nat
    requires 0 < i
  {
    (i - 1) / 2
  }

  function Swap<T>(s: seq<T>, i: nat, j: nat): seq<T>
    requires i < |s| && j < |s|
  {
    s[i := s[j]][j := s[i]]
  }

  lemma SwapPermutes<T>(s: seq<T>, i: nat, j: nat)
    requires i < |s| && j < |s|
    ensures multiset(Swap(s, i, j)) == multiset(s)
  {}

  /** Swap an entry with its parent until the parent is not greater. */
  function SiftUp<K, V>(s: seq<Entry<K, V>>, i: nat, cmp: (K, K) -> int): (r: seq<Entry<K, V>>)
    requires i < |s|
    ensures |r| == |s|
    decreases i
  {
    if i > 0 && cmp(s[i].key, s[Parent(i)].key) < 0 then SiftUp(Swap(s, i, Parent(i)), Parent(i), cmp) else s
  }

  /** The child the entry at i is compared with: the left one unless the right one is smaller. */
  function Child<K, V>(s: seq<Entry<K, V>>, i: nat, cmp: (K, K) -> int): (m: nat)
    requires 2 * i + 1 < |s|
    ensures i < m < |s| && Parent(m) == i
  {
    var l := 2 * i + 1;
    if l + 1 < |s| && cmp(s[l].key, s[l + 1].key) > 0 then l + 1 else l
  }

  /** Swap an entry with its smaller child until no child is smaller. */
  function SiftDown<K, V>(s: seq<Entry<K, V>>, i: nat, cmp: (K, K) -> int): (r: seq<Entry<K, V>>)
    requires i < |s|
    ensures |r| == |s|
    decreases |s| - i
  {
    if 2 * i + 1 < |s| && cmp(s[i].key, s[Child(s, i, cmp)].key) == 1
    then SiftDown(Swap(s, i, Child(s, i, cmp)), Child(s, i, cmp), cmp)
    else s
  }

  /** The heap's contents after an insertion. */
  function Inserted<K, V>(s: seq<Entry<K, V>>, e: Entry<K, V>, cmp: (K, K) -> int): seq<Entry<K, V>> {
    SiftUp(s + [e], |s|, cmp)
  }

  /** The heap's contents after the root is removed: the last entry moves to the root and sinks. */
  function Removed<K, V>(s: seq<Entry<K, V>>, cmp: (K, K) -> int): seq<Entry<K, V>>
    requires s != []
  {
    if |s| == 1 then [] else SiftDown(s[0 := s[|s| - 1]][..|s| - 1], 0, cmp)
  }

  ghost predicate Ordered<K, V>(s: seq<Entry<K, V>>, rank: K -> int) {
    forall j :: 0 < j < |s| ==> rank(s[Parent(j)].key) <= rank(s[j].key)
  }

  /** Ordered except that the entry at i may be smaller than its parent. */
  ghost predicate OrderedAbove<K, V>(s: seq<Entry<K, V>>, i: nat, rank: K -> int) {
    && i < |s|
    && (forall j :: 0 < j < |s| && j != i ==> rank(s[Parent(j)].key) <= rank(s[j].key))
    && (forall j :: 0 < j < |s| && Parent(j) == i && i > 0 ==> rank(s[Parent(i)].key) <= rank(s[j].key))
  }

  /** Ordered except that the entry at i may be greater than its children. */
  ghost predicate OrderedBelow<K, V>(s: seq<Entry<K, V>>, i: nat, rank: K -> int) {
    && i < |s|
    && (forall j :: 0 < j < |s| && Parent(j) != i ==> rank(s[Parent(j)].key) <= rank(s[j].key))
    && (forall j :: 0 < j < |s| && Parent(j) == i && i > 0 ==> rank(s[Parent(i)].key) <= rank(s[j].key))
  }

  lemma {:induction false} SiftUpPermutes<K, V>(s: seq<Entry<K, V>>, i: nat, cmp: (K, K) -> int)
    requires i < |s|
    ensures multiset(SiftUp(s, i, cmp)) == multiset(s)
    decreases i
  {
    if i > 0 && cmp(s[i].key, s[Parent(i)].key) < 0 {
      SwapPermutes(s, i, Parent(i));
      SiftUpPermutes(Swap(s, i, Parent(i)), Parent(i), cmp);
    }
  }

  lemma OrderedAboveSwap<K, V>(s: seq<Entry<K, V>>, i: nat, rank: K -> int)
    requires OrderedAbove(s, i, rank) && i > 0 && rank(s[Parent(i)].key) > rank(s[i].key)
    ensures OrderedAbove(Swap(s, i, Parent(i)), Parent(i), rank)
  {
    var p, t := Parent(i), Swap(s, i, Parent(i));
    forall j | 0 < j < |t| && j != p ensures rank(t[Parent(j)].key) <= rank(t[j].key) {
      assert j == i || rank(s[Parent(j)].key) <= rank(s[j].key);
    }
    forall j | 0 < j < |t| && Parent(j) == p && p > 0 ensures rank(t[Parent(p)].key) <= rank(t[j].key) {
      assert rank(s[Parent(p)].key) <= rank(s[p].key);
      assert j == i || rank(s[p].key) <= rank(s[j].key);
    }
  }

  lemma {:induction false} SiftUpOrders<K(!new), V>(s: seq<Entry<K, V>>, i: nat, cmp: (K, K) -> int, rank: K -> int)
    requires Comparator(cmp, rank) && OrderedAbove(s, i, rank)
    ensures Ordered(SiftUp(s, i, cmp), rank)
    decreases i
  {
    if i > 0 && cmp(s[i].key, s[Parent(i)].key) < 0 {
      OrderedAboveSwap(s, i, rank);
      SiftUpOrders(Swap(s, i, Parent(i)), Parent(i), cmp, rank);
    }
  }

  lemma {:induction false} SiftDownPermutes<K, V>(s: seq<Entry<K, V>>, i: nat, cmp: (K, K) -> int)
    requires i < |s|
    ensures multiset(SiftDown(s, i, cmp)) == multiset(s)
    decreases |s| - i
  {
    if 2 * i + 1 < |s| && cmp(s[i].key, s[Child(s, i, cmp)].key) == 1 {
      SwapPermutes(s, i, Child(s, i, cmp));
      SiftDownPermutes(Swap(s, i, Child(s, i, cmp)), Child(s, i, cmp), cmp);
    }
  }

  lemma ChildIsLeast<K(!new), V>(s: seq<Entry<K, V>>, i: nat, cmp: (K, K) -> int, rank: K -> int, j: nat)
    requires Comparator(cmp, rank) && 0 < j < |s| && Parent(j) == i && 2 * i + 1 < |s|
    ensures rank(s[Child(s, i, cmp)].key) <= rank(s[j].key)
  {
    var l := 2 * i + 1;
    if l + 1 < |s| {
      assert cmp(s[l].key, s[l + 1].key) == Sign(rank(s[l].key) - rank(s[l + 1].key));
    }
  }

  lemma OrderedBelowSwap<K(!new), V>(s: seq<Entry<K, V>>, i: nat, cmp: (K, K) -> int, rank: K -> int)
    requires Comparator(cmp, rank) && OrderedBelow(s, i, rank)
    requires 2 * i + 1 < |s| && cmp(s[i].key, s[Child(s, i, cmp)].key) == 1
    ensures OrderedBelow(Swap(s, i, Child(s, i, cmp)), Child(s, i, cmp), rank)
  {
    var m, t := Child(s, i, cmp), Swap(s, i, Child(s, i, cmp));
    forall j | 0 < j < |s| && Parent(j) == i ensures rank(s[m].key) <= rank(s[j].key) {
      ChildIsLeast(s, i, cmp, rank, j);
    }
    forall j | 0 < j < |t| && Parent(j) != m ensures rank(t[Parent(j)].key) <= rank(t[j].key) {
      assert Parent(j) == i || rank(s[Parent(j)].key) <= rank(s[j].key);
    }
    forall j | 0 < j < |t| && Parent(j) == m ensures rank(t[Parent(m)].key) <= rank(t[j].key) {
      assert rank(s[Parent(j)].key) <= rank(s[j].key);
    }
  }

  lemma {:induction false} SiftDownOrders<K(!new), V>(s: seq<Entry<K, V>>, i: nat, cmp: (K, K) -> int, rank: K -> int)
    requires Comparator(cmp, rank) && OrderedBelow(s, i, rank)
    ensures Ordered(SiftDown(s, i, cmp), rank)
    decreases |s| - i
  {
    if 2 * i + 1 < |s| {
      var m := Child(s, i, cmp);
      if cmp(s[i].key, s[m].key) == 1 {
        OrderedBelowSwap(s, i, cmp, rank);
        SiftDownOrders(Swap(s, i, m), m, cmp, rank);
      } else {
        forall j | 0 < j < |s| && Parent(j) == i ensures rank(s[m].key) <= rank(s[j].key) {
          ChildIsLeast(s, i, cmp, rank, j);
        }
      }
    }
  }

  /** The root of a heap has a least key. */
  lemma {:induction false} RootIsLeast<K, V>(s: seq<Entry<K, V>>, rank: K -> int, j: nat)
    requires Ordered(s, rank) && j < |s|
    ensures rank(s[0].key) <= rank(s[j].key)
  {
    if j > 0 {
      RootIsLeast(s, rank, Parent(j));
    }
  }

  /** Insertion keeps the heap order and adds exactly one entry. */
  lemma InsertIsRight<K(!new), V>(s: seq<Entry<K, V>>, e: Entry<K, V>, cmp: (K, K) -> int, rank: K -> int)
    requires Comparator(cmp, rank) && Ordered(s, rank)
    ensures Ordered(Inserted(s, e, cmp), rank)
    ensures multiset(Inserted(s, e, cmp)) == multiset(s) + multiset{e}
  {
    SiftUpPermutes(s + [e], |s|, cmp);
    SiftUpOrders(s + [e], |s|, cmp, rank);
  }

  /** `after` is `before` without e, which has a least key. */
  ghost predicate TookLeast<K, V>(before: multiset<Entry<K, V>>, after: multiset<Entry<K, V>>, e: Entry<K, V>, rank: K -> int) {
    && e in before
    && after == before - multiset{e}
    && forall x :: x in before ==> rank(e.key) <= rank(x.key)
  }

  /** Removal takes out exactly the root, which has a least key, and keeps the heap order. */
  lemma RemoveIsRight<K(!new), V>(s: seq<Entry<K, V>>, cmp: (K, K) -> int, rank: K -> int)
    requires Comparator(cmp, rank) && Ordered(s, rank) && s != []
    ensures Ordered(Removed(s, cmp), rank)
    ensures TookLeast(multiset(s), multiset(Removed(s, cmp)), s[0], rank)
  {
    forall e | e in multiset(s) ensures rank(s[0].key) <= rank(e.key) {
      var j :| 0 <= j < |s| && s[j] == e;
      RootIsLeast(s, rank, j);
    }
    var n := |s| - 1;
    if n == 0 {
      assert s == [s[0]];
    } else {
      var t := s[0 := s[n]][..n];
      MovedLast(s);
      SiftDownPermutes(t, 0, cmp);
      SiftDownOrders(t, 0, cmp, rank);
    }
  }

  lemma MovedLast<T>(s: seq<T>)
    requires |s| > 1
    ensures multiset(s[0 := s[|s| - 1]][..|s| - 1]) == multiset(s) - multiset{s[0]}
  {
    var n := |s| - 1;
    assert s == [s[0]] + s[1..n] + [s[n]];
    assert s[0 := s[n]][..n] == [s[n]] + s[1..n];
  }

  // ----- draining -----

  ghost predicate Ascending<K, V>(s: seq<Entry<K, V>>, rank: K -> int) {
    forall i, j :: 0 <= i < j < |s| ==> rank(s[i].key) <= rank(s[j].key)
  }

  ghost predicate AllBelow<K, V>(s: seq<Entry<K, V>>, rest: multiset<Entry<K, V>>, rank: K -> int) {
    forall i, e :: 0 <= i < |s| && e in rest ==> rank(s[i].key) <= rank(e.key)
  }

  lemma AscendingStart<K, V>(rest: multiset<Entry<K, V>>, rank: K -> int)
    ensures Ascending<K, V>([], rank) && AllBelow<K, V>([], rest, rank)
  {}

  /** Appending a least entry of what is left keeps the output ascending and below the rest. */
  lemma AscendingStep<K, V>(out: seq<Entry<K, V>>, here: multiset<Entry<K, V>>, rest: multiset<Entry<K, V>>,
                            x: Entry<K, V>, rank: K -> int)
    requires Ascending(out, rank) && AllBelow(out, here, rank)
    requires TookLeast(here, rest, x, rank)
    ensures Ascending(out + [x], rank) && AllBelow(out + [x], rest, rank)
    ensures multiset(out + [x]) + rest == multiset(out) + here
  {
    forall i, e | 0 <= i < |out + [x]| && e in rest ensures rank((out + [x])[i].key) <= rank(e.key) {
      assert e in here;
    }
  }
}
