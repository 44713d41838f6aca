/** The array min-heap: a table of pages updated in place. */
module Heap {
  import opened HeapOrder
  import opened HeapPlaces
  import opened HeapPages

  class MinHeap<K(!new,0), V(0)> {
    const cmp: (K, K) -> int
    ghost const rank: K -> int
    const entriesPerPage: nat
    var activeEntries: nat
    var minimumPages: nat
    var mappedPages: nat
    var table: array<Entry<K, V>>

    /** The live entries. */
    ghost function Contents(): seq<Entry<K, V>>
      reads this, table
      requires activeEntries <= table.Length
    {
      table[..activeEntries]
    }

    ghost function Memory(): Pages
      reads this
    {
      Pages(activeEntries, mappedPages, minimumPages)
    }

    ghost predicate Valid()
      reads this, table
    {
      && 1 <= entriesPerPage
      && Comparator(cmp, rank)
      && activeEntries <= table.Length == mappedPages * entriesPerPage
      && Bounded(Memory(), entriesPerPage)
      && Ordered(Contents(), rank)
    }

    constructor (initialSize: int, entriesPerPage: nat, cmp: (K, K) -> int, ghost rank: K -> int)
      requires 1 <= entriesPerPage && Comparator(cmp, rank)
      ensures Valid() && fresh(table)
      ensures this.cmp == cmp && this.rank == rank && this.entriesPerPage == entriesPerPage
      ensures Contents() == [] && Memory() == Created(initialSize, entriesPerPage)
    {
      this.cmp := cmp;
      this.rank := rank;
      this.entriesPerPage := entriesPerPage;
      var size := if initialSize <= 0 then entriesPerPage else initialSize;
      var pages := size / entriesPerPage + if size % entriesPerPage > 0 then 1 else 0;
      activeEntries := 0;
      mappedPages := pages;
      minimumPages := pages;
      table := new Entry<K, V>[pages * entriesPerPage];
      CreatedIsBounded(initialSize, entriesPerPage);
    }

    method Size() returns (n: nat)
      requires Valid()
      ensures n == |Contents()|
    {
      n := activeEntries;
    }

    /** The root, which has a least key; false on an empty heap. */
    method Min() returns (ok: bool, key: K, value: V)
      requires Valid()
      ensures ok <==> Contents() != []
      ensures ok ==>
        && Entry(key, value) == Contents()[0]
        && forall e :: e in multiset(Contents()) ==> rank(key) <= rank(e.key)
    {
      ok := activeEntries != 0;
      key, value := *, *;
      if ok {
        key, value := table[0].key, table[0].value;
        RemoveIsRight(Contents(), cmp, rank);
      }
    }

    /** Switch to a table of the given size that keeps the first `kept` entries. */
    method Remap(pages: nat, kept: nat)
      requires 1 <= entriesPerPage && kept <= table.Length && kept <= pages * entriesPerPage
      requires activeEntries <= kept
      modifies this`table, this`mappedPages
      ensures fresh(table) && table.Length == pages * entriesPerPage && mappedPages == pages
      ensures table[..activeEntries] == old(table[..activeEntries])
    {
      var newTable := new Entry<K, V>[pages * entriesPerPage];
      forall i | 0 <= i < kept {
        newTable[i] := table[i];
      }
      table := newTable;
      mappedPages := pages;
    }

    /** Double the table if it is full. */
    method MakeRoom()
      requires 1 <= entriesPerPage && 1 <= mappedPages && table.Length == mappedPages * entriesPerPage
      requires activeEntries <= table.Length
      modifies this`table, this`mappedPages
      ensures table == old(table) || fresh(table)
      ensures table.Length == mappedPages * entriesPerPage && activeEntries < table.Length
      ensures mappedPages == (if Grows(old(Memory()), InsertOp, entriesPerPage) then old(mappedPages) * 2 else old(mappedPages))
      ensures table[..activeEntries] == old(table[..activeEntries])
    {
      if activeEntries + 1 > mappedPages * entriesPerPage {
        assert (mappedPages * 2) * entriesPerPage == mappedPages * entriesPerPage + mappedPages * entriesPerPage;
        MulMonotone(1, mappedPages, entriesPerPage);
        Remap(mappedPages * 2, mappedPages * entriesPerPage);
      }
    }

    /** Move a hole up from the end until its parent is not greater, and fill it. */
    method FillHole(key: K, value: V)
      requires activeEntries < table.Length
      modifies table
      ensures table[..activeEntries + 1] == Inserted(old(table[..activeEntries]), Entry(key, value), cmp)
      ensures Comparator(cmp, rank) && Ordered(old(table[..activeEntries]), rank) ==>
        AddedTo(old(table[..activeEntries]), Entry(key, value), table[..activeEntries + 1], rank)
    {
      var current := activeEntries;
      ghost var was, e := table[..activeEntries], Entry(key, value);
      ghost var virtual := was + [e];
      while current > 0
        invariant 0 <= current <= activeEntries
        invariant |virtual| == activeEntries + 1 && virtual[current] == e
        invariant forall i :: 0 <= i <= activeEntries && i != current ==> table[i] == virtual[i]
        invariant SiftUp(virtual, current, cmp) == Inserted(was, e, cmp)
      {
        var parent := (current - 1) / 2;
        if cmp(key, table[parent].key) < 0 {
          table[current] := table[parent];
          virtual := Swap(virtual, current, parent);
          current := parent;
        } else {
          break;
        }
      }
      table[current] := Entry(key, value);
      assert table[..activeEntries + 1] == virtual;
      if Comparator(cmp, rank) && Ordered(was, rank) {
        InsertPlaces(was, e, cmp, rank);
      }
    }

    /** Add one entry. */
    method Insert(key: K, value: V)
      requires Valid()
      modifies this, table
      ensures Valid() && (table == old(table) || fresh(table))
      ensures Contents() == Inserted(old(Contents()), Entry(key, value), cmp)
      ensures AddedTo(old(Contents()), Entry(key, value), Contents(), rank)
      ensures multiset(Contents()) == old(multiset(Contents())) + multiset{Entry(key, value)}
      ensures Memory() == After(old(Memory()), InsertOp, entriesPerPage)
    {
      InsertIsRight(Contents(), Entry(key, value), cmp, rank);
      InsertPlaces(Contents(), Entry(key, value), cmp, rank);
      InsertBounded(Memory(), entriesPerPage);
      AddEntry(key, value);
    }

    method AddEntry(key: K, value: V)
      requires 1 <= entriesPerPage && 1 <= mappedPages && table.Length == mappedPages * entriesPerPage
      requires activeEntries <= table.Length
      modifies this`activeEntries, this`table, this`mappedPages, table
      ensures table == old(table) || fresh(table)
      ensures table.Length == mappedPages * entriesPerPage && activeEntries <= table.Length
      ensures Contents() == Inserted(old(Contents()), Entry(key, value), cmp)
      ensures Memory() == After(old(Memory()), InsertOp, entriesPerPage)
    {
      MakeRoom();
      FillHole(key, value);
      activeEntries := activeEntries + 1;
    }

    /** Halve the table if it has more than one page to spare. */
    method GiveBack()
      requires 1 <= entriesPerPage && table.Length == mappedPages * entriesPerPage
      requires activeEntries <= table.Length
      modifies this`table, this`mappedPages
      ensures table == old(table) || fresh(table)
      ensures table.Length == mappedPages * entriesPerPage && activeEntries <= table.Length
      ensures mappedPages ==
        if Shrinks(Pages(activeEntries + 1, old(mappedPages), minimumPages), DelMinOp, entriesPerPage)
        then old(mappedPages) / 2 else old(mappedPages)
      ensures table[..activeEntries] == old(table[..activeEntries])
    {
      var usedPages := activeEntries / entriesPerPage + if activeEntries % entriesPerPage > 0 then 1 else 0;
      if mappedPages / 2 > usedPages + 1 && mappedPages / 2 >= minimumPages {
        UsedIsCeiling(activeEntries, entriesPerPage, usedPages);
        MulMonotone(usedPages, mappedPages / 2, entriesPerPage);
        MulMonotone(mappedPages / 2, mappedPages, entriesPerPage);
        Remap(mappedPages / 2, usedPages * entriesPerPage);
      }
    }

    /** Take out the root: the last entry sinks from the root, then the table may halve. */
    method DeleteMin() returns (ok: bool, key: K, value: V)
      requires Valid()
      modifies this, table
      ensures Valid() && (table == old(table) || fresh(table))
      ensures ok <==> old(Contents()) != []
      ensures !ok ==> Contents() == old(Contents())
      ensures ok ==>
        && Entry(key, value) == old(Contents())[0]
        && activeEntries == old(activeEntries) - 1
        && Contents() == Removed(old(Contents()), cmp)
        && RootTakenFrom(old(Contents()), Contents(), rank)
        && TookLeast(old(multiset(Contents())), multiset(Contents()), Entry(key, value), rank)
      ensures Memory() == After(old(Memory()), DelMinOp, entriesPerPage)
    {
      key, value := *, *;
      ok := activeEntries != 0;
      if ok {
        ghost var was, mem := Contents(), Memory();
        RemoveIsRight(was, cmp, rank);
        RemovePlaces(was, cmp, rank);
        DelMinBounded(mem, entriesPerPage);
        key, value := TakeRoot();
      }
    }

    method TakeRoot() returns (key: K, value: V)
      requires 1 <= entriesPerPage && table.Length == mappedPages * entriesPerPage
      requires 0 < activeEntries <= table.Length
      modifies this`activeEntries, this`table, this`mappedPages, table
      ensures table == old(table) || fresh(table)
      ensures table.Length == mappedPages * entriesPerPage && activeEntries <= table.Length
      ensures Entry(key, value) == old(table[0])
      ensures Contents() == Removed(old(Contents()), cmp)
      ensures Memory() == After(old(Memory()), DelMinOp, entriesPerPage)
    {
      key, value := PopRoot();
      GiveBack();
    }

    method PopRoot() returns (key: K, value: V)
      requires 0 < activeEntries <= table.Length
      modifies this`activeEntries, table
      ensures activeEntries == old(activeEntries) - 1
      ensures Entry(key, value) == old(table[0])
      ensures table[..activeEntries] == Removed(old(table[..activeEntries]), cmp)
    {
      ghost var was := table[..activeEntries];
      key, value := table[0].key, table[0].value;
      activeEntries := activeEntries - 1;
      if activeEntries > 0 {
        table[0] := table[activeEntries];
        assert table[..activeEntries] == was[0 := was[|was| - 1]][..|was| - 1];
        SinkRoot();
      }
    }

    /** Swap the root with its smaller child, and so on, until no child is smaller. */
    method SinkRoot()
      requires 0 < activeEntries <= table.Length
      modifies table
      ensures table[..activeEntries] == SiftDown(old(table[..activeEntries]), 0, cmp)
      ensures Comparator(cmp, rank) && OrderedBelow(old(table[..activeEntries]), 0, rank) ==>
        Sunk(old(table[..activeEntries]), 0, table[..activeEntries], rank)
    {
      ghost var was := table[..activeEntries];
      var entries, current := activeEntries, 0;
      ghost var goal := SiftDown(table[..entries], 0, cmp);
      while 2 * current + 1 < entries
        invariant current < entries <= table.Length
        invariant SiftDown(table[..entries], current, cmp) == goal
        decreases entries - current
      {
        ghost var before := table[..entries];
        var left := 2 * current + 1;
        var child := left;
        if left + 1 < entries {
          if cmp(table[left].key, table[left + 1].key) > 0 {
            child := left + 1;
          }
        }
        assert child == Child(before, current, cmp);
        if cmp(table[current].key, table[child].key) == 1 {
          table[current], table[child] := table[child], table[current];
          assert table[..entries] == Swap(before, current, child);
          current := child;
        } else {
          break;
        }
      }
      if Comparator(cmp, rank) && OrderedBelow(was, 0, rank) {
        SiftDownPlaces(was, 0, cmp, rank);
      }
    }

    /** Empty the heap: its entries come out as a permutation in ascending key order. */
    method Drain() returns (out: seq<Entry<K, V>>)
      requires Valid()
      modifies this, table
      ensures Valid() && (table == old(table) || fresh(table)) && Contents() == []
      ensures multiset(out) == old(multiset(Contents()))
      ensures Ascending(out, rank)
    {
      out := [];
      ghost var all := multiset(Contents());
      while true
        invariant Valid() && (table == old(table) || fresh(table))
        invariant all == multiset(out) + multiset(Contents())
        invariant Ascending(out, rank) && AllBelow(out, multiset(Contents()), rank)
        decreases activeEntries
      {
        ghost var here := multiset(Contents());
        var ok, key, value := DeleteMin();
        if !ok { break; }
        AscendingStep(out, here, multiset(Contents()), Entry(key, value), rank);
        out := out + [Entry(key, value)];
      }
    }
  }
}
