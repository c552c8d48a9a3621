/** Emptying a handle base and giving memory back. */
module HandlePurge {
  import opened Forests
  import opened HandleState
  import opened HandleInvariant
  import opened HandleFree
  import opened HandleGrow
  import opened HandleAlloc
  import opened HandleContents
  import opened HandleShrink
  import opened HandleConfig
  import opened HandleResize

  ghost predicate EmptyBelow(v: View, i: nat) {
    forall j :: 0 <= j < |v.slots| && j < i ==> v.slots[j].typ == NO_TYPE
  }

  lemma NothingBelow(v: View)
    ensures EmptyBelow(v, 0)
  {
  }

  lemma EmptyMore(v: View, i: nat)
    requires EmptyBelow(v, i) && i < |v.slots| && v.slots[i].typ == NO_TYPE
    ensures EmptyBelow(v, i + 1)
  {
  }

  lemma EmptyStays(s: View, t: View, i: nat)
    requires EmptyBelow(s, i) && WellFormed(s.f) && i < |s.slots| == |s.f.kids|
    requires Gone(s, t, Elems(PostOrder(s.f, i)), PostOrder(s.f, i))
    ensures EmptyBelow(t, i) && |t.slots| == |s.slots| && t.slots[i].typ == NO_TYPE && t.batchQ == s.batchQ
  {
    hide WellFormed;
    PostOrderIsSubtree(s.f, i, i);
    assert Descends(s.f, i, i);
    hide PostOrder, Descends;
    forall j | 0 <= j < |s.slots|
      ensures SlotAfter(s.slots[j], t.slots[j], j in PostOrder(s.f, i))
    {
    }
  }

  lemma EmptyIsFree(v: View)
    requires Inv(v, {}, {}) && v.batchQ == [] && EmptyBelow(v, |v.slots|)
    ensures AllFreeFrom(v, 0)
  {
    hide Linked, Indexed, FreeList, Counted, WellFormed;
    forall j | 0 <= j < |v.slots|
      ensures j in v.freeQ
    {
      assert SlotOwned(v, {}, j) by { assert v.slots[j] == v.slots[j]; }
    }
  }

  lemma {:induction false} DistinctSize(q: seq<nat>)
    requires Distinct(q)
    ensures |Elems(q)| == |q|
  {
    if q == [] {
      assert Elems(q) == {};
    } else {
      var r := q[..|q| - 1];
      DistinctSize(r);
      assert q == r + [q[|q| - 1]];
      assert Elems(q) == Elems(r) + {q[|q| - 1]};
    }
  }

  /** When the free count is the total, every slot is free. */
  lemma CountedFree(v: View)
    requires Inv(v, {}, {}) && v.freeCount == |v.slots|
    ensures AllFreeFrom(v, 0)
  {
    hide Linked, Indexed, FreeList, Counted, WellFormed, BatchChain;
    DistinctSize(v.freeQ);
    SubsetSameSize(Elems(v.freeQ), Interval(0, |v.slots|));
    forall j | 0 <= j < |v.slots|
      ensures j in v.freeQ
    {
      assert j in Interval(0, |v.slots|);
    }
  }

  lemma BatchMeansNoPurging(v: View, c: Settings, held: int)
    requires OuterOf(v, c, held)
    ensures v.purging ==> c.batchSize == 0
  {
  }

  lemma NoBatchLeft(v: View, c: Settings, held: int)
    requires OuterOf(v, c, held) && c.batchSize == 0
    ensures v.batchQ == [] && held == |v.blockFree| && (v.purging ==> v.firstFree == 0)
  {
  }

  lemma AllGone(s: View, t: View, e: Error, added: seq<Slot>, heap: Heap)
    requires Inv(s, {}, {}) && s.batchQ == [] && AllFreeFrom(s, 0) && Resized(s, t, e, 0, added, heap)
    ensures e == Ok && t.slots == [] && t.blockFree == [] && t.index == map[]
  {
    hide WellFormed;
    ShrinkSizes(s, 0);
    ShrinkIndexed(s, 0);
    if s.slots == [] {
      assert s.slots[..0] == s.slots;
    }
    assert forall k :: k in s.index ==> EntryHeld(s.slots[..0], s.index, {}, k);
  }

  lemma BlockCount(v: View)
    requires Inv(v, {}, {})
    ensures |v.blockFree| * BLOCK_SIZE == |v.slots| && |v.slots| / BLOCK_SIZE == |v.blockFree|
    ensures |v.f.kids| == |v.f.up| == |v.f.born| == |v.slots|
  {
  }

  lemma CountOfFull(q: seq<nat>, b: nat)
    requires Distinct(q) && forall x :: b * BLOCK_SIZE <= x < (b + 1) * BLOCK_SIZE ==> x in q
    ensures CountIn(q, b) == BLOCK_SIZE
  {
    CountIsSize(q, b);
    var all := Interval(b * BLOCK_SIZE, (b + 1) * BLOCK_SIZE);
    forall x: nat
      ensures x in InBlockSet(q, b) <==> x in all
    {
      InBlock(x, b, b * BLOCK_SIZE);
    }
    assert InBlockSet(q, b) == all;
  }

  /** A block that is not counted as free holds a slot that is not. */
  lemma SlotInUse(q: seq<nat>, b: nat) returns (j: nat)
    requires Distinct(q) && CountIn(q, b) != BLOCK_SIZE
    ensures b * BLOCK_SIZE <= j < (b + 1) * BLOCK_SIZE && j !in q
  {
    if forall x :: b * BLOCK_SIZE <= x < (b + 1) * BLOCK_SIZE ==> x in q {
      CountOfFull(q, b);
    }
    j :| b * BLOCK_SIZE <= j < (b + 1) * BLOCK_SIZE && j !in q;
  }

  /** Blocks whose free count is the block size hold free slots only. */
  lemma FreeBlocksAtEnd(v: View, block: nat)
    requires Inv(v, {}, {}) && block <= |v.blockFree|
    requires forall b :: block <= b < |v.blockFree| ==> v.blockFree[b] == BLOCK_SIZE
    requires block != 0 ==> v.blockFree[block - 1] != BLOCK_SIZE
    ensures LastUsed(v, block) && AllFreeFrom(v, block * BLOCK_SIZE)
  {
    hide Linked, Indexed, FreeList, WellFormed, BatchChain, CountIn;
    if block != 0 {
      var j := SlotInUse(v.freeQ, block - 1);
    }
    forall j | block * BLOCK_SIZE <= j < |v.slots|
      ensures j in v.freeQ
    {
      var b := j / BLOCK_SIZE;
      InBlock(j, b, b * BLOCK_SIZE);
      FullBlock(v.freeQ, b);
    }
  }

  /** t is s without the free blocks at the end, when they make up at least half of it. */
  ghost predicate Purged(s: View, t: View) {
    && Sized(s) && Sized(t) && |t.slots| <= |s.slots| && |t.slots| % BLOCK_SIZE == 0
    && Handles(t) == Handles(s) && t.index == s.index
    && AllFreeFrom(s, |t.slots|)
    && s.freeCount - t.freeCount == |s.slots| - |t.slots|
    && t.freeQ == Without(s.freeQ, Interval(|t.slots|, |s.slots|))
    && (|t.slots| != |s.slots| ==> |t.slots| <= |s.slots| / 2)
    && (exists block :: 0 <= block <= |s.blockFree| && LastUsed(s, block)
          && |t.slots| == if block * BLOCK_SIZE <= |s.slots| / 2 then block * BLOCK_SIZE else |s.slots|)
  }

  /** The slots from that block on are free, and the block before it holds one that is not. */
  ghost predicate LastUsed(v: View, block: nat) {
    && AllFreeFrom(v, block * BLOCK_SIZE)
    && (block != 0 ==> exists j :: (block - 1) * BLOCK_SIZE <= j < block * BLOCK_SIZE && j !in v.freeQ)
  }

  lemma NothingPurged(s: View, block: nat)
    requires Inv(s, {}, {}) && block <= |s.blockFree| && LastUsed(s, block)
    requires block * BLOCK_SIZE > |s.slots| / 2 || block * BLOCK_SIZE == |s.slots|
    ensures Purged(s, s)
  {
    hide Linked, Indexed, FreeList, WellFormed, BatchChain, CountIn, LastUsed, Owned, Counted;
    assert Interval(|s.slots|, |s.slots|) == {};
    WithoutNone(s.freeQ, {});
    hide Handles, Inv;
    Sizes(s, {}, {});
    assert AllFreeFrom(s, |s.slots|);
  }

  lemma PurgeDone(s: View, t: View, e: Error, block: nat, added: seq<Slot>, heap: Heap, c: Settings, held: int)
    requires Inv(s, {}, {}) && block <= |s.blockFree| && LastUsed(s, block) && block * BLOCK_SIZE <= |s.slots| / 2
    requires AllFreeFrom(s, block * BLOCK_SIZE) && s.purging && s.batchQ == [] && OuterOf(s, c, |s.blockFree|)
    requires Resized(s, t, e, block * BLOCK_SIZE, added, heap)
    ensures e != Ok ==> t == s && e != NotSupported
    ensures e == Ok ==> Sized(t) && Inv(t, {}, {}) && OuterOf(t, c, |t.blockFree|) && Purged(s, t) && Handles(t) == Handles(s)
    ensures heap.index ==> e == Ok
  {
    hide Inv, LastUsed, Handles, Purged, OuterOf, Shrunk, AllFreeFrom, Resized, Shape;
    Sizes(s, {}, {});
    PurgeFits(s, t, e, block * BLOCK_SIZE, added, heap);
    if e == Ok && t != s {
      PurgedDown(s, t, block);
      PurgedOuter(s, block, c);
    } else if e == Ok {
      NothingPurged(s, block);
    }
  }

  /** A smaller size is refused only for lack of memory for the block table. */
  lemma PurgeFits(s: View, t: View, e: Error, n: nat, added: seq<Slot>, heap: Heap)
    requires Resized(s, t, e, n, added, heap) && Sized(s) && s.purging && n % BLOCK_SIZE == 0 && n <= |s.slots| / 2
    ensures e != Ok ==> t == s && e != NotSupported
    ensures heap.index ==> e == Ok
    ensures e == Ok && t != s ==> n / BLOCK_SIZE <= |s.blockFree| && |s.slots| - n <= s.freeCount && t == Shrunk(s, n)
    ensures e == Ok && t == s ==> n == |s.slots|
  {
    hide Shrunk, Grown, FreshBlocks;
  }

  lemma PurgedDown(s: View, t: View, block: nat)
    requires Inv(s, {}, {}) && block <= |s.blockFree| && LastUsed(s, block) && block * BLOCK_SIZE <= |s.slots| / 2
    requires AllFreeFrom(s, block * BLOCK_SIZE) && s.purging && s.batchQ == []
    requires var n := block * BLOCK_SIZE; n / BLOCK_SIZE <= |s.blockFree| && |s.slots| - n <= s.freeCount && Sized(s) && t == Shrunk(s, n)
    ensures Inv(t, {}, {}) && Sized(t) && Purged(s, t) && Handles(t) == Handles(s)
  {
    hide Inv, LastUsed, Handles;
    var n := block * BLOCK_SIZE;
    ShrinkKeeps(s, n);
    ShrinkHandles(s, n);
  }

  lemma PurgedOuter(s: View, block: nat, c: Settings)
    requires OuterOf(s, c, |s.blockFree|) && s.purging && s.batchQ == [] && block * BLOCK_SIZE <= |s.slots| && Sized(s)
    requires var n := block * BLOCK_SIZE; n / BLOCK_SIZE <= |s.blockFree| && |s.slots| - n <= s.freeCount
    ensures var t := Shrunk(s, block * BLOCK_SIZE); OuterOf(t, c, |t.blockFree|)
  {
    assert forall x: nat :: x !in s.batchQ;
  }

  lemma PurgingStarts(v: View, c: Settings, held: int)
    requires Inv(v, {}, {}) && OuterOf(v, c, held) && v.slots == []
    ensures Inv(v.(purging := true), {}, {}) && OuterOf(v.(purging := true), c.(purging := true), held)
  {
    hide WellFormed;
    assert v.freeQ == [] by {
      if v.freeQ != [] {
        FreeSlotFacts(v, 0);
      }
    }
  }
}
