/** A run of src/services4/srvkm/common/handle.c in which growing the array loses free slots. */
module HandleFault {
  import opened HandleState
  import opened HandleInvariant
  import opened HandleGrow
  import opened HandleAlloc
  import opened HandleContents
  import opened HandleConfig
  import opened HandleResize
  import opened HandleShare
  import opened HandleBatch
  import opened HandleTable

  lemma FreshBase(v: View)
    requires v == EMPTY
    ensures GrowSafeFor(v, BLOCK_SIZE) && v.freeCount == 0 && |v.slots| == 0 && !v.purging
  {
  }

  /** From the empty base v through an empty batch s to t. */
  lemma OpenedTwice(v: View, s: View, t: View, c: Settings, held: int, added: seq<Slot>)
    requires v == EMPTY && Ensured(v, s, Ok, BLOCK_SIZE, added) && s.batchQ == []
    requires Inv(t, {}, {}) && OuterOf(t, c, held) && BatchEnded(s, t, true) && !t.purging
    ensures t.freeCount >= BLOCK_SIZE && !GrowSafe(t)
    ensures forall more :: FreshBlocks(more) ==> t.lastFreePlusOne <= |t.slots| && !ExactFreeList(Grown(t, more))
  {
    hide Inv, ExactFreeList, Handles;
    assert s.freeQ[0] == 0;
    FreeSlotFacts(t, 0);
    hide Grown;
    forall more | FreshBlocks(more)
      ensures t.lastFreePlusOne <= |t.slots| && !ExactFreeList(Grown(t, more))
    {
      GrowExactIff(t, more);
    }
  }

  /** A base opened for a batch of a whole block, with nothing allocated in it, has a free list
      that starts at slot 0: the next batch that is larger makes the array grow, and every way
      of growing it loses free slots. */
  method OpenTwice(heap: Heap, junk: nat -> Slot) returns (base: HandleBase)
    requires heap.index && forall b :: heap.block(b)
    ensures fresh(base) && base.Valid() && base.batchSize == 0 && base.freeCount >= BLOCK_SIZE
    ensures forall n :: n > base.freeCount ==> !GrowSafeFor(base.V(), n)
    ensures forall more :: FreshBlocks(more) ==>
              base.lastFreePlusOne <= |base.slots| && !ExactFreeList(Grown(base.V(), more))
  {
    hide Inv, OuterOf, Handles, Ensured, ExactFreeList, Grown, BatchEnded, FreshBlocks;
    base := new HandleBase();
    ghost var v := base.V();
    FreshBase(v);
    var e, added := base.NewHandleBatch(BLOCK_SIZE, heap, junk);
    ghost var s := base.V();
    e := base.EndHandleBatch(true);
    OpenedTwice(v, s, base.V(), base.Config(), base.heldBlocks, added);
  }

  const PLAIN: Flags := Flags(false, false, false)

  /** Only the new handle was there, and it belongs to the batch. */
  lemma NothingRemains(s: View, t: View, h: nat, n: Node)
    requires Sized(s) && Handles(s) == WithNode(map[], h, n) && n.batched && BatchEnded(s, t, false)
    ensures Sized(t) && Handles(t) == map[]
  {
    hide Handles;
    assert forall j :: j !in Handles(t);
  }

  /** A batch in which one handle was made and one allocation failed: the commit reports success,
      and the handle that was given out is gone. */
  method CommitAfterFailure(heap: Heap, junk: nat -> Slot) returns (base: HandleBase, h: nat, failed: Error, committed: Error)
    requires heap.index && forall b :: heap.block(b)
    ensures fresh(base) && base.Valid() && Sized(base.V())
    ensures h != 0 && failed != Ok && committed == Ok && base.Contents() == map[]
  {
    hide Inv, OuterOf, Handles, Ensured, BatchEnded, Allocated, Taking;
    base := new HandleBase();
    FreshBase(base.V());
    var e, added := base.NewHandleBatch(2, heap, junk);
    ghost var n := Node(7, 1, PLAIN, 0, [], true);
    e, h := base.AllocRootHandle(7, 1, PLAIN, heap, junk, true);
    FirstHandle(base.Contents(), e, h, n);
    ghost var none;
    failed, none := base.AllocSubHandle(8, 1, PLAIN, 0, heap, junk, true);
    ghost var s := base.V();
    committed := base.EndHandleBatch(true);
    NothingRemains(s, base.V(), h - 1, n);
  }

  lemma FirstHandle(c: map<nat, Node>, e: Error, h: nat, n: Node)
    requires Allocated(map[], c, e, h, n, 0, true) && (e == Ok || e == NotShareable)
    ensures e == Ok && h != 0 && c == WithNode(map[], h - 1, n)
  {
  }
}
