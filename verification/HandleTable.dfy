/** src/services4/srvkm/common/handle.c: one handle base. */
module HandleTable {
  import opened Machine
  import opened Forests
  import opened HandleState
  import opened HandleInvariant
  import opened HandleFree
  import opened HandleGrow
  import opened HandleAlloc
  import opened HandleContents
  import opened HandleShrink
  import opened HandleConfig
  import opened HandleLookup
  import opened HandleResize
  import opened HandlePick
  import opened HandleShare
  import opened HandleRelease
  import opened HandleBatch
  import opened HandlePurge

  class HandleBase {
    var slots: seq<Slot>
    var blockFree: seq<nat>
    var index: map<Key, nat>
    var freeCount: nat
    var firstFree: nat
    var lastFreePlusOne: nat
    var purging: bool
    var maxIndexPlusOne: nat
    var batchSize: nat
    var firstBatchPlusOne: nat
    var batchFailures: nat
    ghost var f: Forest
    ghost var freeQ: seq<nat>
    ghost var batchQ: seq<nat>
    ghost var heldBlocks: int  // blocks of handle structures obtained from OSAllocMem and not given back

    ghost function V(): View
      reads this
    {
      View(slots, blockFree, index, freeCount, firstFree, lastFreePlusOne, purging, f, freeQ, batchQ)
    }

    ghost predicate Outer()
      reads this
    {
      OuterOf(V(), Config(), heldBlocks)
    }

    /** The invariant between calls. */
    ghost predicate Valid()
      reads this
    {
      Inv(V(), {}, {}) && Outer()
    }

    /** The fields that only the batch operations change. */
    ghost function Config(): Settings
      reads this
    {
      Settings(maxIndexPlusOne, batchSize, firstBatchPlusOne, batchFailures, purging)
    }

    ghost function Contents(): map<nat, Node>
      reads this
      requires |f.kids| == |f.up| == |slots|
    {
      Handles(V())
    }

    constructor ()
      ensures V() == EMPTY && Sized(V()) && Valid() && Contents() == map[] && batchSize == batchFailures == 0 && !purging && maxIndexPlusOne == MAX_INDEX_PLUS_ONE
    {
      slots, blockFree, index := [], [], map[];
      freeCount, firstFree, lastFreePlusOne, purging := 0, 0, 0, false;
      maxIndexPlusOne, batchSize, firstBatchPlusOne, batchFailures := MAX_INDEX_PLUS_ONE, 0, 0, 0;
      f, freeQ, batchQ, heldBlocks := Forest([], [], [], 1), [], [], 0;
      new;
      hide Inv, OuterOf, Handles;
      EmptyFields(V());
    }

    // ---------- looking handles up ----------

    /** GetHandleStructure; typ 0 asks for any type. */
    function GetHandleStructure(h: nat, typ: nat): Error
      reads this
      requires h < TWO_32
    {
      LookUp(slots, h, typ)
    }

    /** PVRSRVLookupHandle succeeds exactly for a handle of that type. */
    method LookupHandle(h: nat, typ: nat) returns (e: Error, data: nat)
      requires Valid() && h < TWO_32 && typ != NO_TYPE
      ensures |f.kids| == |f.up| == |slots|
      ensures e == Ok <==> h - 1 in Contents() && Contents()[h - 1].typ == typ
      ensures h == 0 ==> e == IndexOutOfRange
      ensures e == Ok ==> data == Contents()[h - 1].data
    {
      hide Inv, OuterOf, WellFormed, Handles;
      Sizes(V(), {}, {});
      OuterSize(V(), Config(), heldBlocks);
      if h != 0 {
        HandlesAt(V(), h - 1);
      }
      e := GetHandleStructure(h, typ);
      data := if e == Ok then slots[HandleToIndex(h)].data else 0;
    }

    /** FindHandle: the handle the index holds under this key, 0 for none. */
    method FindHandle(data: nat, typ: nat, parent: nat) returns (h: nat)
      requires Valid() && typ != NO_TYPE
      ensures |f.kids| == |f.up| == |slots|
      ensures h != 0 ==> h - 1 in Contents() && Matches(Contents()[h - 1], data, typ, parent)
      ensures h == 0 ==> forall j :: j in Contents() ==> !Matches(Contents()[j], data, typ, parent)
      ensures h == 0 <==> Key(data, typ, parent) !in index
    {
      Sizes(V(), {}, {});
      var k := Key(data, typ, parent);
      FindHandleCorrect(V(), k);
      h := if k in index then index[k] else 0;
    }

    /** PVRSRVLookupSubHandle: walks the parents of h up to one whose parent is the ancestor.
        Ancestor 0 ends the chain of every handle. */
    method LookupSubHandle(h: nat, typ: nat, ancestor: nat) returns (e: Error, data: nat)
      requires Valid() && h < TWO_32 && typ != NO_TYPE && ancestor < TWO_32
      ensures |f.kids| == |f.up| == |slots| && WellFormed(f)
      ensures e == Ok <==> h - 1 in Contents() && Contents()[h - 1].typ == typ
                           && (ancestor == 0 || Above(f, h - 1, ancestor))
      ensures h == 0 ==> e == IndexOutOfRange
      ensures e == Ok ==> data == Contents()[h - 1].data
    {
      hide Inv, OuterOf, WellFormed, Descends, Above, Handles;
      ghost var v := V();
      OuterSize(v, Config(), heldBlocks);
      Sizes(v, {}, {});
      e, data := GetHandleStructure(h, typ), 0;
      if h != 0 {
        HandlesAt(v, h - 1);
      }
      if e != Ok {
        return;
      }
      var p: nat := h - 1;
      ghost var above := Above(f, p, ancestor);
      ParentLink(v, p);
      while slots[p].siblings.parent != ancestor
        invariant p < |slots| && slots[p].typ != NO_TYPE && slots[p].siblings.parent == f.up[p] <= |slots|
        invariant Above(f, p, ancestor) == above
        decreases f.born[p]
      {
        var parent := slots[p].siblings.parent;
        StepUp(v, p, ancestor);
        if GetHandleStructure(parent, NO_TYPE) != Ok {
          return InvalidSubHandle, 0;
        }
        p := HandleToIndex(parent);
      }
      ReachedAncestor(v, p, ancestor);
      data := slots[h - 1].data;
    }

    // ---------- the slot array ----------

    /** The allocation loop of ReallocHandleArray for the blocks first..last, with its error
        path: a failure at any block gives back every block obtained. */
    method AllocBlocks(first: nat, last: nat, heap: Heap, junk: nat -> Slot) returns (ok: bool, more: seq<Slot>)
      requires first <= last
      modifies `heldBlocks
      ensures ok <==> forall b :: first <= b < last ==> heap.block(b)
      ensures ok ==> |more| == (last - first) * BLOCK_SIZE && forall s :: 0 <= s < |more| ==> Blank(more[s])
      ensures heldBlocks == old(heldBlocks) + if ok then last - first else 0
    {
      var got: seq<bool> := [];
      more, ok := [], true;
      var b := first;
      while b < last
        invariant first <= b <= last && |got| == b - first
        invariant forall k :: first <= k < b ==> got[k - first] == heap.block(k)
        invariant ok <==> forall k :: first <= k < b ==> heap.block(k)
        invariant heldBlocks == old(heldBlocks) + Trues(got)
        invariant ok ==> |more| == |got| * BLOCK_SIZE && Trues(got) == |got|
        invariant forall s :: 0 <= s < |more| ==> Blank(more[s])
      {
        var have := heap.block(b);
        if have {
          more := more + BlankBlock(b * BLOCK_SIZE, junk);
          heldBlocks := heldBlocks + 1;
        } else {
          ok := false;
        }
        assert (got + [have])[..|got|] == got;
        got, b := got + [have], b + 1;
      }
      if !ok {
        GiveBack(got);
      }
    }

    /** The error path of ReallocHandleArray frees the blocks that are there. */
    method GiveBack(got: seq<bool>)
      modifies `heldBlocks
      ensures heldBlocks == old(heldBlocks) - Trues(got)
    {
      var b := 0;
      while b < |got|
        invariant b <= |got| && heldBlocks == old(heldBlocks) - Trues(got[..b])
      {
        assert got[..b + 1][..b] == got[..b];
        if got[b] {
          heldBlocks := heldBlocks - 1;
        }
        b := b + 1;
      }
      assert got[..|got|] == got;
    }

    /** ReallocHandleArray. `heap` says which allocations of this call succeed, `junk` is what
        the memory held. */
    method ReallocHandleArray(newCount: nat, heap: Heap, junk: nat -> Slot) returns (e: Error, ghost added: seq<Slot>)
      requires Inv(V(), {}, {})
      requires newCount < |slots| ==> batchQ == [] && AllFreeFrom(V(), newCount)
      modifies this
      ensures Config() == old(Config()) && heldBlocks - |blockFree| == old(heldBlocks - |blockFree|)
      ensures Resized(old(V()), V(), e, newCount, added, heap)
    {
      ghost var v := V();
      var oldCount := |slots|;
      ReallocFacts(v, newCount);
      NotResized(v, newCount, heap);
      hide Inv, FreshBlocks, AllFreeFrom, Grew, Shrank, Grown, Shrunk, Resized;
      added := [];
      if newCount == oldCount {
        return Ok, [];
      }
      if newCount != 0 && !purging && newCount < oldCount {
        return InvalidParams, [];
      }
      if oldCount % BLOCK_SIZE != 0 || newCount % BLOCK_SIZE != 0 {
        return InvalidParams, [];
      }
      if newCount != 0 && !heap.index {
        return OutOfMemory, [];
      }
      e, added := Reallocate(newCount, heap, junk);
    }

    /** ReallocHandleArray once the new count is known to be allowed. */
    method Reallocate(newCount: nat, heap: Heap, junk: nat -> Slot) returns (e: Error, ghost added: seq<Slot>)
      requires |blockFree| * BLOCK_SIZE == |slots| && lastFreePlusOne <= |slots| && |f.kids| == |f.up| == |f.born| == |slots|
      requires firstFree != 0 && !purging ==> lastFreePlusOne != 0
      requires newCount != |slots| && newCount % BLOCK_SIZE == 0 && (newCount != 0 ==> heap.index && (purging || newCount > |slots|))
      requires newCount < |slots| ==> |slots| - newCount <= freeCount
      modifies this`slots, `blockFree, `freeCount, `firstFree, `lastFreePlusOne, `f, `freeQ, `heldBlocks
      ensures heldBlocks - |blockFree| == old(heldBlocks - |blockFree|)
      ensures Resized(old(V()), V(), e, newCount, added, heap)
    {
      hide FreshBlocks, Grew, Shrank, Grown, Shrunk, Resized;
      ghost var v := V();
      var oldCount := |slots|;
      if newCount < oldCount {
        DropBlocks(newCount);
        ResizedDown(v, V(), newCount, heap);
        return Ok, [];
      }
      var ok, more := AllocBlocks(oldCount / BLOCK_SIZE, newCount / BLOCK_SIZE, heap, junk);
      if !ok {
        NotResized(v, newCount, heap);
        return OutOfMemory, [];
      }
      BlankIsFresh(more);
      InstallBlocks(more);
      added := more;
      ResizedUp(v, V(), newCount, added, heap);
      return Ok, added;
    }

    /** The end of ReallocHandleArray for a larger array. */
    method InstallBlocks(more: seq<Slot>)
      requires FreshBlocks(more) && lastFreePlusOne <= |slots|
      requires firstFree != 0 && !purging ==> lastFreePlusOne != 0
      modifies this`slots, `blockFree, `freeCount, `firstFree, `lastFreePlusOne, `f, `freeQ
      ensures Grew(old(V()), V(), more)
      ensures |slots| == old(|slots|) + |more| && |blockFree| == old(|blockFree|) + |more| / BLOCK_SIZE
    {
      hide Extended, Range, FreshBlocks, WholeFree, Config;
      ghost var v := V();
      var oldCount, newCount := |slots|, |slots| + |more|;
      freeCount := freeCount + (newCount - oldCount);
      if firstFree == 0 {
        firstFree := oldCount;
      } else if !purging {
        slots := slots[lastFreePlusOne - 1 := slots[lastFreePlusOne - 1].(nextPlusOne := oldCount + 1)];
      }
      if !purging {
        lastFreePlusOne := newCount;
      }
      slots, blockFree := slots + more, blockFree + WholeFree(|more| / BLOCK_SIZE);
      f, freeQ := Extended(f, |more|), freeQ + Range(oldCount, newCount);
      GrownFields(v, V(), more);
    }

    /** The freeing loop of ReallocHandleArray. */
    method FreeBlocks(newCount: nat)
      requires newCount < |slots| && newCount % BLOCK_SIZE == 0 && |blockFree| * BLOCK_SIZE == |slots|
      modifies `heldBlocks
      ensures heldBlocks == old(heldBlocks) - (|blockFree| - newCount / BLOCK_SIZE)
    {
      ghost var k := newCount / BLOCK_SIZE;
      var i := newCount;
      while i < |slots|
        invariant i == k * BLOCK_SIZE && newCount / BLOCK_SIZE <= k <= |blockFree|
        invariant heldBlocks == old(heldBlocks) - (k - newCount / BLOCK_SIZE)
      {
        heldBlocks := heldBlocks - 1;
        i, k := i + BLOCK_SIZE, k + 1;
      }
    }

    /** The end of ReallocHandleArray for a smaller array. */
    method DropBlocks(newCount: nat)
      requires newCount < |slots| && newCount % BLOCK_SIZE == 0 && |blockFree| * BLOCK_SIZE == |slots|
      requires |slots| - newCount <= freeCount && |f.kids| == |f.up| == |f.born| == |slots|
      modifies this`slots, `blockFree, `freeCount, `firstFree, `lastFreePlusOne, `f, `freeQ, `heldBlocks
      ensures Shrank(old(V()), V()) && |slots| == newCount
      ensures heldBlocks - |blockFree| == old(heldBlocks - |blockFree|)
    {
      ghost var v := V();
      hide From, Without, ShrunkForest, Config;
      FreeBlocks(newCount);
      if newCount == 0 {
        firstFree, lastFreePlusOne := 0, 0;
      }
      slots, blockFree, freeCount := slots[..newCount], blockFree[..newCount / BLOCK_SIZE], freeCount - (|slots| - newCount);
      f, freeQ := ShrunkForest(f, newCount), Without(freeQ, From(v, newCount));
      ShrunkFields(v, V(), newCount);
    }

    /** IncreaseHandleArraySize, in 32-bit arithmetic: rounding up and adding may both wrap. */
    method IncreaseHandleArraySize(delta: nat, heap: Heap, junk: nat -> Slot) returns (e: Error, ghost added: seq<Slot>)
      requires Inv(V(), {}, {}) && 0 < delta < TWO_32
      requires |slots| <= maxIndexPlusOne <= MAX_INDEX_PLUS_ONE && maxIndexPlusOne % BLOCK_SIZE == 0
      modifies this
      ensures Config() == old(Config())
      ensures e != Ok ==> V() == old(V()) && heldBlocks == old(heldBlocks) && (e == OutOfMemory || e == InvalidParams)
      ensures e == Ok ==> Grew(old(V()), V(), added) && |slots| - old(|slots|) == |added| >= delta && |slots| <= maxIndexPlusOne
      ensures e == Ok ==> heldBlocks - |blockFree| == old(heldBlocks - |blockFree|)
      ensures heap.index && (forall b :: heap.block(b)) ==> (e == Ok <==> delta <= maxIndexPlusOne - old(|slots|))
    {
      ReallocFacts(V(), |slots|);
      var newTotal := NewTotal(delta, |slots|, maxIndexPlusOne);
      NewTotalFits(delta, |slots|, maxIndexPlusOne);
      ghost var v := V();
      hide Inv, Grew, NewTotal, Resized;
      if newTotal == 0 {
        return OutOfMemory, [];
      }
      e, added := ReallocHandleArray(newTotal, heap, junk);
      ResizedMeans(v, V(), e, newTotal, added, heap);
    }

    method EnsureFreeHandles(n: nat, heap: Heap, junk: nat -> Slot) returns (e: Error, ghost added: seq<Slot>)
      requires Inv(V(), {}, {}) && n < TWO_32
      requires |slots| <= maxIndexPlusOne <= MAX_INDEX_PLUS_ONE && maxIndexPlusOne % BLOCK_SIZE == 0
      modifies this
      ensures Config() == old(Config())
      ensures Ensured(old(V()), V(), e, n, added) && |slots| <= maxIndexPlusOne
      ensures old(Roomy(V(), n, maxIndexPlusOne, heap)) ==> e == Ok
      ensures heldBlocks - |blockFree| == old(heldBlocks - |blockFree|)
    {
      e, added := Ok, [];
      ghost var s := V();
      hide Inv, Grew, Ensured;
      if n > freeCount {
        e, added := IncreaseHandleArraySize(n - freeCount, heap, junk);
      }
      EnsureDone(s, V(), e, n, added);
    }

    // ---------- allocation ----------

    /** AllocHandle in a purging base: the last block with a free slot, first free slot there. */
    method SearchFreeSlot() returns (i: nat)
      requires Inv(V(), {}, {}) && purging && Searchable(V())
      ensures i in freeQ
    {
      hide Inv;
      Sizes(V(), {}, {});
      ghost var found := false;
      i := MAX_INDEX_PLUS_ONE;
      var b := firstFree / BLOCK_SIZE;
      while b * BLOCK_SIZE < |slots|
        invariant firstFree / BLOCK_SIZE <= b
        invariant found ==> i in freeQ
        invariant !found ==> forall k :: firstFree / BLOCK_SIZE <= k < b && k < |blockFree| ==> blockFree[k] == 0
      {
        BlockBelow(b, |blockFree|);
        if blockFree[b] != 0 {
          i := SearchBlock(b);
          found := true;
        }
        b := b + 1;
      }
      BlockBelow(b, |blockFree|);
    }

    /** The first free slot of a block that has one. */
    method SearchBlock(b: nat) returns (i: nat)
      requires Inv(V(), {}, {}) && purging && b < |blockFree| && blockFree[b] > 0
      ensures i in freeQ
    {
      hide Inv;
      ghost var j := FreeSlotIn(V(), b);
      var end := (b + 1) * BLOCK_SIZE;
      i := b * BLOCK_SIZE;
      while i < end && !(slots[i].typ == NO_TYPE && !slots[i].batched && !slots[i].partFree)
        invariant i <= j < end
      {
        i := i + 1;
      }
      FreeByFlags(V(), i);
    }

    /** The tail of AllocHandle: slot i leaves the free list and becomes a handle. */
    method TakeSlot(i: nat, ghost m: nat, data: nat, typ: nat, flags: Flags)
      requires CanTake(V(), m, MakeSlot(i, data, typ, flags, batchSize != 0, firstBatchPlusOne), batchSize != 0)
      requires freeQ[m] == i
      requires purging ==> firstFree == 0
      modifies this`slots, `blockFree, `freeCount, `firstFree, `lastFreePlusOne, `f, `freeQ, `batchQ, `firstBatchPlusOne
      ensures firstBatchPlusOne == if batchSize != 0 then i + 1 else old(firstBatchPlusOne)
      ensures V() == Taken(old(V()), m, MakeSlot(i, data, typ, flags, batchSize != 0, old(firstBatchPlusOne)), batchSize != 0)
    {
      ghost var v := V();
      var s := MakeSlot(i, data, typ, flags, batchSize != 0, firstBatchPlusOne);
      hide MakeSlot, Taken;
      LeaveFreeList(i, m);
      slots := slots[i := s];
      f := f.(born := f.born[i := f.clock], clock := f.clock + 1);
      if batchSize != 0 {
        firstBatchPlusOne := i + 1;
        batchQ := [i] + batchQ;
      }
      TakenFields(v, V(), m, s, batchSize != 0);
    }

    /** The counts and the list ends after free slot i, number m, is taken. */
    method LeaveFreeList(i: nat, ghost m: nat)
      requires m < |freeQ| && freeQ[m] == i < |slots| && freeCount > 0 && (purging ==> firstFree == 0)
      requires |blockFree| * BLOCK_SIZE == |slots| && blockFree[i / BLOCK_SIZE] > 0
      modifies `freeCount, `blockFree, `firstFree, `lastFreePlusOne, `freeQ
      ensures freeCount == old(freeCount) - 1
      ensures blockFree == old(blockFree)[i / BLOCK_SIZE := old(blockFree)[i / BLOCK_SIZE] - 1]
      ensures firstFree == if purging || freeCount == 0 then 0 else Follow(slots, i)
      ensures lastFreePlusOne == if !purging && freeCount == 0 then 0 else old(lastFreePlusOne)
      ensures freeQ == old(freeQ)[..m] + old(freeQ)[m + 1..]
    {
      freeCount := freeCount - 1;
      blockFree := blockFree[i / BLOCK_SIZE := blockFree[i / BLOCK_SIZE] - 1];
      if !purging {
        if freeCount == 0 {
          lastFreePlusOne, firstFree := 0, 0;
        } else {
          firstFree := if slots[i].nextPlusOne == 0 then i + 1 else slots[i].nextPlusOne - 1;
        }
      }
      freeQ := freeQ[..m] + freeQ[m + 1..];
    }

    /** AllocHandle's choice of a slot: the head of the free list, or a search. */
    method ChooseSlot() returns (i: nat, ghost m: nat)
      requires Steady(V()) && freeCount > 0 && Searchable(V())
      modifies `firstFree
      ensures V() == Searched(old(V()))
      ensures m < |freeQ| && freeQ[m] == i && (!purging ==> m == 0)
    {
      hide Inv, Batches;
      Sizes(V(), {}, {});
      FreeSlotFacts(V(), 0);
      m := 0;
      if !purging {
        i := firstFree;
      } else {
        i := SearchFreeSlot();
        m :| m < |freeQ| && freeQ[m] == i;
        firstFree := 0;
      }
    }

    /** The head of AllocHandle: makes room and picks the slot to use. */
    method PickSlot(heap: Heap, junk: nat -> Slot) returns (e: Error, i: nat, ghost m: nat)
      requires Valid()
      modifies this
      ensures Config() == old(Config()) && Outer()
      ensures Picked(old(V()), V(), e, i, m)
      ensures old(Roomy(V(), 1, maxIndexPlusOne, heap)) ==> e == Ok
    {
      hide Inv, OuterOf, Picked, Ensured, Searchable, Steady, Handles, Sized, GrowSafeFor, Roomy;
      ghost var s := V();
      StartPick(s, Config(), heldBlocks);
      i, m := 0, 0;
      ghost var added;
      e, added := EnsureFreeHandles(1, heap, junk);
      ghost var mid := V();
      RoomMade(s, mid, e, 1, added, Config(), heldBlocks);
      if e == Ok {
        i, m := ChooseSlot();
      }
      PickDone(s, mid, V(), e, i, m, Config(), heldBlocks);
    }

    /** AllocHandle: one new handle, last in age, not yet under its parent. The index already
        holds its final key, so the invariant holds of the index before the call. */
    method AllocHandle(data: nat, typ: nat, flags: Flags, keyParent: nat, heap: Heap, junk: nat -> Slot, hashOk: bool)
      returns (e: Error, h: nat)
      requires Valid() && typ != NO_TYPE
      requires !flags.multi ==> Key(data, typ, keyParent) !in index
      modifies this
      ensures Config() == old(Config()).(front := firstBatchPlusOne)
      ensures Tried(old(V()), V(), Config(), heldBlocks, e, h, Node(data, typ, flags, 0, [], batchSize != 0), keyParent)
      ensures hashOk && old(Roomy(V(), 1, maxIndexPlusOne, heap)) ==> e == Ok
    {
      hide Inv, OuterOf, Picked, Tried, Roomy;
      ghost var v0 := V();
      ghost var n := Node(data, typ, flags, 0, [], batchSize != 0);
      var i;
      ghost var m;
      e, i, m := PickSlot(heap, junk);
      h := 0;
      if e != Ok {
        PickedMeans(v0, V(), e, i, m);
        TriedInVain(v0, V(), Config(), heldBlocks, e, e, i, m, n, keyParent);
        return;
      }
      if !flags.multi && !hashOk {
        TriedInVain(v0, V(), Config(), heldBlocks, e, UnableToAdd, i, m, n, keyParent);
        return UnableToAdd, 0;
      }
      FillSlot(v0, i, m, data, typ, flags, keyParent);
      return Ok, i + 1;
    }

    /** The index learns the key of the new handle, and its slot is filled. */
    method FillSlot(ghost s: View, i: nat, ghost m: nat, data: nat, typ: nat, flags: Flags, keyParent: nat)
      requires Picked(s, V(), Ok, i, m) && Outer() && typ != NO_TYPE
      requires !flags.multi ==> Key(data, typ, keyParent) !in s.index
      modifies this
      ensures Config() == old(Config()).(front := firstBatchPlusOne)
      ensures Tried(s, V(), Config(), heldBlocks, Ok, i + 1, Node(data, typ, flags, 0, [], batchSize != 0), keyParent)
    {
      hide Inv, OuterOf, Picked, Tried, Taken, CanTake;
      ghost var v, c, held := V(), Config(), heldBlocks;
      ghost var batch := batchSize != 0;
      ghost var slot := MakeSlot(i, data, typ, flags, batch, firstBatchPlusOne);
      if !flags.multi {
        index := index[Key(data, typ, keyParent) := i + 1];
      }
      PickedMeans(s, v, Ok, i, m);
      ReadyToTake(s, v, V(), c, held, i, m, slot, batch);
      TakeSlot(i, m, data, typ, flags);
      Filled(s, v, V(), c, Config(), held, i, m, slot, keyParent, batch);
    }

    /** AdoptChild: HandleListInsertBefore in front of the parent's own list entry. */
    method AdoptChild(p: nat, i: nat)
      requires CanAdopt(V(), p, i)
      modifies `slots, `f
      ensures V() == Adopted(old(V()), p, i)
    {
      var prevIns := slots[p].children.prev;
      slots := slots[i := slots[i].(siblings := Link(prevIns, p, p + 1))];
      slots := slots[p := slots[p].(children := slots[p].children.(prev := i))];
      slots := WithLink(slots, p, prevIns, LinkOf(slots, p, prevIns).(next := i));
      f := Attached(f, p, i);
    }

    /** Both allocation calls first look for a handle with the same key that may be shared. */
    method ReuseHandle(n: Node, parentKey: nat, anyParent: bool) returns (known: bool, e: Error, h: nat)
      requires Valid() && Sized(V()) && n.typ != NO_TYPE
      ensures known ==> Allocated(Contents(), Contents(), e, h, n, parentKey, anyParent) && (e == Ok || e == NotShareable)
      ensures !known && !n.flags.multi ==> Key(n.data, n.typ, parentKey) !in index
    {
      hide Inv, OuterOf, Handles, Allocated, Matches;
      ghost var s := V();
      OuterSize(s, Config(), heldBlocks);
      known, e, h := false, Ok, 0;
      if !n.flags.multi {
        var found := FindHandle(n.data, n.typ, parentKey);
        if found != 0 {
          FoundSlot(s, found, n, parentKey);
          var i := HandleToIndex(found);
          var same := slots[i].flags.shared && n.flags.shared && (anyParent || slots[i].siblings.parent == n.parent);
          HandleKnown(s, found, if same then Ok else NotShareable, n, parentKey, anyParent);
          e := GetHandleStructure(found, n.typ);
          if e != Ok {
            return;
          }
          if same {
            return true, Ok, found;
          }
          return true, NotShareable, h;
        }
      }
    }

    /** PVRSRVAllocHandle. */
    method AllocRootHandle(data: nat, typ: nat, flags: Flags, heap: Heap, junk: nat -> Slot, hashOk: bool)
      returns (e: Error, h: nat)
      requires Valid() && typ != NO_TYPE
      modifies this
      ensures Valid() && Sized(old(V())) && Sized(V())
      ensures Config() == AfterAlloc(old(Config()), firstBatchPlusOne, e)
      ensures Allocated(Handles(old(V())), Contents(), e, h, Node(data, typ, flags, 0, [], batchSize != 0), 0, true)
      ensures hashOk && old(Roomy(V(), 1, maxIndexPlusOne, heap)) ==> e == Ok || e == NotShareable
      ensures freeCount + 1 >= old(freeCount)
    {
      hide Inv, OuterOf, Handles, Allocated, Roomy, Sized;
      CountFailure(1);
      e, h := NewRootHandle(Node(data, typ, flags, 0, [], batchSize != 0), heap, junk, hashOk);
      if e == Ok {
        CountFailure(-1);
      }
    }

    /** PVRSRVAllocHandle between its two steps of the failure counter. */
    method NewRootHandle(n: Node, heap: Heap, junk: nat -> Slot, hashOk: bool) returns (e: Error, h: nat)
      requires Valid() && n.typ != NO_TYPE && n.parent == 0 && n.kids == [] && n.batched == (batchSize != 0)
      modifies this
      ensures Valid() && Sized(old(V())) && Sized(V())
      ensures Config() == old(Config()).(front := firstBatchPlusOne)
      ensures Allocated(Handles(old(V())), Contents(), e, h, n, 0, true)
      ensures hashOk && old(Roomy(V(), 1, maxIndexPlusOne, heap)) ==> e == Ok || e == NotShareable
      ensures freeCount + 1 >= old(freeCount)
    {
      hide Inv, OuterOf, Handles, Arrived, Allocated, Taking, Roomy;
      ghost var s := V();
      Sizes(s, {}, {});
      var known;
      known, e, h := ReuseHandle(n, 0, true);
      if !known {
        if !n.flags.multi {
          NothingTaking(s, n, 0);
        }
        e, h := AllocHandle(n.data, n.typ, n.flags, 0, heap, junk, hashOk);
        if e == Ok {
          RootDone(s, V(), h, n);
        } else {
          NothingAllocated(Handles(s), e, n, 0, true);
        }
      }
    }

    /** The failure counter of the open batch. */
    method CountFailure(d: int)
      requires Outer() && -1 <= d && (batchSize != 0 ==> batchFailures + d >= 0)
      modifies `batchFailures
      ensures batchFailures == old(batchFailures) + (if batchSize != 0 then d else 0)
      ensures Outer()
    {
      if batchSize != 0 {
        batchFailures := batchFailures + d;
      }
    }

    /** The end of PVRSRVAllocSubHandle: a new handle, linked under its parent. */
    method NewSubHandle(n: Node, parentKey: nat, heap: Heap, junk: nat -> Slot, hashOk: bool) returns (e: Error, h: nat)
      requires Valid() && Sized(V()) && n.typ != NO_TYPE && n.kids == [] && n.batched == (batchSize != 0)
      requires 0 < n.parent < TWO_32 && n.parent - 1 in Contents() && parentKey == if n.flags.priv then n.parent else 0
      requires !n.flags.multi ==> Key(n.data, n.typ, parentKey) !in index
      modifies this
      ensures Valid() && Sized(V())
      ensures Config() == old(Config()).(front := firstBatchPlusOne)
      ensures Allocated(old(Contents()), Contents(), e, h, n, parentKey, false)
      ensures hashOk && old(Roomy(V(), 1, maxIndexPlusOne, heap)) ==> e == Ok
      ensures e != NotShareable && freeCount + 1 >= old(freeCount)
    {
      hide Inv, OuterOf, Handles, Arrived, Allocated, Taking, CanAdopt, Adopted;
      ghost var s := V();
      if !n.flags.multi {
        NothingTaking(s, n, parentKey);
      }
      e, h := AllocHandle(n.data, n.typ, n.flags, parentKey, heap, junk, hashOk);
      if e != Ok {
        NothingAllocated(Handles(s), e, n, parentKey, false);
        return e, 0;
      }
      ghost var t := V();
      OuterSize(t, Config(), heldBlocks);
      ArrivedLinks(s, t, h, n, parentKey);
      ParentReady(s, t, h, n, parentKey);
      AdoptChild(HandleToIndex(n.parent), HandleToIndex(h));
      SubDone(s, t, V(), h, n, parentKey);
      SubOuter(s, t, V(), Config(), heldBlocks, h, n, parentKey);
    }

    /** The middle of PVRSRVAllocSubHandle, once the parent is known to exist. */
    method ShareSubHandle(n: Node, heap: Heap, junk: nat -> Slot, hashOk: bool) returns (e: Error, h: nat)
      requires Valid() && Sized(V()) && n.typ != NO_TYPE && n.kids == [] && n.batched == (batchSize != 0)
      requires 0 < n.parent < TWO_32 && n.parent - 1 in Contents()
      modifies this
      ensures Valid() && Sized(V())
      ensures Config() == old(Config()).(front := firstBatchPlusOne)
      ensures Allocated(old(Contents()), Contents(), e, h, n, if n.flags.priv then n.parent else 0, false)
      ensures hashOk && old(Roomy(V(), 1, maxIndexPlusOne, heap)) ==> e == Ok || e == NotShareable
      ensures freeCount + 1 >= old(freeCount)
    {
      hide Inv, OuterOf, Handles, Allocated;
      var parentKey := if n.flags.priv then n.parent else 0;
      var known;
      known, e, h := ReuseHandle(n, parentKey, false);
      if !known {
        e, h := NewSubHandle(n, parentKey, heap, junk, hashOk);
      }
    }

    /** PVRSRVAllocSubHandle. */
    method AllocSubHandle(data: nat, typ: nat, flags: Flags, parent: nat, heap: Heap, junk: nat -> Slot, hashOk: bool)
      returns (e: Error, h: nat)
      requires Valid() && typ != NO_TYPE && parent < TWO_32
      modifies this
      ensures Valid() && Sized(old(V())) && Sized(V())
      ensures Config() == AfterAlloc(old(Config()), firstBatchPlusOne, e)
      ensures SubAllocated(old(V()), V(), e, h, Node(data, typ, flags, parent, [], batchSize != 0),
                           hashOk && old(Roomy(V(), 1, maxIndexPlusOne, heap)))
      ensures freeCount + 1 >= old(freeCount)
    {
      hide Inv, OuterOf, Handles, Allocated, SubAllocated, Roomy, Sized;
      CountFailure(1);
      e, h := TrySubHandle(Node(data, typ, flags, parent, [], batchSize != 0), heap, junk, hashOk);
      if e == Ok {
        CountFailure(-1);
      }
    }

    /** PVRSRVAllocSubHandle between its two steps of the failure counter. */
    method TrySubHandle(n: Node, heap: Heap, junk: nat -> Slot, hashOk: bool) returns (e: Error, h: nat)
      requires Valid() && n.typ != NO_TYPE && n.parent < TWO_32 && n.kids == [] && n.batched == (batchSize != 0)
      modifies this
      ensures Valid() && Sized(old(V())) && Sized(V())
      ensures Config() == old(Config()).(front := firstBatchPlusOne)
      ensures SubAllocated(old(V()), V(), e, h, n, hashOk && old(Roomy(V(), 1, maxIndexPlusOne, heap)))
      ensures freeCount + 1 >= old(freeCount)
    {
      hide Inv, OuterOf, Handles, Allocated, SubAllocated, LookUp, Roomy;
      ghost var s := V();
      Sizes(s, {}, {});
      OuterSize(s, Config(), heldBlocks);
      e, h := GetHandleStructure(n.parent, NO_TYPE), 0;
      ghost var sure := hashOk && old(Roomy(V(), 1, maxIndexPlusOne, heap));
      NoParent(s, e, n, sure);
      if e != Ok {
        return;
      }
      HandlesAt(s, n.parent - 1);
      e, h := ShareSubHandle(n, heap, junk, hashOk);
      SubDecided(s, V(), e, h, n, sure);
    }

    /** HandleListRemove on the sibling entry of i. */
    method UnlinkFromParent(i: nat, ghost m: nat)
      requires Shape(V()) && Linked(V()) && i < |slots| && i !in freeQ && ChildAt(V(), i, m)
      requires f.up[i] != 0 ==> f.up[i] - 1 !in freeQ
      modifies `slots, `f
      ensures slots == Unringed(old(V()), i, m) && f == Prune(old(f), {i})
    {
      hide WellFormed, Linked, InRange, At;
      RingSpot(V(), i, m);
      if slots[i].siblings.next != i {
        var e := slots[i].siblings;
        var parent := e.parent - 1;
        slots := WithLink(slots, parent, e.prev, LinkOf(slots, parent, e.prev).(next := e.next));
        slots := WithLink(slots, parent, e.next, LinkOf(slots, parent, e.next).(prev := e.prev));
        slots := slots[i := slots[i].(siblings := Link(i, i, 0))];
      }
      f := Prune(f, {i});
    }

    /** The tail of FreeHandle: slot i goes to the end of the free list. */
    method AppendFree(i: nat)
      requires freeCount == |freeQ| && i < |slots| && |blockFree| * BLOCK_SIZE == |slots|
      requires lastFreePlusOne <= |slots| && (!purging && freeQ != [] ==> lastFreePlusOne != 0)
      modifies this`firstFree, `slots, `lastFreePlusOne, `freeCount, `blockFree, `freeQ
      ensures V() == Appended(old(V()), i)
    {
      if !purging {
        if freeCount == 0 {
          firstFree := i;
        } else {
          slots := slots[lastFreePlusOne - 1 := slots[lastFreePlusOne - 1].(nextPlusOne := i + 1)];
        }
        lastFreePlusOne := i + 1;
      }
      freeCount := freeCount + 1;
      blockFree := blockFree[i / BLOCK_SIZE := blockFree[i / BLOCK_SIZE] + 1];
      freeQ := freeQ + [i];
    }

    /** The head of FreeHandle: i leaves the hash index and its parent's ring. */
    method Detach(i: nat, ghost dying: set<nat>, ghost limbo: set<nat>)
      requires Inv(V(), dying, limbo) && i < |slots| && i !in dying
      requires slots[i].typ == NO_TYPE ==> i in limbo && slots[i].partFree
      modifies `slots, `index, `f
      ensures old(slots[i].typ) != NO_TYPE ==> Inv(V(), dying + {i}, limbo)
      ensures old(slots[i].typ) == NO_TYPE ==> Inv(V(), dying, limbo)
      ensures Detaching(old(V()), V(), i)
    {
      hide Inv, Gone, WellFormed, PostOrder, PostOrders, Prune, Linked, Unringed, Elems;
      ghost var s0 := V();
      ghost var m := PlaceOf(s0, dying, limbo, i);
      if !slots[i].flags.multi && !slots[i].partFree {
        index := index - {KeyOf(slots[i])};
      }
      KeyRemoved(s0, index, i, dying, limbo);
      IndexIrrelevant(s0, V(), i, m);
      UnlinkFromParent(i, m);
      Step1(s0, V(), i, m, dying, limbo);
    }

    /** The tail of FreeHandle: slot i stops being a handle and is parked or reclaimed. */
    method Retire(i: nat, ghost dying: set<nat>, ghost limbo: set<nat>)
      requires i < |slots| && i !in dying && i !in limbo && |f.kids| == |slots|
      requires slots[i].typ != NO_TYPE ==> Inv(V(), dying + {i}, limbo) && !slots[i].partFree
      requires slots[i].typ == NO_TYPE ==> Inv(V(), dying, limbo + {i}) && slots[i].partFree
      requires f.kids[i] == []
      modifies this
      ensures Config() == old(Config()) && heldBlocks == old(heldBlocks)
      ensures Inv(V(), dying, limbo)
      ensures |old(f).kids| == |old(f).up| && Gone(old(V()), V(), {}, [i])
    {
      hide Inv, Gone, WellFormed;
      ghost var s2 := V();
      ghost var live := slots[i].typ != NO_TYPE;
      Sizes(s2, if live then dying + {i} else dying, if live then limbo else limbo + {i});
      slots := slots[i := slots[i].(typ := NO_TYPE)];
      if slots[i].batched && !slots[i].partFree {
        slots := slots[i := slots[i].(partFree := true)];
        assert V() == Parked(s2, i);
        ParkKeeps(s2, i, dying, limbo);
        ParkedIsGone(s2, i);
        return;
      }
      if live {
        EmptyKeeps(s2, i, dying, limbo);
      } else {
        assert slots == s2.slots;
      }
      assert V() == Emptied(s2, i);
      AppendPrepared(V(), i, dying, limbo + {i});
      AppendKeeps(V(), i, dying, limbo);
      AppendFree(i);
      AppendedIsGone(s2, V(), i);
    }

    /** FreeHandle: everything freed is exactly the subtree of i, in post-order. A handle
        that was released while its batch was open comes back here once, when the batch
        ends; its slot is then in limbo. */
    method FreeHandle(i: nat, ghost dying: set<nat>, ghost limbo: set<nat>)
      requires i < |slots| && i !in dying && i !in limbo
      requires slots[i].typ != NO_TYPE ==> Inv(V(), dying, limbo)
      requires slots[i].typ == NO_TYPE ==> slots[i].batched && slots[i].partFree && Inv(V(), dying, limbo + {i})
      modifies this
      ensures Config() == old(Config()) && heldBlocks == old(heldBlocks)
      ensures Inv(V(), dying, limbo)
      ensures WellFormed(old(f)) && i < |old(f).kids| == |slots|
      ensures Gone(old(V()), V(), Elems(PostOrder(old(f), i)), PostOrder(old(f), i))
      decreases f.clock - f.born[i], 1
    {
      hide Inv, Gone, WellFormed, PostOrder, PostOrders, FirstSubtrees, Elems;
      ghost var s0 := V();
      ghost var live := slots[i].typ != NO_TYPE;
      ghost var dying1, limbo1 := if live then dying + {i} else dying, if live then limbo else limbo + {i};
      FreeFacts(s0, dying, limbo1, i);
      Detach(i, dying, limbo1);
      ghost var s1 := V();
      FreeChildren(i, dying1, limbo1);
      ghost var s2 := V();
      Sizes(s2, dying1, limbo1);
      Step2(s0, s1, s2, i);
      ghost var below := FirstSubtrees(s0.f, i, |s0.f.kids[i]|);
      OwnSlotKept(s0, s2, i, Elems(below + [i]), below);
      Retire(i, dying, limbo);
      Step3(s0, s2, V(), i, below);
      BornSame(s0, V(), Elems(below + [i]), below + [i]);
    }

    /** IterateOverChildren with FreeHandle: the next index is read before each child goes. */
    method FreeChildren(i: nat, ghost dying: set<nat>, ghost limbo: set<nat>)
      requires Inv(V(), dying, limbo) && i < |slots| && (i in dying || i in limbo)
      modifies this
      ensures Config() == old(Config()) && heldBlocks == old(heldBlocks)
      ensures Inv(V(), dying, limbo)
      ensures WellFormed(old(f)) && i < |old(f).kids| && i < |f.kids|
      ensures Gone(old(V()), V(), Elems(FirstSubtrees(old(f), i, |old(f).kids[i]|)), FirstSubtrees(old(f), i, |old(f).kids[i]|))
      ensures f.kids[i] == []
      decreases f.clock - f.born[i], 0
    {
      hide Inv, Gone, WellFormed, Freeing, PostOrder, Elems, FirstSubtrees;
      ghost var s0 := V();
      Sizes(s0, dying, limbo);
      ghost var m: nat := 0;
      HeadOfRing(s0, dying, limbo, i);
      var idx := slots[i].children.next;
      FreeingStarts(s0, i);
      while idx != i
        invariant Inv(V(), dying, limbo) && Config() == old(Config()) && heldBlocks == old(heldBlocks)
        invariant Freeing(s0, V(), i, m)
        invariant idx == if m < |s0.f.kids[i]| then s0.f.kids[i][m] else i
        decreases |s0.f.kids[i]| - m
      {
        ghost var s := V();
        Sizes(s, dying, limbo);
        NextToFree(s0, s, i, m);
        HeadOfRing(s, dying, limbo, i);
        var child := idx;
        idx := slots[child].siblings.next;
        FreeHandle(child, dying, limbo);
        FreedOne(s0, s, V(), i, m);
        m := m + 1;
      }
      FreeingEnds(s0, V(), i, m);
    }

    /** PVRSRVReleaseHandle. */
    method ReleaseHandle(h: nat, typ: nat) returns (e: Error)
      requires Valid() && h < TWO_32 && typ != NO_TYPE
      modifies this
      ensures Valid() && Config() == old(Config())
      ensures e == old(GetHandleStructure(h, typ))
      ensures e != Ok ==> V() == old(V())
      ensures e == Ok ==> h != 0 && Released(old(V()), V(), h - 1)
    {
      hide Inv, OuterOf, Released, Gone, PostOrder, WellFormed, Elems;
      OuterSize(V(), Config(), heldBlocks);
      e := GetHandleStructure(h, typ);
      if e == Ok {
        FreeSubtree(HandleToIndex(h));
      }
    }

    /** PVRSRVLookupAndReleaseHandle: the data is read before the handle goes. */
    method LookupAndReleaseHandle(h: nat, typ: nat) returns (e: Error, data: nat)
      requires Valid() && h < TWO_32 && typ != NO_TYPE
      modifies this
      ensures Valid() && Config() == old(Config())
      ensures e == old(GetHandleStructure(h, typ))
      ensures e != Ok ==> V() == old(V())
      ensures e == Ok ==> h != 0 && Released(old(V()), V(), h - 1) && data == old(slots)[h - 1].data
    {
      hide Inv, OuterOf, Released, Gone, PostOrder, WellFormed, Elems;
      OuterSize(V(), Config(), heldBlocks);
      e, data := GetHandleStructure(h, typ), 0;
      if e == Ok {
        data := slots[HandleToIndex(h)].data;
        FreeSubtree(HandleToIndex(h));
      }
    }

    /** FreeHandle called between operations. */
    method FreeSubtree(i: nat)
      requires Valid() && i < |slots| && slots[i].typ != NO_TYPE
      modifies this
      ensures Valid() && Config() == old(Config()) && heldBlocks == old(heldBlocks)
      ensures Released(old(V()), V(), i)
    {
      hide Inv, OuterOf, Released, Gone, PostOrder, PostOrders, WellFormed, Elems;
      ghost var s := V();
      Sizes(s, {}, {});
      FreeHandle(i, {}, {});
      ReleaseDone(s, V(), i);
      ReleaseOuter(s, V(), PostOrder(s.f, i), Config(), heldBlocks);
    }

    // ---------- batches ----------

    /** PVRSRVNewHandleBatch. */
    method NewHandleBatch(n: nat, heap: Heap, junk: nat -> Slot) returns (e: Error, ghost added: seq<Slot>)
      requires Valid() && !purging && n < TWO_32
      requires batchSize == 0 ==> GrowSafeFor(V(), n)
      modifies this
      ensures Valid() && Sized(old(V())) && Sized(V()) && Contents() == Handles(old(V()))
      ensures e == BatchInUse <==> old(batchSize) != 0
      ensures old(batchSize) == 0 && n == 0 ==> e == InvalidParams
      ensures e != Ok ==> V() == old(V()) && Config() == old(Config())
      ensures e == Ok ==> Config() == old(Config()).(batchSize := n) && n > 0 && freeCount >= n && batchQ == []
      ensures old(batchSize) == 0 && n > 0 ==> Ensured(old(V()), V(), e, n, added)
      ensures old(batchSize) == 0 && n > 0 && old(Roomy(V(), n, maxIndexPlusOne, heap)) ==> e == Ok
    {
      hide Inv, OuterOf, Handles, Ensured, Batches, Searchable, GrowSafeFor, Roomy;
      ghost var s := V();
      Sizes(s, {}, {});
      if batchSize != 0 {
        return BatchInUse, [];
      }
      if n == 0 {
        return InvalidParams, [];
      }
      StartBatch(s, Config(), heldBlocks);
      e, added := EnsureFreeHandles(n, heap, junk);
      RoomMade(s, V(), e, n, added, Config(), heldBlocks);
      if e == Ok {
        BatchOpened(V(), Config(), heldBlocks, n);
        batchSize := n;
      }
    }

    /** One turn of the loop in PVRSRVHandleBatchCommitOrRelease, on the newest slot left. */
    method EndOne(i: nat, ghost s: View, ghost m: nat, commit: bool) returns (next: nat)
      requires Inv(V(), {}, {}) && Ending(s, V(), m, commit) && batchQ != [] && batchQ[0] == i
      modifies this
      ensures Inv(V(), {}, {}) && Ending(s, V(), m + 1, commit)
      ensures Config() == old(Config()) && heldBlocks == old(heldBlocks)
      ensures batchQ == old(batchQ)[1..] && next == Front(batchQ)
    {
      hide Inv, Ending, Gone, Handles, PostOrder, WellFormed, Batches, Elems;
      ghost var v := V();
      EndingFacts(s, v, m, commit);
      HeadOfBatch(v);
      PopKeeps(v);
      next := slots[i].nextPlusOne;
      slots := slots[i := slots[i].(nextPlusOne := 0)];
      batchQ := batchQ[1..];
      if !commit || slots[i].partFree {
        PoppedForest(v);
        if !slots[i].partFree {
          slots := slots[i := slots[i].(batched := false)];
        }
        assert V() == Popped(v);
        assert {} + {i} == {i};
        FreeHandle(i, {}, {});
        EndFreed(s, v, V(), m, commit);
      } else {
        slots := slots[i := slots[i].(batched := false)];
        assert V() == Popped(v);
        EndCommittedKeep(s, v, m);
      }
    }

    /** PVRSRVHandleBatchCommitOrRelease. */
    method EndHandleBatch(commit: bool) returns (e: Error)
      requires Valid()
      modifies this
      ensures Valid() && batchSize == 0 && maxIndexPlusOne == old(maxIndexPlusOne) && purging == old(purging)
      ensures old(batchSize) == 0 ==> e == InvalidParams && V() == old(V())
      ensures old(batchSize) != 0 ==> e == Ok && BatchEnded(old(V()), V(), commit && old(batchFailures) == 0)
    {
      hide Inv, OuterOf, Ending, Batches, BatchEnded;
      ghost var s := V();
      ghost var c := Config();
      if batchSize == 0 {
        return InvalidParams;
      }
      BatchMeansNoPurging(s, c, heldBlocks);
      var commitBatch := commit && batchFailures == 0;
      StartEnding(s, c, heldBlocks, commitBatch);
      ghost var m: nat := 0;
      var next := firstBatchPlusOne;
      while next != 0
        invariant Inv(V(), {}, {}) && Ending(s, V(), m, commitBatch) && next == Front(batchQ)
        invariant Config() == c && heldBlocks == old(heldBlocks)
        decreases |batchQ|
      {
        next := EndOne(next - 1, s, m, commitBatch);
        m := m + 1;
      }
      batchSize, firstBatchPlusOne, batchFailures := 0, 0, 0;
      BatchDone(s, V(), m, commitBatch);
      BatchOuter(s, V(), m, commitBatch, c, heldBlocks);
      return Ok;
    }

    // ---------- freeing the whole base, and purging ----------

    /** FreeAllHandles. */
    method FreeAllHandles()
      requires Inv(V(), {}, {}) && batchQ == []
      modifies this
      ensures Inv(V(), {}, {}) && batchQ == [] && AllFreeFrom(V(), 0)
      ensures Config() == old(Config()) && heldBlocks == old(heldBlocks) && |slots| == old(|slots|)
    {
      hide Inv, Gone, PostOrder, WellFormed, Elems, AllFreeFrom, EmptyBelow;
      Sizes(V(), {}, {});
      if freeCount == |slots| {
        CountedFree(V());
        return;
      }
      var i := 0;
      NothingBelow(V());
      while i < |slots|
        invariant i <= |slots| == old(|slots|) && Inv(V(), {}, {}) && batchQ == [] && EmptyBelow(V(), i)
        invariant Config() == old(Config()) && heldBlocks == old(heldBlocks)
      {
        Sizes(V(), {}, {});
        if slots[i].typ != NO_TYPE {
          ghost var s := V();
          FreeHandle(i, {}, {});
          EmptyStays(s, V(), i);
          if freeCount == |slots| {
            CountedFree(V());
            return;
          }
        }
        EmptyMore(V(), i);
        i := i + 1;
      }
      EmptyIsFree(V());
    }

    /** PVRSRVFreeHandleBase, up to the release of the base itself: every handle is gone and
        every block of handle structures has been given back. */
    method FreeHandleBase(heap: Heap, junk: nat -> Slot) returns (e: Error)
      requires Valid()
      modifies this
      ensures e == Ok && slots == [] && heldBlocks == 0 && index == map[]
    {
      hide Inv, OuterOf, AllFreeFrom, Resized, BatchEnded;
      if batchSize != 0 {
        BatchMeansNoPurging(V(), Config(), heldBlocks);
        var e' := EndHandleBatch(false);
      }
      NoBatchLeft(V(), Config(), heldBlocks);
      BlockCount(V());
      FreeAllHandles();
      ghost var s := V();
      BlockCount(s);
      ghost var added;
      e, added := ReallocHandleArray(0, heap, junk);
      AllGone(s, V(), e, added, heap);
    }

    /** PVRSRVEnableHandlePurging: only before the first handle. */
    method EnableHandlePurging() returns (e: Error)
      requires Valid()
      modifies `purging
      ensures Valid() && (e == Ok <==> old(purging) || slots == [])
      ensures e == (if e == Ok then Ok else InvalidParams) && purging == (e == Ok)
    {
      hide Inv, OuterOf;
      if purging {
        return Ok;
      }
      if |slots| != 0 {
        return InvalidParams;
      }
      PurgingStarts(V(), Config(), heldBlocks);
      purging := true;
      return Ok;
    }

    /** PVRSRVSetMaxHandle: the limit only ever goes down, and only before the first handle. */
    method SetMaxHandle(max: nat) returns (e: Error)
      requires Valid()
      modifies `maxIndexPlusOne
      ensures Valid()
      ensures e == Ok <==> batchSize == 0 && 0 < max <= MAX_HANDLE && slots == []
      ensures maxIndexPlusOne <= old(maxIndexPlusOne) && (e != Ok ==> maxIndexPlusOne == old(maxIndexPlusOne))
      ensures e == Ok && max >= BLOCK_SIZE ==> maxIndexPlusOne <= max
      ensures old(maxIndexPlusOne) != 0 ==> maxIndexPlusOne != 0
    {
      hide Inv, Batches;
      if batchSize != 0 || max == 0 || max > MAX_HANDLE || |slots| != 0 {
        return InvalidParams;
      }
      var rounded := max / BLOCK_SIZE * BLOCK_SIZE;
      if rounded != 0 && rounded < maxIndexPlusOne {
        maxIndexPlusOne := rounded;
      }
      return Ok;
    }

    /** PVRSRVPurgeHandles: drops the free blocks at the end when they are at least half. */
    method PurgeHandles(heap: Heap, junk: nat -> Slot) returns (e: Error)
      requires Valid()
      modifies this
      ensures Valid() && Config() == old(Config()) && Sized(old(V())) && Sized(V()) && Contents() == Handles(old(V()))
      ensures e == NotSupported <==> !old(purging)
      ensures e != Ok ==> V() == old(V())
      ensures e == Ok ==> Purged(old(V()), V())
      ensures old(purging) && heap.index ==> e == Ok
    {
      hide Inv, OuterOf, AllFreeFrom, Resized, Purged, Handles, LastUsed;
      ghost var s := V();
      Sizes(s, {}, {});
      if !purging {
        return NotSupported;
      }
      if batchSize != 0 {
        BatchMeansNoPurging(s, Config(), heldBlocks);
        return InvalidParams;
      }
      NoBatchLeft(s, Config(), heldBlocks);
      BlockCount(s);
      var block: nat := |slots| / BLOCK_SIZE;
      while block != 0
        invariant block <= |blockFree|
        invariant forall b :: block <= b < |blockFree| ==> blockFree[b] == BLOCK_SIZE
      {
        if blockFree[block - 1] != BLOCK_SIZE {
          break;
        }
        block := block - 1;
      }
      FreeBlocksAtEnd(s, block);
      var newCount := block * BLOCK_SIZE;
      e := Ok;
      if newCount <= |slots| / 2 {
        ghost var added;
        e, added := ReallocHandleArray(newCount, heap, junk);
        PurgeDone(s, V(), e, block, added, heap, Config(), heldBlocks);
      } else {
        NothingPurged(s, block);
      }
    }
  }

  /** PVRSRVAllocHandleBase: `memOk` and `hashOk` say whether the base and its hash table can be
      had. */
  method AllocHandleBase(memOk: bool, hashOk: bool) returns (e: Error, base: HandleBase?)
    ensures e == (if !memOk then OutOfMemory else if !hashOk then NoHashTable else Ok) && (e == Ok <==> base != null)
    ensures base != null ==> fresh(base) && base.Valid() && base.V() == EMPTY && Sized(base.V()) && base.Contents() == map[]
                             && base.batchSize == base.batchFailures == 0 && base.maxIndexPlusOne == MAX_INDEX_PLUS_ONE
  {
    base := null;
    if !memOk {
      return OutOfMemory, null;
    }
    if !hashOk {
      return NoHashTable, null;
    }
    base := new HandleBase();
    return Ok, base;
  }
}
