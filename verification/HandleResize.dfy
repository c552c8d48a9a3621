/** Reallocating the slot array: the sizes asked for, in 32-bit arithmetic, and what a failure leaves. */
module HandleResize {
  import opened Machine
  import opened Forests
  import opened HandleState
  import opened HandleInvariant
  import opened HandleGrow
  import opened HandleContents
  import opened HandleShrink
  import opened HandleConfig

  /** What EnsureFreeHandles does: the table as it was, or grown by the slots `added`. */
  ghost predicate Ensured(s: View, t: View, e: Error, n: nat, added: seq<Slot>) {
    && (n <= s.freeCount ==> e == Ok && t == s)
    && (e != Ok ==> t == s && (e == OutOfMemory || e == InvalidParams))
    && (e == Ok && n > s.freeCount ==> Grew(s, t, added))
    && (e == Ok ==> t.freeCount >= n)
  }

  lemma EnsureDone(s: View, t: View, e: Error, n: nat, added: seq<Slot>)
    requires n <= s.freeCount || e != Ok ==> t == s
    requires e == Ok || e == OutOfMemory || e == InvalidParams
    requires n <= s.freeCount ==> e == Ok
    requires e == Ok && n > s.freeCount ==> Grew(s, t, added) && |added| >= n - s.freeCount
    ensures Ensured(s, t, e, n, added)
  {
    hide WellFormed;
    if e == Ok && n > s.freeCount {
      GrewSize(s, t, added);
    }
  }

  /** Making room keeps everything a client sees, whenever growing is safe. */
  lemma AfterEnsure(s: View, t: View, e: Error, n: nat, added: seq<Slot>)
    requires Steady(s) && Ensured(s, t, e, n, added) && (n > s.freeCount ==> GrowSafe(s))
    ensures Steady(t) && Handles(t) == Handles(s) && t.batchQ == s.batchQ && t.index == s.index
    ensures t.purging == s.purging && (t == s || Grew(s, t, added))
  {
    hide WellFormed;
    if t != s {
      GrowKeeps(s, added);
      Sizes(t, {}, {});
      GrowHandles(s, added);
      hide Inv, FreshBlocks;
      BatchGrow(s.f, |added|, s.batchQ);
    }
  }

  /** Growing to n free handles is safe, or not needed. */
  ghost predicate GrowSafeFor(v: View, n: nat) {
    n > v.freeCount ==> GrowSafe(v)
  }

  ghost predicate CanRealloc(oldCount: nat, newCount: nat, purging: bool, heap: Heap) {
    && newCount % BLOCK_SIZE == 0
    && (newCount == 0 || ((newCount > oldCount || purging) && heap.index))
    && (forall b :: oldCount / BLOCK_SIZE <= b < newCount / BLOCK_SIZE ==> heap.block(b))
  }

  ghost predicate Grew(s: View, t: View, added: seq<Slot>) {
    FreshBlocks(added) && s.lastFreePlusOne <= |s.slots| && t == Grown(s, added)
  }

  /** A view with the fields that ReallocHandleArray leaves for a larger array. */
  lemma GrownFields(v: View, t: View, added: seq<Slot>)
    requires v.lastFreePlusOne <= |v.slots|
    requires t.slots == TailTo(v.slots, if v.purging || v.lastFreePlusOne == 0 then 0 else v.firstFree, v.lastFreePlusOne, |v.slots|) + added
    requires t.blockFree == v.blockFree + WholeFree(|added| / BLOCK_SIZE) && t.freeCount == v.freeCount + |added|
    requires t.firstFree == (if v.firstFree == 0 then |v.slots| else v.firstFree)
    requires t.lastFreePlusOne == (if v.purging then v.lastFreePlusOne else |v.slots| + |added|)
    requires t.f == Extended(v.f, |added|) && t.freeQ == v.freeQ + Range(|v.slots|, |v.slots| + |added|)
    requires t.index == v.index && t.purging == v.purging && t.batchQ == v.batchQ
    ensures t == Grown(v, added)
  {
    hide Extended, Range, WholeFree, TailTo;
    var g := Grown(v, added);
    assert t.slots == g.slots;
    assert t.blockFree == g.blockFree;
    assert t.f == g.f;
    assert t.freeQ == g.freeQ;
    assert t.index == g.index && t.batchQ == g.batchQ;
    assert t == g;
  }

  lemma ShrunkFields(v: View, t: View, n: nat)
    requires n <= |v.slots| && n / BLOCK_SIZE <= |v.blockFree| && |v.slots| - n <= v.freeCount
    requires |v.f.kids| == |v.f.up| == |v.f.born| == |v.slots|
    requires t.slots == v.slots[..n] && t.blockFree == v.blockFree[..n / BLOCK_SIZE] && t.freeCount == v.freeCount - (|v.slots| - n)
    requires t.firstFree == (if n == 0 then 0 else v.firstFree) && t.lastFreePlusOne == (if n == 0 then 0 else v.lastFreePlusOne)
    requires t.f == ShrunkForest(v.f, n) && t.freeQ == Without(v.freeQ, From(v, n))
    requires t.index == v.index && t.purging == v.purging && t.batchQ == v.batchQ
    ensures t == Shrunk(v, n)
  {
    hide From, Without, ShrunkForest;
  }

  ghost predicate Shrank(s: View, t: View) {
    var n := |t.slots|;
    && n <= |s.slots| && n / BLOCK_SIZE <= |s.blockFree| && |s.slots| - n <= s.freeCount
    && |s.f.kids| == |s.f.up| == |s.f.born| == |s.slots| && t == Shrunk(s, n)
  }

  /** ReallocHandleArray to n slots: it succeeds exactly when every allocation it needs does
      and the sizes are right, and a failure leaves the table as it was. */
  ghost predicate Resized(s: View, t: View, e: Error, n: nat, added: seq<Slot>, heap: Heap) {
    && (e == Ok <==> n == |s.slots| || CanRealloc(|s.slots|, n, s.purging, heap))
    && (e != Ok || n == |s.slots| ==> t == s)
    && (e == Ok || e == OutOfMemory || e == InvalidParams)
    && (e == Ok ==> |t.slots| == n)
    && (e == Ok && n > |s.slots| ==> Grew(s, t, added))
    && (e == Ok && n < |s.slots| ==> Shrank(s, t))
  }

  lemma NotResized(s: View, n: nat, heap: Heap)
    ensures n == |s.slots| ==> Resized(s, s, Ok, n, [], heap)
    ensures n != |s.slots| && !CanRealloc(|s.slots|, n, s.purging, heap) ==>
      Resized(s, s, InvalidParams, n, [], heap) && Resized(s, s, OutOfMemory, n, [], heap)
  {
  }

  lemma ResizedDown(s: View, t: View, n: nat, heap: Heap)
    requires n < |s.slots| && CanRealloc(|s.slots|, n, s.purging, heap) && Shrank(s, t) && |t.slots| == n
    ensures Resized(s, t, Ok, n, [], heap)
  {
  }

  lemma ResizedUp(s: View, t: View, n: nat, added: seq<Slot>, heap: Heap)
    requires n > |s.slots| && CanRealloc(|s.slots|, n, s.purging, heap) && Grew(s, t, added) && |t.slots| == n
    ensures Resized(s, t, Ok, n, added, heap)
  {
  }

  lemma ResizedMeans(s: View, t: View, e: Error, n: nat, added: seq<Slot>, heap: Heap)
    requires Resized(s, t, e, n, added, heap) && n > |s.slots| && n % BLOCK_SIZE == 0
    ensures e != Ok ==> t == s && (e == OutOfMemory || e == InvalidParams)
    ensures e == Ok ==> Grew(s, t, added) && |t.slots| == n == |s.slots| + |added| && t.freeCount == s.freeCount + |added|
    ensures heap.index && (forall b :: heap.block(b)) ==> e == Ok
  {
  }

  /** The structures of one block as ReallocHandleArray initialises them. */
  function BlankBlock(start: nat, junk: nat -> Slot): (r: seq<Slot>)
    ensures |r| == BLOCK_SIZE && forall s :: 0 <= s < |r| ==> Blank(r[s])
  {
    seq(BLOCK_SIZE, s requires 0 <= s < BLOCK_SIZE =>
      junk(start + s).(typ := NO_TYPE, batched := false, partFree := false, nextPlusOne := 0))
  }

  ghost function Trues(s: seq<bool>): nat {
    if s == [] then 0 else Trues(s[..|s| - 1]) + (if s[|s| - 1] then 1 else 0)
  }

  lemma ReallocFacts(v: View, newCount: nat)
    requires Inv(v, {}, {}) && (newCount < |v.slots| ==> AllFreeFrom(v, newCount))
    ensures |v.blockFree| * BLOCK_SIZE == |v.slots| && v.lastFreePlusOne <= |v.slots|
    ensures v.firstFree != 0 && !v.purging ==> v.lastFreePlusOne != 0
    ensures |v.f.kids| == |v.f.up| == |v.f.born| == |v.slots|
    ensures newCount < |v.slots| && newCount % BLOCK_SIZE == 0 ==> |v.slots| - newCount <= v.freeCount
  {
    hide WellFormed;
    LastFreeInRange(v, {});
    if newCount < |v.slots| && newCount % BLOCK_SIZE == 0 {
      ShrinkSizes(v, newCount);
    }
  }

  lemma BlankIsFresh(more: seq<Slot>)
    requires more != [] && |more| % BLOCK_SIZE == 0 && forall s :: 0 <= s < |more| ==> Blank(more[s])
    ensures FreshBlocks(more)
  {
  }

  /** ROUND_UP_TO_MULTIPLE_OF_BLOCK_SIZE on 32 bits. */
  function RoundedUp(a: nat): nat {
    (a + BLOCK_SIZE - 1) % TWO_32 / BLOCK_SIZE * BLOCK_SIZE
  }

  lemma RoundedUpValue(a: nat)
    requires 0 < a < TWO_32
    ensures RoundedUp(a) % BLOCK_SIZE == 0 && RoundedUp(a) < TWO_32
    ensures a <= TWO_32 - BLOCK_SIZE ==> a <= RoundedUp(a) <= a + BLOCK_SIZE - 1
    ensures a > TWO_32 - BLOCK_SIZE ==> RoundedUp(a) == 0
  {
    var s := a + BLOCK_SIZE - 1;
    if s < TWO_32 {
      assert s % TWO_32 == s;
    } else {
      assert s % TWO_32 == s - TWO_32 < BLOCK_SIZE;
    }
  }

  lemma RoundUp(delta: nat, total: nat, max: nat)
    requires 0 < delta < TWO_32 && total <= max <= MAX_INDEX_PLUS_ONE && total % BLOCK_SIZE == 0 && max % BLOCK_SIZE == 0
    ensures var newTotal := (total + RoundedUp(delta)) % TWO_32;
            && newTotal % BLOCK_SIZE == 0
            && (total < newTotal <= max ==> delta <= newTotal - total)
            && (delta <= max - total ==> total < newTotal <= max)
  {
    RoundedUpValue(delta);
    hide RoundedUp;
    var r := RoundedUp(delta);
    var sum := total + r;
    WrapSum(sum);
    Multiples(total / BLOCK_SIZE, r / BLOCK_SIZE);
    Multiples(max / BLOCK_SIZE - total / BLOCK_SIZE, 0);
    if delta <= max - total {
      AboveMultiple(delta, (max - total) / BLOCK_SIZE, r / BLOCK_SIZE);
    }
  }

  /** The size IncreaseHandleArraySize asks for, 0 when the limit is too low for delta. */
  function NewTotal(delta: nat, total: nat, max: nat): nat
    requires total <= max
  {
    var newTotal := (total + RoundedUp(delta)) % TWO_32;
    if newTotal > max || newTotal <= total then (if max - total < delta then 0 else max) else newTotal
  }

  lemma NewTotalFits(delta: nat, total: nat, max: nat)
    requires 0 < delta < TWO_32 && total <= max <= MAX_INDEX_PLUS_ONE && total % BLOCK_SIZE == 0 && max % BLOCK_SIZE == 0
    ensures var t := NewTotal(delta, total, max);
            && t % BLOCK_SIZE == 0 && (t != 0 ==> total + delta <= t <= max)
            && (t == 0 <==> delta > max - total)
  {
    RoundUp(delta, total, max);
    hide RoundedUp;
  }

  lemma WrapSum(sum: nat)
    requires sum < 2 * TWO_32
    ensures sum % TWO_32 == if sum < TWO_32 then sum else sum - TWO_32
  {
  }

  lemma Multiples(a: nat, b: nat)
    ensures (a * BLOCK_SIZE + b * BLOCK_SIZE) % BLOCK_SIZE == 0
    ensures a * BLOCK_SIZE + b * BLOCK_SIZE >= TWO_32 ==> (a * BLOCK_SIZE + b * BLOCK_SIZE - TWO_32) % BLOCK_SIZE == 0
  {
    assert (a + b) * BLOCK_SIZE % BLOCK_SIZE == 0;
  }

  lemma AboveMultiple(x: nat, m: nat, r: nat)
    requires x <= m * BLOCK_SIZE && r * BLOCK_SIZE <= x + BLOCK_SIZE - 1
    ensures r <= m
  {
  }

  lemma GrewSize(s: View, t: View, added: seq<Slot>)
    requires Grew(s, t, added)
    ensures |t.slots| == |s.slots| + |added| && t.freeCount == s.freeCount + |added|
  {
  }
}
