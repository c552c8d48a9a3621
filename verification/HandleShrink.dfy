/** Dropping free slots from the end of the slot array. */
module HandleShrink {
  import opened Forests
  import opened HandleState
  import opened HandleInvariant
  import opened HandleGrow
  import opened HandleContents

  ghost predicate AllFreeFrom(v: View, n: nat) {
    forall j :: n <= j < |v.slots| ==> j in v.freeQ
  }

  ghost function From(v: View, n: nat): set<nat> {
    Interval(n, |v.slots|)
  }

  ghost function Interval(lo: nat, hi: nat): (r: set<nat>)
    ensures forall x :: x in r <==> lo <= x < hi
    ensures lo <= hi ==> |r| == hi - lo
  {
    if lo >= hi then {} else Interval(lo, hi - 1) + {hi - 1}
  }

  ghost function ShrunkForest(f: Forest, n: nat): Forest
    requires n <= |f.kids| == |f.up| == |f.born|
  {
    Forest(f.kids[..n], f.up[..n], f.born[..n], f.clock)
  }

  /** The field updates of ReallocHandleArray when the new count is smaller. */
  ghost function Shrunk(v: View, n: nat): View
    requires n <= |v.slots| && n / BLOCK_SIZE <= |v.blockFree| && |v.slots| - n <= v.freeCount
    requires |v.f.kids| == |v.f.up| == |v.f.born| == |v.slots|
  {
    v.(slots := v.slots[..n], blockFree := v.blockFree[..n / BLOCK_SIZE],
       freeCount := v.freeCount - (|v.slots| - n),
       firstFree := if n == 0 then 0 else v.firstFree,
       lastFreePlusOne := if n == 0 then 0 else v.lastFreePlusOne,
       f := ShrunkForest(v.f, n),
       freeQ := Without(v.freeQ, From(v, n)))
  }

  lemma {:induction false} WithoutLength(q: seq<nat>, u: set<nat>)
    requires Distinct(q) && forall x :: x in u ==> x in q
    ensures |Without(q, u)| == |q| - |u|
  {
    if q == [] {
      assert u == {};
    } else {
      var r, x := q[..|q| - 1], q[|q| - 1];
      assert q == r + [x];
      WithoutLength(r, u - {x});
      WithoutIgnores(r, u, x);
      if x in u {
        assert |u - {x}| == |u| - 1;
      } else {
        assert u - {x} == u;
      }
    }
  }

  lemma {:induction false} WithoutIgnores(q: seq<nat>, u: set<nat>, x: nat)
    requires x !in q
    ensures Without(q, u) == Without(q, u - {x})
  {
    if q != [] {
      assert q[|q| - 1] in q;
      WithoutIgnores(q[..|q| - 1], u, x);
    }
  }

  /** The free count covers the slots about to go. */
  lemma ShrinkSizes(v: View, n: nat)
    requires Inv(v, {}, {}) && n <= |v.slots| && AllFreeFrom(v, n) && n % BLOCK_SIZE == 0
    ensures n / BLOCK_SIZE <= |v.blockFree| && |v.slots| - n <= v.freeCount
    ensures |v.f.kids| == |v.f.up| == |v.f.born| == |v.slots|
    ensures |Without(v.freeQ, From(v, n))| == v.freeCount - (|v.slots| - n)
  {
    hide WellFormed, Linked, Indexed, FreeList, Counted, BatchChain;
    WithoutLength(v.freeQ, From(v, n));
  }

  lemma {:induction false} CountWithout(q: seq<nat>, u: set<nat>, b: nat)
    requires forall x :: x in u ==> x / BLOCK_SIZE != b
    ensures CountIn(Without(q, u), b) == CountIn(q, b)
  {
    if q != [] {
      var r, x := q[..|q| - 1], q[|q| - 1];
      CountWithout(r, u, b);
      if x in u {
        assert Without(q, u) == Without(r, u);
      } else {
        assert Without(q, u) == Without(r, u) + [x];
        assert (Without(r, u) + [x])[..|Without(r, u)|] == Without(r, u);
      }
    }
  }

  lemma ShrinkForest(f: Forest, n: nat)
    requires WellFormed(f) && n <= |f.kids|
    requires forall j :: n <= j < |f.kids| ==> f.kids[j] == [] && f.up[j] == 0
    ensures WellFormed(ShrunkForest(f, n))
  {
    var g := ShrunkForest(f, n);
    SameSizes(f);
    forall p | 0 <= p < n
      ensures Adopts(g, p)
    {
      ShrinkAdopts(f, n, p);
    }
    forall c | 0 <= c < n && g.up[c] != 0
      ensures g.up[c] <= |g.kids| && c in g.kids[g.up[c] - 1]
    {
      ParentAt(f, c);
    }
    hide Adopts;
  }

  lemma ShrinkAdopts(f: Forest, n: nat, p: nat)
    requires WellFormed(f) && p < n <= |f.kids|
    requires forall j :: n <= j < |f.kids| ==> f.up[j] == 0
    ensures |f.kids| == |f.up| == |f.born| && Adopts(ShrunkForest(f, n), p)
  {
    SameSizes(f);
    assert Adopts(f, p) by { assert f.kids[p] == f.kids[p]; }
    hide WellFormed;
  }

  lemma FreeSlotIsBare(v: View, j: nat)
    requires Inv(v, {}, {}) && j in v.freeQ
    ensures j < |v.slots| && v.slots[j].typ == NO_TYPE && v.f.kids[j] == [] && v.f.up[j] == 0
  {
    hide WellFormed;
    assert SlotOwned(v, {}, j) by { assert j < |v.slots| && v.slots[j] == v.slots[j]; }
  }

  lemma ShrinkShape(v: View, n: nat)
    requires Inv(v, {}, {}) && n <= |v.slots| && AllFreeFrom(v, n) && n % BLOCK_SIZE == 0
    requires n / BLOCK_SIZE <= |v.blockFree| && |v.slots| - n <= v.freeCount
    requires |v.f.kids| == |v.f.up| == |v.f.born| == |v.slots|
    ensures Shape(Shrunk(v, n))
  {
    hide WellFormed;
    ShrinkSizes(v, n);
    Sizes(v, {}, {});
    hide Inv;
    forall j | n <= j < |v.slots|
      ensures v.f.kids[j] == [] && v.f.up[j] == 0
    {
      FreeSlotIsBare(v, j);
    }
    ShrinkForest(v.f, n);
  }

  lemma ShrinkOwned(v: View, n: nat)
    requires Inv(v, {}, {}) && n <= |v.slots| && AllFreeFrom(v, n) && n % BLOCK_SIZE == 0 && v.batchQ == []
    requires n / BLOCK_SIZE <= |v.blockFree| && |v.slots| - n <= v.freeCount
    requires |v.f.kids| == |v.f.up| == |v.f.born| == |v.slots|
    ensures Shape(Shrunk(v, n)) && Owned(Shrunk(v, n), {})
  {
    var t := Shrunk(v, n);
    ShrinkShape(v, n);
    OwnedDistinct(v);
    WithoutDistinct(v.freeQ, From(v, n));
    WithoutMembers(v.freeQ, From(v, n));
    forall j | 0 <= j < n
      ensures SlotOwned(t, {}, j)
    {
      ShrinkSlot(v, n, j);
    }
    hide WellFormed, Linked, Indexed, FreeList, Counted, BatchChain, Dying, Distinct, SlotOwned;
  }

  lemma ShrinkSlot(v: View, n: nat, j: nat)
    requires Inv(v, {}, {}) && j < n <= |v.slots| && v.batchQ == []
    requires n / BLOCK_SIZE <= |v.blockFree| && |v.slots| - n <= v.freeCount
    requires |v.f.kids| == |v.f.up| == |v.f.born| == |v.slots| && Shape(Shrunk(v, n))
    ensures SlotOwned(Shrunk(v, n), {}, j)
  {
    hide WellFormed, Linked, Indexed, FreeList, Counted, BatchChain, Dying, Distinct;
    WithoutMembers(v.freeQ, From(v, n));
    assert SlotOwned(v, {}, j) by { assert v.slots[j] == v.slots[j]; }
  }

  lemma ShrinkLinked(v: View, n: nat)
    requires Shape(v) && Linked(v) && n <= |v.slots|
    requires n / BLOCK_SIZE <= |v.blockFree| && |v.slots| - n <= v.freeCount
    requires |v.f.kids| == |v.f.up| == |v.f.born| == |v.slots|
    requires Shape(Shrunk(v, n))
    ensures Linked(Shrunk(v, n))
  {
    var t := Shrunk(v, n);
    WithoutMembers(v.freeQ, From(v, n));
    forall p | 0 <= p < n && p !in t.freeQ
      ensures SlotLinked(t, p)
    {
      assert SlotLinked(v, p) by { assert v.slots[p] == v.slots[p]; }
      assert Adopts(t.f, p) by { assert t.f.kids[p] == t.f.kids[p]; }
      ShrinkRing(v.slots, n, p, v.f.kids[p]);
    }
  }

  lemma ShrinkRing(slots: seq<Slot>, n: nat, p: nat, c: seq<nat>)
    requires n <= |slots| && InRange(slots, p, c) && Ring(slots, p, c) && InRange(slots[..n], p, c)
    ensures Ring(slots[..n], p, c)
  {
    forall m | 0 <= m <= |c|
      ensures RingStep(slots[..n], p, c, m)
    {
      assert RingStep(slots, p, c, m);
    }
  }

  lemma ShrinkIndexed(v: View, n: nat)
    requires Inv(v, {}, {}) && n <= |v.slots| && AllFreeFrom(v, n)
    ensures Indexed(v.slots[..n], v.index, {})
  {
    hide WellFormed;
    forall j | n <= j < |v.slots|
      ensures v.slots[j].typ == NO_TYPE
    {
      assert j in v.freeQ;
    }
    hide Owned, Linked, FreeList, Counted, BatchChain, Shape, Dying;
    forall j | 0 <= j < n
      ensures SlotFound(v.slots[..n], v.index, {}, j)
    {
      assert SlotFound(v.slots, v.index, {}, j);
    }
    forall k | k in v.index
      ensures EntryHeld(v.slots[..n], v.index, {}, k)
    {
      assert EntryHeld(v.slots, v.index, {}, k);
    }
  }

  lemma ShrinkCounted(v: View, n: nat)
    requires Inv(v, {}, {}) && n <= |v.slots| && n % BLOCK_SIZE == 0
    requires n / BLOCK_SIZE <= |v.blockFree| && |v.slots| - n <= v.freeCount
    requires |v.f.kids| == |v.f.up| == |v.f.born| == |v.slots|
    ensures Counted(Shrunk(v, n))
  {
    hide WellFormed, Owned, Linked, Indexed, FreeList, BatchChain;
    forall b | 0 <= b < n / BLOCK_SIZE
      ensures CountIn(Without(v.freeQ, From(v, n)), b) == CountIn(v.freeQ, b)
    {
      forall x | x in From(v, n)
        ensures x / BLOCK_SIZE != b
      {
        InBlock(x, b, b * BLOCK_SIZE);
      }
      CountWithout(v.freeQ, From(v, n), b);
    }
  }

  /** Dropping free slots keeps the invariant: any number of them from a purging base, all
      of them from any base. */
  lemma ShrinkKeeps(v: View, n: nat)
    requires Inv(v, {}, {}) && n <= |v.slots| && AllFreeFrom(v, n) && n % BLOCK_SIZE == 0
    requires v.batchQ == [] && (v.purging || n == 0)
    ensures n / BLOCK_SIZE <= |v.blockFree| && |v.slots| - n <= v.freeCount
    ensures |v.f.kids| == |v.f.up| == |v.f.born| == |v.slots|
    ensures Inv(Shrunk(v, n), {}, {})
  {
    hide WellFormed;
    ShrinkSizes(v, n);
    ShrinkOwned(v, n);
    ShrinkLinked(v, n);
    ShrinkIndexed(v, n);
    ShrinkCounted(v, n);
    ShrinkLists(v, n);
    hide Linked, Indexed, Owned, Counted, FreeList, BatchChain;
  }

  lemma ShrinkLists(v: View, n: nat)
    requires Inv(v, {}, {}) && n <= |v.slots| && AllFreeFrom(v, n) && n % BLOCK_SIZE == 0
    requires v.batchQ == [] && (v.purging || n == 0)
    requires n / BLOCK_SIZE <= |v.blockFree| && |v.slots| - n <= v.freeCount
    requires |v.f.kids| == |v.f.up| == |v.f.born| == |v.slots|
    ensures FreeList(Shrunk(v, n)) && BatchChain(Shrunk(v, n))
  {
    hide WellFormed;
    forall k | 0 <= k < |v.freeQ|
      ensures v.freeQ[k] < |v.slots|
    {
      assert v.freeQ[k] in v.freeQ;
    }
    if n == 0 {
      WithoutAll(v.freeQ, From(v, n));
    }
  }

  /** The handles are the same as before. */
  lemma ShrinkHandles(v: View, n: nat)
    requires Inv(v, {}, {}) && n <= |v.slots| && AllFreeFrom(v, n)
    requires n / BLOCK_SIZE <= |v.blockFree| && |v.slots| - n <= v.freeCount
    requires |v.f.kids| == |v.f.up| == |v.f.born| == |v.slots|
    ensures Handles(Shrunk(v, n)) == Handles(v)
  {
    hide WellFormed;
    forall j | n <= j < |v.slots|
      ensures v.slots[j].typ == NO_TYPE
    {
      assert j in v.freeQ;
    }
    hide Inv, Without;
  }

  // ---------- blocks that are entirely free ----------

  ghost function InBlockSet(q: seq<nat>, b: nat): set<nat> {
    set x | x in q && x / BLOCK_SIZE == b
  }

  lemma {:induction false} CountIsSize(q: seq<nat>, b: nat)
    requires Distinct(q)
    ensures CountIn(q, b) == |InBlockSet(q, b)|
  {
    if q == [] {
      assert InBlockSet(q, b) == {};
    } else {
      var r, x := q[..|q| - 1], q[|q| - 1];
      assert q == r + [x];
      CountIsSize(r, b);
      if x / BLOCK_SIZE == b {
        assert InBlockSet(q, b) == InBlockSet(r, b) + {x};
      } else {
        assert InBlockSet(q, b) == InBlockSet(r, b);
      }
    }
  }

  lemma {:induction false} SubsetSameSize(a: set<nat>, b: set<nat>)
    requires a <= b && |a| == |b|
    ensures a == b
  {
    if a != {} {
      var x :| x in a;
      SubsetSameSize(a - {x}, b - {x});
      assert a == (a - {x}) + {x} && b == (b - {x}) + {x};
    }
  }

  /** A block whose free count is the block size has only free slots. */
  lemma FullBlock(q: seq<nat>, b: nat)
    requires Distinct(q) && CountIn(q, b) == BLOCK_SIZE
    ensures forall j :: b * BLOCK_SIZE <= j < (b + 1) * BLOCK_SIZE ==> j in q
  {
    var all := Interval(b * BLOCK_SIZE, (b + 1) * BLOCK_SIZE);
    CountIsSize(q, b);
    forall x | x in InBlockSet(q, b)
      ensures x in all
    {
      InBlock(x, b, b * BLOCK_SIZE);
    }
    SubsetSameSize(InBlockSet(q, b), all);
    forall j | b * BLOCK_SIZE <= j < (b + 1) * BLOCK_SIZE
      ensures j in q
    {
      assert j in all;
    }
  }
}
