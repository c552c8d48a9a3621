/** Growing the slot array: what it does to the free list, and when it goes wrong. */
module HandleGrow {
  import opened Forests
  import opened HandleState
  import opened HandleInvariant

  // ---------- the free list as a walk ----------

  /** The slots met by following n free-list links from slot i. */
  ghost function Walk(slots: seq<Slot>, i: nat, n: nat): (r: seq<nat>)
    ensures |r| <= n
    decreases n
  {
    if n == 0 || i >= |slots| then [] else [i] + Walk(slots, Follow(slots, i), n - 1)
  }

  lemma {:induction false} ChainIsWalk(slots: seq<Slot>, q: seq<nat>)
    requires forall m :: 0 <= m < |q| ==> q[m] < |slots|
    requires forall m :: 0 <= m < |q| - 1 ==> ChainStep(slots, q, m)
    ensures q != [] ==> Walk(slots, q[0], |q|) == q
  {
    if |q| > 1 {
      forall m | 0 <= m < |q[1..]| - 1
        ensures ChainStep(slots, q[1..], m)
      {
        assert ChainStep(slots, q, m + 1);
      }
      assert ChainStep(slots, q, 0);
      ChainIsWalk(slots, q[1..]);
    } else if |q| == 1 {
      assert Walk(slots, Follow(slots, q[0]), 0) == [];
    }
  }

  /** Slot j may be handed out: it holds no handle and no batch waits for it. */
  ghost predicate IsFree(v: View, j: nat) {
    j < |v.slots| && v.slots[j].typ == NO_TYPE && j !in v.batchQ
  }

  /** Following freeCount links from firstFree meets every free slot once, nothing else,
      and stops at the slot lastFreePlusOne names. */
  ghost predicate ExactFreeList(v: View) {
    var w := Walk(v.slots, v.firstFree, v.freeCount);
    && |w| == v.freeCount && Distinct(w)
    && (forall j :: j in w <==> IsFree(v, j))
    && v.lastFreePlusOne == (if w == [] then 0 else w[|w| - 1] + 1)
  }

  lemma FreeListExact(v: View)
    requires Inv(v, {}, {}) && !v.purging
    ensures ExactFreeList(v) && Walk(v.slots, v.firstFree, v.freeCount) == v.freeQ
  {
    hide WellFormed, Linked, Indexed, Counted, BatchChain, Dying;
    if v.freeQ != [] {
      ChainIsWalk(v.slots, v.freeQ);
    }
    forall j | IsFree(v, j)
      ensures j in v.freeQ
    {
      assert SlotOwned(v, {}, j);
    }
  }

  // ---------- growth ----------

  ghost function Range(lo: nat, hi: nat): (r: seq<nat>)
    ensures lo <= hi ==> |r| == hi - lo && forall k :: 0 <= k < |r| ==> r[k] == lo + k
  {
    if lo >= hi then [] else Range(lo, hi - 1) + [hi - 1]
  }

  /** A slot as ReallocHandleArray leaves it: the ring links hold whatever the memory held. */
  ghost predicate Blank(s: Slot) {
    s.typ == NO_TYPE && !s.batched && !s.partFree && s.nextPlusOne == 0
  }

  ghost predicate FreshBlocks(added: seq<Slot>) {
    added != [] && |added| % BLOCK_SIZE == 0 && forall k :: 0 <= k < |added| ==> Blank(added[k])
  }

  ghost function Extended(f: Forest, n: nat): Forest {
    f.(kids := f.kids + seq(n, _ => []), up := f.up + seq(n, _ => 0), born := f.born + seq(n, _ => 0))
  }

  /** The free counts of new blocks. */
  function WholeFree(blocks: nat): (r: seq<nat>)
    ensures |r| == blocks && forall b :: 0 <= b < blocks ==> r[b] == BLOCK_SIZE
  {
    seq(blocks, _ => BLOCK_SIZE)
  }

  /** The field updates at the end of ReallocHandleArray, with the bad first-index test kept. */
  ghost function Grown(v: View, added: seq<Slot>): View
    requires v.lastFreePlusOne <= |v.slots|
  {
    var n := |v.slots| + |added|;
    v.(slots := TailTo(v.slots, if v.purging || v.lastFreePlusOne == 0 then 0 else v.firstFree,
                       v.lastFreePlusOne, |v.slots|) + added,
       blockFree := v.blockFree + WholeFree(|added| / BLOCK_SIZE),
       freeCount := v.freeCount + |added|,
       firstFree := if v.firstFree == 0 then |v.slots| else v.firstFree,
       lastFreePlusOne := if v.purging then v.lastFreePlusOne else n,
       f := Extended(v.f, |added|),
       freeQ := v.freeQ + Range(|v.slots|, n))
  }

  /** The assertion at handle.c:664: index 0 must not be the head of a non-empty free list. */
  ghost predicate GrowSafe(v: View) {
    v.purging || v.firstFree != 0 || v.freeCount == 0
  }

  lemma {:induction false} CountConcat(q: seq<nat>, r: seq<nat>, b: nat)
    ensures CountIn(q + r, b) == CountIn(q, b) + CountIn(r, b)
  {
    if r == [] {
      assert q + r == q;
    } else {
      assert (q + r)[..|q + r| - 1] == q + r[..|r| - 1];
      CountConcat(q, r[..|r| - 1], b);
    }
  }

  lemma {:induction false} CountNone(q: seq<nat>, b: nat)
    requires forall m :: 0 <= m < |q| ==> q[m] / BLOCK_SIZE != b
    ensures CountIn(q, b) == 0
  {
    if q != [] {
      CountNone(q[..|q| - 1], b);
    }
  }

  lemma InBlock(x: nat, b: nat, start: nat)
    requires start == b * BLOCK_SIZE
    ensures x / BLOCK_SIZE == b <==> start <= x < start + BLOCK_SIZE
  {
  }

  /** A run of indices starting on a block boundary fills block b, which begins at `start`. */
  lemma {:induction false} CountRange(lo: nat, hi: nat, b: nat, start: nat)
    requires start == b * BLOCK_SIZE && lo <= hi && (lo <= start || start + BLOCK_SIZE <= lo)
    ensures lo <= start && start + BLOCK_SIZE <= hi ==> CountIn(Range(lo, hi), b) == BLOCK_SIZE
    ensures start + BLOCK_SIZE <= lo || hi <= start ==> CountIn(Range(lo, hi), b) == 0
    ensures lo <= start <= hi <= start + BLOCK_SIZE ==> CountIn(Range(lo, hi), b) == hi - start
    decreases hi
  {
    if lo < hi {
      CountRange(lo, hi - 1, b, start);
      CountNext(lo, hi, b);
      InBlock(hi - 1, b, start);
    }
  }

  lemma CountNext(lo: nat, hi: nat, b: nat)
    requires lo < hi
    ensures CountIn(Range(lo, hi), b) == CountIn(Range(lo, hi - 1), b) + (if (hi - 1) / BLOCK_SIZE == b then 1 else 0)
  {
    CountLast(Range(lo, hi - 1), hi - 1, b);
    hide CountIn;
  }

  lemma CountLast(q: seq<nat>, x: nat, b: nat)
    ensures CountIn(q + [x], b) == CountIn(q, b) + (if x / BLOCK_SIZE == b then 1 else 0)
  {
    assert (q + [x])[..|q|] == q;
  }

  lemma ExtendedWellFormed(f: Forest, n: nat)
    requires WellFormed(f) && f.clock > 0
    ensures WellFormed(Extended(f, n))
  {
    var g := Extended(f, n);
    forall p | 0 <= p < |g.kids|
      ensures Adopts(g, p)
    {
      assert p < |f.kids| ==> Adopts(f, p) && g.kids[p] == f.kids[p];
    }
  }

  lemma GrowCount(q: seq<nat>, n: nat, t: nat, b: nat, start: nat)
    requires forall m :: 0 <= m < |q| ==> q[m] < n
    requires start == b * BLOCK_SIZE && n <= t && start + BLOCK_SIZE <= t && (n <= start || start + BLOCK_SIZE <= n)
    ensures CountIn(q + Range(n, t), b) == if start < n then CountIn(q, b) else BLOCK_SIZE
  {
    CountConcat(q, Range(n, t), b);
    CountRange(n, t, b, start);
    if n <= start {
      forall m | 0 <= m < |q|
        ensures q[m] / BLOCK_SIZE != b
      {
        InBlock(q[m], b, start);
      }
      CountNone(q, b);
    }
  }

  /** A block lies before, or not before, a number of whole blocks. */
  lemma WholeBlocks(b: nat, blocks: nat)
    ensures if b < blocks then b * BLOCK_SIZE + BLOCK_SIZE <= blocks * BLOCK_SIZE else blocks * BLOCK_SIZE <= b * BLOCK_SIZE
  {
  }

  lemma FreeInRange(v: View)
    requires Inv(v, {}, {})
    ensures Shape(v) && Counted(v) && forall m :: 0 <= m < |v.freeQ| ==> v.freeQ[m] < |v.slots|
  {
    hide Linked, Indexed, FreeList, BatchChain, Dying, WellFormed;
    forall m | 0 <= m < |v.freeQ|
      ensures v.freeQ[m] < |v.slots|
    {
      assert v.freeQ[m] in v.freeQ;
    }
  }

  lemma GrowCounted(v: View, added: seq<Slot>)
    requires Inv(v, {}, {}) && FreshBlocks(added) && v.lastFreePlusOne <= |v.slots|
    ensures Counted(Grown(v, added))
  {
    hide Inv, WellFormed, Range, CountIn, TailTo, Extended;
    FreeInRange(v);
    var t, blocks, more := Grown(v, added), |v.blockFree|, |added| / BLOCK_SIZE;
    forall b | 0 <= b < |t.blockFree|
      ensures t.blockFree[b] == CountIn(t.freeQ, b)
    {
      WholeBlocks(b, blocks);
      WholeBlocks(b, blocks + more);
      GrowCount(v.freeQ, |v.slots|, |v.slots| + |added|, b, b * BLOCK_SIZE);
    }
  }

  /** The grown free list is the old one followed by the new slots. */
  lemma GrownQueue(q: seq<nat>, n: nat, t: nat)
    requires Distinct(q) && n <= t && forall j :: j in q ==> j < n
    ensures Distinct(q + Range(n, t)) && forall j :: j in q + Range(n, t) <==> j in q || n <= j < t
  {
    var r := q + Range(n, t);
    forall a, b | 0 <= a < b < |r|
      ensures r[a] != r[b]
    {
      assert a < |q| ==> q[a] in q;
    }
    forall j | n <= j < t
      ensures j in r
    {
      assert r[|q| + j - n] == j;
    }
  }

  lemma TailIsFree(v: View)
    requires Inv(v, {}, {}) && v.lastFreePlusOne != 0 && v.lastFreePlusOne <= |v.slots|
    ensures v.slots[v.lastFreePlusOne - 1].typ == NO_TYPE
  {
    hide WellFormed, Linked, Indexed, Counted, BatchChain, Dying;
    LastFreeInRange(v, {});
  }

  lemma GrowSlotOwned(v: View, added: seq<Slot>, j: nat)
    requires Inv(v, {}, {}) && FreshBlocks(added) && v.lastFreePlusOne <= |v.slots| && j < |v.slots| + |added|
    requires Shape(Grown(v, added)) && forall k :: k in v.freeQ ==> k in Grown(v, added).freeQ
    ensures SlotOwned(Grown(v, added), {}, j)
  {
    hide WellFormed, Linked, Indexed, Counted, FreeList, BatchChain, Dying, Range;
    GrowSlots(v, added, j);
    if j < |v.slots| {
      if v.lastFreePlusOne != 0 {
        TailIsFree(v);
      }
      assert SlotOwned(v, {}, j);
      hide Owned;
    } else {
      hide Owned;
      assert Blank(added[j - |v.slots|]);
    }
  }

  lemma GrownShape(v: View, added: seq<Slot>)
    requires Inv(v, {}, {}) && FreshBlocks(added) && v.lastFreePlusOne <= |v.slots| && v.f.clock > 0
    ensures Shape(Grown(v, added))
  {
    hide WellFormed, Linked, Indexed, Counted, FreeList, BatchChain, Dying, Owned, TailTo;
    ExtendedWellFormed(v.f, |added|);
  }

  lemma GrowOwned(v: View, added: seq<Slot>)
    requires Inv(v, {}, {}) && FreshBlocks(added) && v.lastFreePlusOne <= |v.slots| && v.f.clock > 0
    ensures Shape(Grown(v, added)) && Owned(Grown(v, added), {})
  {
    hide WellFormed, Linked, Indexed, Counted, FreeList, BatchChain, Dying, TailTo, Range, Distinct, SlotOwned, Extended, FreshBlocks;
    GrownShape(v, added);
    GrownQueue(v.freeQ, |v.slots|, |v.slots| + |added|);
    var t, n := Grown(v, added), |v.slots|;
    forall j | j in t.freeQ
      ensures j < |t.slots| && t.slots[j].typ == NO_TYPE && j !in t.batchQ
    {
      assert j in v.freeQ || n <= j < n + |added|;
      GrowSlots(v, added, j);
    }
    forall j | j in t.batchQ
      ensures j < |t.slots| && t.slots[j].batched && (t.slots[j].partFree <==> t.slots[j].typ == NO_TYPE)
    {
      GrowSlots(v, added, j);
    }
    forall j | 0 <= j < |t.slots|
      ensures SlotOwned(t, {}, j)
    {
      GrowSlotOwned(v, added, j);
    }
  }

  lemma GrowLinked(v: View, t: View)
    requires Shape(v) && Linked(v) && Shape(t) && |v.slots| <= |t.slots|
    requires t.f.kids[..|v.slots|] == v.f.kids && t.f.up[..|v.slots|] == v.f.up
    requires forall j :: j in v.freeQ ==> j in t.freeQ
    requires forall j :: |v.slots| <= j < |t.slots| ==> j in t.freeQ
    requires forall j :: 0 <= j < |v.slots| ==> t.slots[j].(nextPlusOne := v.slots[j].nextPlusOne) == v.slots[j]
    ensures Linked(t)
  {
    hide WellFormed;
    forall p | 0 <= p < |t.slots| && p !in t.freeQ
      ensures SlotLinked(t, p)
    {
      assert SlotLinked(v, p) by { assert v.slots[p] == v.slots[p]; }
      assert t.f.kids[p] == t.f.kids[..|v.slots|][p] && t.f.up[p] == t.f.up[..|v.slots|][p];
      GrowRing(v.slots, t.slots, p, v.f.kids[p]);
    }
  }

  lemma GrowRing(a: seq<Slot>, b: seq<Slot>, p: nat, c: seq<nat>)
    requires InRange(a, p, c) && Ring(a, p, c) && |a| <= |b|
    requires forall j :: 0 <= j < |a| ==> b[j].(nextPlusOne := a[j].nextPlusOne) == a[j]
    ensures InRange(b, p, c) && Ring(b, p, c)
  {
    assert forall j :: 0 <= j < |a| ==> b[j].children == a[j].children && b[j].siblings == a[j].siblings;
    RingFrame(a, b[..|a|], p, c);
    forall m | 0 <= m <= |c|
      ensures RingStep(b, p, c, m)
    {
      assert RingStep(b[..|a|], p, c, m);
    }
  }

  lemma GrowIndexed(a: seq<Slot>, b: seq<Slot>, index: map<Key, nat>)
    requires Indexed(a, index, {}) && |a| <= |b|
    requires forall j :: 0 <= j < |a| ==> b[j].(nextPlusOne := a[j].nextPlusOne) == a[j]
    requires forall j :: |a| <= j < |b| ==> b[j].typ == NO_TYPE
    ensures Indexed(b, index, {})
  {
    assert forall j :: 0 <= j < |a| ==> KeyOf(b[j]) == KeyOf(a[j]);
    forall j | 0 <= j < |b|
      ensures SlotFound(b, index, {}, j)
    {
      assert j < |a| ==> SlotFound(a, index, {}, j);
    }
    forall k | k in index
      ensures EntryHeld(b, index, {}, k)
    {
      assert EntryHeld(a, index, {}, k);
    }
  }

  ghost function TailTo(slots: seq<Slot>, first: nat, lastPlusOne: nat, n: nat): (r: seq<Slot>)
    requires lastPlusOne <= |slots| && (first != 0 ==> lastPlusOne != 0)
    ensures |r| == |slots|
  {
    if first != 0 then slots[lastPlusOne - 1 := slots[lastPlusOne - 1].(nextPlusOne := n + 1)] else slots
  }

  lemma GrowStep(slots: seq<Slot>, q: seq<nat>, first: nat, lastPlusOne: nat, added: seq<Slot>,
                 t: seq<Slot>, r: seq<nat>, m: nat)
    requires Chain(slots, q, first, lastPlusOne) && Distinct(q) && FreshBlocks(added)
    requires first != 0 || q == []
    requires lastPlusOne <= |slots| && (first != 0 ==> lastPlusOne != 0)
    requires t == TailTo(slots, first, lastPlusOne, |slots|) + added && r == q + Range(|slots|, |t|)
    requires m < |r|
    ensures r[m] < |t|
    ensures m < |r| - 1 ==> ChainStep(t, r, m)
    ensures m == |r| - 1 ==> r[m] == |t| - 1 && t[r[m]].nextPlusOne == 0
  {
    if m < |q| - 1 {
      assert ChainStep(slots, q, m);
      assert q[m] != q[|q| - 1];
    } else if m >= |q| {
      assert Blank(added[m - |q|]);
    }
  }

  lemma ChainEnds(slots: seq<Slot>, q: seq<nat>, first: nat, lastPlusOne: nat)
    requires Chain(slots, q, first, lastPlusOne)
    ensures lastPlusOne <= |slots| && (first != 0 ==> lastPlusOne != 0) && (q != [] ==> q[0] == first)
  {
  }

  lemma GrowChain(slots: seq<Slot>, q: seq<nat>, first: nat, lastPlusOne: nat, added: seq<Slot>,
                  t: seq<Slot>, r: seq<nat>)
    requires Chain(slots, q, first, lastPlusOne) && Distinct(q) && FreshBlocks(added)
    requires first != 0 || q == []
    requires lastPlusOne <= |slots| && (first != 0 ==> lastPlusOne != 0)
    requires t == TailTo(slots, first, lastPlusOne, |slots|) + added && r == q + Range(|slots|, |t|)
    ensures r != [] && Chain(t, r, r[0], |t|)
  {
    assert |added| > 0 && |r| > 0;
    hide TailTo, FreshBlocks, Follow, Distinct, Range, ChainStep;
    forall m | 0 <= m < |r|
      ensures r[m] < |t| && (m < |r| - 1 ==> ChainStep(t, r, m))
    {
      GrowStep(slots, q, first, lastPlusOne, added, t, r, m);
    }
    GrowStep(slots, q, first, lastPlusOne, added, t, r, |r| - 1);
  }

  lemma GrowBatch(v: View, added: seq<Slot>)
    requires Inv(v, {}, {}) && v.lastFreePlusOne <= |v.slots| && GrowSafe(v)
    ensures BatchChain(Grown(v, added))
  {
    hide WellFormed;
    LastFreeInRange(v, {});
    assert v.lastFreePlusOne != 0 && v.lastFreePlusOne - 1 in v.freeQ ==> v.lastFreePlusOne - 1 !in v.batchQ;
    assert v.firstFree != 0 && !v.purging ==> v.freeQ != [];
    hide Linked, Indexed, Counted, Dying, Shape, Owned, FreeList;
    BatchSame(v, Grown(v, added));
  }

  lemma GrowFields(v: View, added: seq<Slot>)
    requires v.lastFreePlusOne <= |v.slots| && !v.purging && added != []
    requires Chain(v.slots, v.freeQ, v.firstFree, v.lastFreePlusOne) && (v.firstFree != 0 || v.freeQ == [])
    ensures v.firstFree != 0 ==> v.lastFreePlusOne != 0
    ensures var t := Grown(v, added);
            && t.slots == TailTo(v.slots, v.firstFree, v.lastFreePlusOne, |v.slots|) + added
            && t.freeQ == v.freeQ + Range(|v.slots|, |t.slots|) && t.freeQ != []
            && t.firstFree == t.freeQ[0] && t.lastFreePlusOne == |t.slots|
            && t.purging == v.purging
  {
    hide WellFormed;
    ChainEnds(v.slots, v.freeQ, v.firstFree, v.lastFreePlusOne);
    hide Chain, TailTo;
  }

  lemma GrowFree(v: View, added: seq<Slot>)
    requires Inv(v, {}, {}) && FreshBlocks(added) && v.lastFreePlusOne <= |v.slots| && GrowSafe(v)
    ensures FreeList(Grown(v, added))
  {
    hide WellFormed;
    Sizes(v, {}, {});
    OwnedDistinct(v);
    assert v.purging ==> |v.slots| % BLOCK_SIZE == 0;
    assert added != [];
    hide Linked, Indexed, Counted, Dying, Shape, Owned, BatchChain, Distinct, FreshBlocks, TailTo;
    if !v.purging {
      GrowFields(v, added);
      hide Chain, Grown;
      var t := Grown(v, added);
      GrowChain(v.slots, v.freeQ, v.firstFree, v.lastFreePlusOne, added, t.slots, t.freeQ);
    }
  }

  lemma OwnedDistinct(v: View)
    requires Inv(v, {}, {})
    ensures Distinct(v.freeQ)
  {
  }

  /** Growing keeps the whole invariant whenever it is safe. */
  lemma GrowKeeps(v: View, added: seq<Slot>)
    requires Inv(v, {}, {}) && FreshBlocks(added) && GrowSafe(v) && v.f.clock > 0
    ensures v.lastFreePlusOne <= |v.slots| && Inv(Grown(v, added), {}, {})
  {
    hide WellFormed;
    LastFreeInRange(v, {});
    var t := Grown(v, added);
    GrowOwned(v, added);
    GrowCounted(v, added);
    GrowBatch(v, added);
    GrowFree(v, added);
    GrowRest(v, added);
  }

  lemma GrowSlots(v: View, added: seq<Slot>, j: nat)
    requires v.lastFreePlusOne <= |v.slots| && j < |v.slots| + |added| && FreshBlocks(added)
    ensures var t := Grown(v, added);
            && |t.slots| == |v.slots| + |added|
            && (j < |v.slots| ==> t.slots[j].(nextPlusOne := v.slots[j].nextPlusOne) == v.slots[j])
            && (j >= |v.slots| ==> t.slots[j].typ == NO_TYPE && j in t.freeQ)
  {
    hide WellFormed;
    var t, n := Grown(v, added), |v.slots|;
    if j >= n {
      assert t.slots[j] == added[j - n] && Blank(added[j - n]);
      assert t.freeQ[|v.freeQ| + j - n] == Range(n, n + |added|)[j - n] == j;
    }
  }

  lemma GrowRest(v: View, added: seq<Slot>)
    requires Inv(v, {}, {}) && FreshBlocks(added) && v.lastFreePlusOne <= |v.slots|
    requires Shape(Grown(v, added))
    ensures Linked(Grown(v, added)) && Indexed(Grown(v, added).slots, Grown(v, added).index, {})
  {
    hide WellFormed;
    Sizes(v, {}, {});
    var t, n := Grown(v, added), |v.slots|;
    assert t.f.kids[..n] == v.f.kids && t.f.up[..n] == v.f.up && |t.slots| == n + |added|;
    assert forall j :: j in v.freeQ ==> j in t.freeQ;
    hide Shape, Owned, Counted, FreeList, BatchChain, Dying, Linked, Indexed, FreshBlocks;
    forall j | 0 <= j < |t.slots|
      ensures j < n ==> t.slots[j].(nextPlusOne := v.slots[j].nextPlusOne) == v.slots[j]
      ensures j >= n ==> t.slots[j].typ == NO_TYPE && j in t.freeQ
    {
      GrowSlots(v, added, j);
    }
    hide Grown;
    GrowIndexed(v.slots, t.slots, v.index);
    GrowLinked(v, t);
  }

  /** In the unsafe case the walk starts at the new slots and misses the old ones. */
  lemma {:induction false} WalkOfFresh(slots: seq<Slot>, i: nat, n: nat)
    requires i <= |slots| && forall k :: i <= k < |slots| ==> slots[k].nextPlusOne == 0
    ensures forall j :: j in Walk(slots, i, n) ==> i <= j
    decreases n
  {
    if n > 0 && i < |slots| {
      WalkOfFresh(slots, i + 1, n - 1);
    }
  }

  /** Without purging, growing leaves an exact free list if and only if slot 0 was not the
      head of a non-empty one. */
  lemma GrowExactIff(v: View, added: seq<Slot>)
    requires Inv(v, {}, {}) && FreshBlocks(added) && !v.purging && v.f.clock > 0
    ensures v.lastFreePlusOne <= |v.slots|
    ensures ExactFreeList(Grown(v, added)) <==> GrowSafe(v)
  {
    hide WellFormed;
    LastFreeInRange(v, {});
    var t := Grown(v, added);
    if GrowSafe(v) {
      GrowKeeps(v, added);
      FreeListExact(t);
    } else {
      assert 0 in v.freeQ by { assert v.freeQ[0] == 0; }
      assert IsFree(t, 0);
      forall k | |v.slots| <= k < |t.slots|
        ensures t.slots[k].nextPlusOne == 0
      {
        assert Blank(added[k - |v.slots|]);
      }
      WalkOfFresh(t.slots, t.firstFree, t.freeCount);
    }
  }

  ghost const EMPTY: View :=
    View([], [], map[], 0, 0, 0, false, Forest([], [], [], 1), [], [])

  lemma EmptyHolds()
    ensures Inv(EMPTY, {}, {})
  {
  }

  /** A base grown twice before its first handle loses every slot of the first block. */
  lemma GrowTwiceLosesSlots(first: seq<Slot>, second: seq<Slot>)
    requires FreshBlocks(first) && FreshBlocks(second)
    ensures Inv(EMPTY, {}, {}) && Inv(Grown(EMPTY, first), {}, {})
    ensures Grown(EMPTY, first).lastFreePlusOne <= |first|
    ensures !ExactFreeList(Grown(Grown(EMPTY, first), second))
  {
    EmptyHolds();
    GrowKeeps(EMPTY, first);
    GrowExactIff(Grown(EMPTY, first), second);
  }
}
