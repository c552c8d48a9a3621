/** The invariant of a handle base and the elementary steps that keep it. */
module HandleInvariant {
  import opened Forests
  import opened HandleState

  // ---------- the four views of one state ----------

  ghost predicate Shape(v: View) {
    && |v.slots| % BLOCK_SIZE == 0 && |v.blockFree| * BLOCK_SIZE == |v.slots|
    && |v.f.kids| == |v.f.up| == |v.f.born| == |v.slots| && WellFormed(v.f)
    && v.freeCount == |v.freeQ|
  }

  /** Slot j is on the free list, holds a handle, or waits for its batch to end; slots in
      `limbo` are between two of these. */
  ghost predicate SlotOwned(v: View, limbo: set<nat>, j: nat)
    requires Shape(v) && j < |v.slots|
  {
    var s := v.slots[j];
    && (s.typ == NO_TYPE ==> (j in v.freeQ || j in v.batchQ || j in limbo) && v.f.up[j] == 0 && v.f.kids[j] == [])
    && (s.typ != NO_TYPE ==> !s.partFree && (s.batched ==> j in v.batchQ) && (!s.batched ==> s.nextPlusOne == 0))
    && (v.purging ==> !s.batched && !s.partFree)
  }

  ghost predicate Owned(v: View, limbo: set<nat>)
    requires Shape(v)
  {
    && Distinct(v.freeQ) && Distinct(v.batchQ)
    && (v.purging ==> v.batchQ == [])
    && (forall j {:trigger j in v.freeQ} :: j in v.freeQ ==>
          j < |v.slots| && v.slots[j].typ == NO_TYPE && j !in v.batchQ && j !in limbo)
    && (forall j {:trigger j in v.batchQ} :: j in v.batchQ ==>
          j < |v.slots| && v.slots[j].batched && (v.slots[j].partFree <==> v.slots[j].typ == NO_TYPE) && j !in limbo)
    && (forall j {:trigger j in limbo} :: j in limbo ==>
          j < |v.slots| && v.slots[j].typ == NO_TYPE && v.slots[j].nextPlusOne == 0)
    && (forall j {:trigger v.slots[j]} :: 0 <= j < |v.slots| ==> SlotOwned(v, limbo, j))
  }

  /** The ring links of every slot in use spell out its children and its parent. */
  ghost predicate SlotLinked(v: View, p: nat)
    requires Shape(v) && p < |v.slots|
  {
    && InRange(v.slots, p, v.f.kids[p]) && Ring(v.slots, p, v.f.kids[p])
    && v.slots[p].siblings.parent == v.f.up[p]
    && (v.f.up[p] == 0 ==> v.slots[p].siblings.next == p == v.slots[p].siblings.prev)
  }

  ghost predicate Linked(v: View)
    requires Shape(v)
  {
    forall p {:trigger v.slots[p]} :: 0 <= p < |v.slots| && p !in v.freeQ ==> SlotLinked(v, p)
  }

  function KeyOf(s: Slot): Key {
    Key(s.data, s.typ, if s.flags.priv then s.siblings.parent else 0)
  }

  ghost predicate IsIndexed(slots: seq<Slot>, dying: set<nat>, j: nat)
    requires j < |slots|
  {
    slots[j].typ != NO_TYPE && !slots[j].flags.multi && j !in dying
  }

  ghost predicate SlotFound(slots: seq<Slot>, index: map<Key, nat>, dying: set<nat>, j: nat)
    requires j < |slots|
  {
    IsIndexed(slots, dying, j) ==> KeyOf(slots[j]) in index && index[KeyOf(slots[j])] == j + 1
  }

  ghost predicate EntryHeld(slots: seq<Slot>, index: map<Key, nat>, dying: set<nat>, k: Key)
    requires k in index
  {
    0 < index[k] <= |slots| && IsIndexed(slots, dying, index[k] - 1) && KeyOf(slots[index[k] - 1]) == k
  }

  /** Hash index and slots agree in both directions; handles being freed are already out. */
  ghost predicate Indexed(slots: seq<Slot>, index: map<Key, nat>, dying: set<nat>) {
    && (forall j :: 0 <= j < |slots| ==> SlotFound(slots, index, dying, j))
    && (forall k :: k in index ==> EntryHeld(slots, index, dying, k))
  }

  /** Dropping the handles in `gone`, and changing nothing else a key depends on, keeps the agreement. */
  lemma IndexCarries(slots: seq<Slot>, index: map<Key, nat>, dying: set<nat>,
                     slots': seq<Slot>, index': map<Key, nat>, dying': set<nat>, gone: set<nat>)
    requires Indexed(slots, index, dying) && |slots'| == |slots|
    requires forall j :: 0 <= j < |slots| ==> (IsIndexed(slots', dying', j) <==> IsIndexed(slots, dying, j) && j !in gone)
    requires forall j :: 0 <= j < |slots| && j !in gone ==> KeyOf(slots'[j]) == KeyOf(slots[j])
    requires forall k :: k in index' <==> k in index && index[k] - 1 !in gone
    requires forall k :: k in index' ==> index'[k] == index[k]
    ensures Indexed(slots', index', dying')
  {
    forall j | 0 <= j < |slots|
      ensures SlotFound(slots', index', dying', j)
    {
      assert SlotFound(slots, index, dying, j);
    }
    forall k | k in index'
      ensures EntryHeld(slots', index', dying', k)
    {
      assert EntryHeld(slots, index, dying, k);
    }
  }

  /** Where the free list goes after slot i: link 0 means the next slot. */
  function Follow(slots: seq<Slot>, i: nat): nat
    requires i < |slots|
  {
    if slots[i].nextPlusOne == 0 then i + 1 else slots[i].nextPlusOne - 1
  }

  ghost predicate ChainStep(slots: seq<Slot>, q: seq<nat>, m: nat)
    requires m + 1 < |q| && q[m] < |slots|
  {
    Follow(slots, q[m]) == q[m + 1]
  }

  ghost predicate Chain(slots: seq<Slot>, q: seq<nat>, first: nat, lastPlusOne: nat) {
    && (forall m :: 0 <= m < |q| ==> q[m] < |slots|)
    && (q == [] ==> first == 0 && lastPlusOne == 0)
    && (q != [] ==> first == q[0] && lastPlusOne == q[|q| - 1] + 1 && slots[q[|q| - 1]].nextPlusOne == 0)
    && (forall m :: 0 <= m < |q| - 1 ==> ChainStep(slots, q, m))
  }

  ghost predicate FreeList(v: View) {
    if v.purging then v.lastFreePlusOne == 0 && v.firstFree % BLOCK_SIZE == 0
    else Chain(v.slots, v.freeQ, v.firstFree, v.lastFreePlusOne)
  }

  /** How many members of q lie in block b. */
  ghost function CountIn(q: seq<nat>, b: nat): nat {
    if q == [] then 0
    else CountIn(q[..|q| - 1], b) + (if q[|q| - 1] / BLOCK_SIZE == b then 1 else 0)
  }

  ghost predicate Counted(v: View) {
    forall b :: 0 <= b < |v.blockFree| ==> v.blockFree[b] == CountIn(v.freeQ, b)
  }

  ghost predicate BatchStep(slots: seq<Slot>, q: seq<nat>, m: nat)
    requires m < |q|
  {
    q[m] < |slots| && slots[q[m]].nextPlusOne == (if m + 1 < |q| then q[m + 1] + 1 else 0)
  }

  ghost predicate BatchChain(v: View) {
    forall m :: 0 <= m < |v.batchQ| ==> BatchStep(v.slots, v.batchQ, m)
  }

  ghost predicate Dying(v: View, dying: set<nat>)
    requires Shape(v)
  {
    forall d {:trigger d in dying} :: d in dying ==> d < |v.slots| && v.slots[d].typ != NO_TYPE && v.f.up[d] == 0
  }

  ghost predicate Inv(v: View, dying: set<nat>, limbo: set<nat>) {
    && Shape(v) && Owned(v, limbo) && Linked(v) && Indexed(v.slots, v.index, dying)
    && FreeList(v) && Counted(v) && BatchChain(v) && Dying(v, dying)
  }

  lemma Sizes(v: View, dying: set<nat>, limbo: set<nat>)
    requires Inv(v, dying, limbo)
    ensures WellFormed(v.f) && |v.f.kids| == |v.f.up| == |v.f.born| == |v.slots|
    ensures Shape(v) && v.freeCount == |v.freeQ|
  {
  }

  // ---------- step 1 of freeing i: out of the index and out of its parent's ring ----------

  /** m is the position of i among its parent's children (any value for a root). */
  ghost predicate ChildAt(v: View, i: nat, m: nat)
    requires Shape(v) && i < |v.slots|
  {
    v.f.up[i] != 0 ==> m < |v.f.kids[v.f.up[i] - 1]| && v.f.kids[v.f.up[i] - 1][m] == i
  }

  ghost function Unringed(v: View, i: nat, m: nat): (r: seq<Slot>)
    requires Shape(v) && Linked(v) && i < |v.slots| && ChildAt(v, i, m)
    requires v.f.up[i] != 0 ==> v.f.up[i] - 1 !in v.freeQ
    ensures |r| == |v.slots|
  {
    if v.f.up[i] == 0 then v.slots else RingWithout(v.slots, v.f.up[i] - 1, v.f.kids[v.f.up[i] - 1], m)
  }

  ghost function Detached(v: View, i: nat, m: nat): View
    requires Shape(v) && Linked(v) && i < |v.slots| && ChildAt(v, i, m)
    requires v.f.up[i] != 0 ==> v.f.up[i] - 1 !in v.freeQ
  {
    v.(slots := Unringed(v, i, m), f := Prune(v.f, {i}),
       index := map k | k in v.index && v.index[k] != i + 1 :: v.index[k])
  }

  /** What the sibling link of i says about its place in its parent's ring. */
  lemma RingSpot(v: View, i: nat, m: nat)
    requires Shape(v) && Linked(v) && i < |v.slots| && i !in v.freeQ && ChildAt(v, i, m)
    requires v.f.up[i] != 0 ==> v.f.up[i] - 1 !in v.freeQ
    ensures v.f.up[i] == 0 ==> v.slots[i].siblings.next == i
    ensures v.f.up[i] != 0 ==>
      var p, c, e := v.f.up[i] - 1, v.f.kids[v.f.up[i] - 1], v.slots[i].siblings;
      && InRange(v.slots, p, c) && e.parent == p + 1 && e.next != i
      && e.prev == At(p, c, m) < |v.slots| && e.next == At(p, c, m + 2) < |v.slots|
  {
    assert SlotLinked(v, i) by { assert v.slots[i] == v.slots[i]; }
    if v.f.up[i] != 0 {
      var p := v.f.up[i] - 1;
      var c := v.f.kids[p];
      assert SlotLinked(v, p) by { assert v.slots[p] == v.slots[p]; }
      assert RingStep(v.slots, p, c, m) && RingStep(v.slots, p, c, m + 1);
      assert At(p, c, m + 1) == i;
      RingDistinct(p, c, m, m + 2);
    }
  }

  /** Parents of handles are handles. */
  lemma ParentInUse(v: View, limbo: set<nat>, i: nat)
    requires Shape(v) && Owned(v, limbo) && i < |v.slots| && v.f.up[i] != 0
    ensures v.f.up[i] <= |v.slots| && v.slots[v.f.up[i] - 1].typ != NO_TYPE && v.f.up[i] - 1 !in v.freeQ
    ensures v.slots[i].typ != NO_TYPE
  {
    assert i in v.f.kids[v.f.up[i] - 1];
  }

  lemma ParentRing(v: View, i: nat, m: nat)
    requires Shape(v) && Linked(v) && i < |v.slots| && ChildAt(v, i, m) && v.f.up[i] != 0
    requires v.f.up[i] - 1 !in v.freeQ
    ensures var p := v.f.up[i] - 1;
            && InRange(v.slots, p, v.f.kids[p])
            && (forall x :: x in v.f.kids[p] ==> x < |v.f.up| && v.f.up[x] == p + 1)
  {
    var p := v.f.up[i] - 1;
    assert SlotLinked(v, p) by { assert v.slots[p] == v.slots[p]; }
  }

  lemma UnringedSlots(v: View, i: nat, m: nat, j: nat)
    requires Shape(v) && Linked(v) && i < |v.slots| && ChildAt(v, i, m) && j < |v.slots|
    requires v.f.up[i] != 0 ==> v.f.up[i] - 1 !in v.freeQ
    ensures SameButRing(v.slots[j], Unringed(v, i, m)[j])
    ensures j != i ==> Unringed(v, i, m)[j].siblings.parent == v.slots[j].siblings.parent
    ensures j != i && v.f.up[j] != v.f.up[i] ==> Unringed(v, i, m)[j].siblings == v.slots[j].siblings
    ensures v.f.up[i] == 0 || j != v.f.up[i] - 1 ==> Unringed(v, i, m)[j].children == v.slots[j].children
    ensures v.f.up[i] != 0 && j == i ==> Unringed(v, i, m)[j].siblings == Link(i, i, 0)
  {
    hide WellFormed;
    if v.f.up[i] != 0 {
      ParentRing(v, i, m);
      hide Shape, Linked, InRange, RingWithout;
      RingWithoutEffect(v.slots, v.f.up[i] - 1, v.f.kids[v.f.up[i] - 1], m, j);
    }
  }

  lemma DetachLinksParent(v: View, i: nat, m: nat)
    requires Shape(v) && Linked(v) && i < |v.slots| && ChildAt(v, i, m) && v.f.up[i] != 0
    requires v.f.up[i] - 1 !in v.freeQ && Shape(Detached(v, i, m))
    ensures SlotLinked(Detached(v, i, m), v.f.up[i] - 1)
  {
    var p := v.f.up[i] - 1;
    var c := v.f.kids[p];
    assert SlotLinked(v, p) by { assert v.slots[p] == v.slots[p]; }
    WithoutOne(c, m);
    RingRemove(v.slots, p, c, m);
    RingWithoutEffect(v.slots, p, c, m, p);
  }

  /** The ring of a slot that is not the parent of i does not hold i. */
  lemma OtherRing(v: View, i: nat, p: nat)
    requires Shape(v) && Linked(v) && i < |v.slots|
    requires p < |v.slots| && p !in v.freeQ && v.f.up[i] != p + 1
    ensures InRange(v.slots, p, v.f.kids[p]) && Ring(v.slots, p, v.f.kids[p])
    ensures forall n :: 0 <= n < |v.f.kids[p]| ==> v.f.up[v.f.kids[p][n]] == p + 1 && v.f.kids[p][n] != i
    ensures v.slots[p].siblings.parent == v.f.up[p]
    ensures v.f.up[p] == 0 ==> v.slots[p].siblings.next == p == v.slots[p].siblings.prev
    ensures Prune(v.f, {i}).kids[p] == v.f.kids[p]
  {
    assert SlotLinked(v, p) by { assert v.slots[p] == v.slots[p]; }
    hide Linked, Ring, InRange;
    WithoutNone(v.f.kids[p], {i});
  }

  lemma DetachLinksOther(v: View, i: nat, m: nat, p: nat)
    requires Shape(v) && Linked(v) && i < |v.slots| && ChildAt(v, i, m)
    requires v.f.up[i] != 0 ==> v.f.up[i] - 1 !in v.freeQ
    requires p < |v.slots| && p !in v.freeQ && v.f.up[i] != p + 1
    requires Shape(Detached(v, i, m))
    ensures SlotLinked(Detached(v, i, m), p)
  {
    hide WellFormed;
    OtherRing(v, i, p);
    hide Linked, Ring, Unringed, Prune, SameButRing;
    var c, slots := v.f.kids[p], Unringed(v, i, m);
    UnringedSlots(v, i, m, p);
    forall n | 0 <= n < |c|
      ensures slots[c[n]].siblings == v.slots[c[n]].siblings
    {
      UnringedSlots(v, i, m, c[n]);
    }
    RingFrame(v.slots, slots, p, c);
    PruneUpAt(v.f, i, p);
  }

  lemma PruneUpAt(f: Forest, i: nat, p: nat)
    requires |f.kids| == |f.up| && p < |f.up|
    ensures Prune(f, {i}).up[p] == if p == i then 0 else f.up[p]
  {
  }

  /** The free list depends only on the links of its own members. */
  lemma ChainSame(a: seq<Slot>, b: seq<Slot>, q: seq<nat>, first: nat, lastPlusOne: nat)
    requires Chain(a, q, first, lastPlusOne) && |a| <= |b|
    requires forall m :: 0 <= m < |q| ==> b[q[m]].nextPlusOne == a[q[m]].nextPlusOne
    ensures Chain(b, q, first, lastPlusOne)
  {
    forall m | 0 <= m < |q| - 1
      ensures ChainStep(b, q, m)
    {
      assert ChainStep(a, q, m);
    }
  }

  /** So does the batch list. */
  lemma BatchSame(v: View, t: View)
    requires BatchChain(v) && t.batchQ == v.batchQ && |v.slots| <= |t.slots|
    requires forall j :: j in v.batchQ && j < |v.slots| ==> t.slots[j].nextPlusOne == v.slots[j].nextPlusOne
    ensures BatchChain(t)
  {
    hide WellFormed;
    forall m | 0 <= m < |v.batchQ|
      ensures BatchStep(t.slots, t.batchQ, m)
    {
      assert BatchStep(v.slots, v.batchQ, m);
    }
  }

  /** Two slot arrays with the same list links keep the lists threaded through them. */
  lemma ListsSame(v: View, t: View, limbo: set<nat>)
    requires Shape(v) && Owned(v, limbo) && FreeList(v) && BatchChain(v)
    requires t.freeQ == v.freeQ && t.batchQ == v.batchQ && t.purging == v.purging
    requires t.firstFree == v.firstFree && t.lastFreePlusOne == v.lastFreePlusOne
    requires |t.slots| == |v.slots| && forall j :: 0 <= j < |v.slots| ==> t.slots[j].nextPlusOne == v.slots[j].nextPlusOne
    ensures FreeList(t) && BatchChain(t)
  {
    hide WellFormed;
    BatchSame(v, t);
    if !v.purging {
      ChainSame(v.slots, t.slots, v.freeQ, v.firstFree, v.lastFreePlusOne);
    }
  }

  lemma DetachOwned(v: View, i: nat, m: nat, limbo: set<nat>)
    requires Shape(v) && Owned(v, limbo) && Linked(v) && i < |v.slots| && ChildAt(v, i, m)
    requires v.f.up[i] != 0 ==> v.f.up[i] - 1 !in v.freeQ
    ensures Shape(Detached(v, i, m)) && Owned(Detached(v, i, m), limbo)
  {
    hide WellFormed, Linked, Unringed, Prune;
    PruneWellFormed(v.f, {i});
    SameSizes(Prune(v.f, {i}));
    var t := Detached(v, i, m);
    forall j | 0 <= j < |v.slots|
      ensures SameButRing(v.slots[j], t.slots[j]) && SlotOwned(t, limbo, j)
    {
      DetachSlotOwned(v, i, m, limbo, j);
    }
    hide SlotOwned;
  }

  lemma DetachSlotOwned(v: View, i: nat, m: nat, limbo: set<nat>, j: nat)
    requires Shape(v) && Owned(v, limbo) && Linked(v) && i < |v.slots| && ChildAt(v, i, m) && j < |v.slots|
    requires v.f.up[i] != 0 ==> v.f.up[i] - 1 !in v.freeQ
    requires Shape(Detached(v, i, m))
    ensures SameButRing(v.slots[j], Detached(v, i, m).slots[j]) && SlotOwned(Detached(v, i, m), limbo, j)
  {
    hide WellFormed, Linked, Unringed, Distinct;
    UnringedSlots(v, i, m, j);
    assert SlotOwned(v, limbo, j);
    WithoutMembers(v.f.kids[j], {i});
  }

  lemma DetachIndexed(v: View, i: nat, m: nat, dying: set<nat>)
    requires Shape(v) && Linked(v) && i < |v.slots| && ChildAt(v, i, m) && Indexed(v.slots, v.index, dying)
    requires v.f.up[i] != 0 ==> v.f.up[i] - 1 !in v.freeQ
    ensures Indexed(Detached(v, i, m).slots, Detached(v, i, m).index, dying + {i})
  {
    hide WellFormed, Linked, Unringed, ChildAt, SlotFound;
    var t := Detached(v, i, m);
    forall j | 0 <= j < |v.slots|
      ensures SameButRing(v.slots[j], t.slots[j])
      ensures j != i ==> KeyOf(t.slots[j]) == KeyOf(v.slots[j])
    {
      UnringedSlots(v, i, m, j);
    }
    IndexCarries(v.slots, v.index, dying, t.slots, t.index, dying + {i}, {i});
  }

  lemma DetachLinked(v: View, i: nat, m: nat)
    requires Shape(v) && Linked(v) && i < |v.slots| && ChildAt(v, i, m)
    requires v.f.up[i] != 0 ==> v.f.up[i] - 1 !in v.freeQ
    requires Shape(Detached(v, i, m))
    ensures Linked(Detached(v, i, m))
  {
    hide WellFormed;
    var t := Detached(v, i, m);
    forall p | 0 <= p < |t.slots| && p !in t.freeQ
      ensures SlotLinked(t, p)
    {
      if v.f.up[i] == p + 1 {
        DetachLinksParent(v, i, m);
      } else {
        DetachLinksOther(v, i, m, p);
      }
    }
  }

  lemma DetachLists(v: View, i: nat, m: nat, limbo: set<nat>)
    requires Shape(v) && Linked(v) && i < |v.slots| && ChildAt(v, i, m)
    requires v.f.up[i] != 0 ==> v.f.up[i] - 1 !in v.freeQ
    requires Owned(v, limbo) && FreeList(v) && BatchChain(v)
    ensures FreeList(Detached(v, i, m)) && BatchChain(Detached(v, i, m))
  {
    hide WellFormed;
    var t := Detached(v, i, m);
    forall j | 0 <= j < |v.slots|
      ensures SameButRing(v.slots[j], t.slots[j])
    {
      UnringedSlots(v, i, m, j);
    }
    hide Linked, Owned, Shape, FreeList, BatchChain, Unringed;
    ListsSame(v, t, limbo);
  }

  lemma DetachDying(v: View, i: nat, m: nat, dying: set<nat>)
    requires Shape(v) && Linked(v) && i < |v.slots| && ChildAt(v, i, m)
    requires v.f.up[i] != 0 ==> v.f.up[i] - 1 !in v.freeQ
    requires Shape(Detached(v, i, m)) && Dying(v, dying) && v.slots[i].typ != NO_TYPE
    ensures Dying(Detached(v, i, m), dying + {i})
  {
    hide WellFormed;
    var t := Detached(v, i, m);
    forall d | d in dying + {i}
      ensures d < |t.slots| && t.slots[d].typ != NO_TYPE && t.f.up[d] == 0
    {
      assert d in dying || d == i;
      UnringedSlots(v, i, m, d);
    }
  }

  /** Unlinking a live handle keeps the invariant, with the handle marked as dying. */
  lemma DetachKeeps(v: View, i: nat, m: nat, dying: set<nat>, limbo: set<nat>)
    requires Inv(v, dying, limbo) && i < |v.slots| && v.slots[i].typ != NO_TYPE && ChildAt(v, i, m)
    requires v.f.up[i] != 0 ==> v.f.up[i] - 1 !in v.freeQ
    ensures Inv(Detached(v, i, m), dying + {i}, limbo)
  {
    hide WellFormed;
    DetachOwned(v, i, m, limbo);
    DetachLinked(v, i, m);
    DetachIndexed(v, i, m, dying);
    DetachLists(v, i, m, limbo);
    DetachDying(v, i, m, dying);
  }

  /** A slot in limbo has nothing to unlink. */
  lemma PruneRoot(f: Forest, i: nat)
    requires WellFormed(f) && i < |f.up| && f.up[i] == 0
    ensures Prune(f, {i}) == f
  {
    forall p | 0 <= p < |f.kids|
      ensures Without(f.kids[p], {i}) == f.kids[p]
    {
      WithoutNone(f.kids[p], {i});
    }
    assert Prune(f, {i}).kids == f.kids;
    assert Prune(f, {i}).up == f.up;
  }

  lemma LimboFacts(v: View, i: nat, dying: set<nat>, limbo: set<nat>)
    requires Inv(v, dying, limbo) && i in limbo
    ensures i < |v.slots| && v.slots[i].typ == NO_TYPE && WellFormed(v.f) && |v.f.up| == |v.slots| && v.f.up[i] == 0
    ensures forall k :: k in v.index ==> v.index[k] != i + 1
  {
    hide WellFormed;
    assert i < |v.slots| && v.slots[i].typ == NO_TYPE;
    assert SlotOwned(v, limbo, i);
    hide Shape, Owned, Linked, FreeList, Counted, BatchChain;
    forall k | k in v.index
      ensures v.index[k] != i + 1
    {
      assert EntryHeld(v.slots, v.index, dying, k);
    }
  }

  lemma DetachLimbo(v: View, i: nat, m: nat, dying: set<nat>, limbo: set<nat>)
    requires Inv(v, dying, limbo) && i in limbo
    ensures i < |v.slots| && v.f.up[i] == 0 && Detached(v, i, m) == v && Prune(v.f, {i}) == v.f
  {
    hide WellFormed;
    LimboFacts(v, i, dying, limbo);
    hide Inv, Shape, Linked, Prune;
    PruneRoot(v.f, i);
    assert (map k | k in v.index && v.index[k] != i + 1 :: v.index[k]) == v.index;
  }

  // ---------- step 2: the slot stops holding a handle ----------

  /** A handle that no open batch owns: its slot is now between lists. */
  ghost function Emptied(v: View, i: nat): View
    requires i < |v.slots|
  {
    v.(slots := v.slots[i := v.slots[i].(typ := NO_TYPE)])
  }

  lemma EmptyKeeps(v: View, i: nat, dying: set<nat>, limbo: set<nat>)
    requires Inv(v, dying + {i}, limbo) && i !in dying && i < |v.slots|
    requires v.f.kids[i] == [] && !v.slots[i].batched
    ensures Inv(Emptied(v, i), dying, limbo + {i})
  {
    hide WellFormed;
    var t := Emptied(v, i);
    assert i in dying + {i};
    assert i !in v.freeQ && i !in v.batchQ;
    assert v.slots[i].nextPlusOne == 0;
    SlotChangeKeepsRest(v, t, i, dying, dying + {i}, limbo);
    forall j | 0 <= j < |t.slots|
      ensures SlotOwned(t, limbo + {i}, j)
    {
      assert SlotOwned(v, limbo, j);
    }
  }

  /** A handle of the open batch: it keeps its place in the batch until the batch ends. */
  ghost function Parked(v: View, i: nat): View
    requires i < |v.slots|
  {
    v.(slots := v.slots[i := v.slots[i].(typ := NO_TYPE, partFree := true)])
  }

  lemma ParkKeeps(v: View, i: nat, dying: set<nat>, limbo: set<nat>)
    requires Inv(v, dying + {i}, limbo) && i !in dying && i < |v.slots|
    requires v.f.kids[i] == [] && v.slots[i].batched
    ensures Inv(Parked(v, i), dying, limbo)
  {
    hide WellFormed;
    var t := Parked(v, i);
    assert i in dying + {i};
    assert SlotOwned(v, limbo, i);
    assert i !in v.freeQ && i in v.batchQ;
    SlotChangeKeepsRest(v, t, i, dying, dying + {i}, limbo);
    forall j | 0 <= j < |t.slots|
      ensures SlotOwned(t, limbo, j)
    {
      assert SlotOwned(v, limbo, j);
    }
  }

  /** Changing type and batch state of a dying slot disturbs neither rings, index nor lists. */
  lemma SlotChangeKeepsRest(v: View, t: View, i: nat, dying: set<nat>, before: set<nat>, limbo: set<nat>)
    requires Shape(v) && Owned(v, limbo) && Linked(v) && FreeList(v) && Counted(v) && BatchChain(v)
    requires Indexed(v.slots, v.index, before) && Dying(v, before) && before == dying + {i} && i !in dying
    requires i < |v.slots| && t == v.(slots := t.slots) && |t.slots| == |v.slots|
    requires t.slots[i] == v.slots[i].(typ := NO_TYPE, partFree := t.slots[i].partFree)
    requires forall j :: 0 <= j < |v.slots| && j != i ==> t.slots[j] == v.slots[j]
    ensures Shape(t) && Linked(t) && FreeList(t) && Counted(t) && BatchChain(t)
    ensures Indexed(t.slots, t.index, dying) && Dying(t, dying)
  {
    hide WellFormed;
    SlotChangeLinked(v, t, i);
    SlotChangeIndexed(v.slots, t.slots, v.index, i, dying, before);
    ListsSame(v, t, limbo);
    hide Linked, Indexed, FreeList, BatchChain, Owned;
  }

  lemma SlotChangeLinked(v: View, t: View, i: nat)
    requires Shape(v) && Linked(v)
    requires i < |v.slots| && t == v.(slots := t.slots) && |t.slots| == |v.slots|
    requires t.slots[i].children == v.slots[i].children && t.slots[i].siblings == v.slots[i].siblings
    requires forall j :: 0 <= j < |v.slots| && j != i ==> t.slots[j] == v.slots[j]
    ensures Shape(t) && Linked(t)
  {
    hide WellFormed;
    forall p | 0 <= p < |t.slots| && p !in t.freeQ
      ensures SlotLinked(t, p)
    {
      assert SlotLinked(v, p) by { assert v.slots[p] == v.slots[p]; }
      hide Linked, Ring;
      RingFrame(v.slots, t.slots, p, v.f.kids[p]);
    }
  }

  lemma SlotChangeIndexed(a: seq<Slot>, b: seq<Slot>, index: map<Key, nat>, i: nat, dying: set<nat>, before: set<nat>)
    requires Indexed(a, index, before) && before == dying + {i} && i !in dying && i < |a| == |b|
    requires b[i].typ == NO_TYPE && forall j :: 0 <= j < |a| && j != i ==> b[j] == a[j]
    ensures Indexed(b, index, dying)
  {
    assert forall k :: k in index ==> EntryHeld(a, index, before, k);
    IndexCarries(a, index, before, b, index, dying, {i});
  }

  // ---------- step 3: onto the tail of the free list ----------

  ghost function Relinked(v: View, i: nat): seq<Slot>
    requires v.lastFreePlusOne <= |v.slots|
  {
    if v.purging || v.freeQ == [] || v.lastFreePlusOne == 0 then v.slots
    else v.slots[v.lastFreePlusOne - 1 := v.slots[v.lastFreePlusOne - 1].(nextPlusOne := i + 1)]
  }

  ghost function Appended(v: View, i: nat): View
    requires i < |v.slots| && |v.blockFree| * BLOCK_SIZE == |v.slots| && v.lastFreePlusOne <= |v.slots|
  {
    v.(slots := Relinked(v, i),
       firstFree := if !v.purging && v.freeQ == [] then i else v.firstFree,
       lastFreePlusOne := if v.purging then v.lastFreePlusOne else i + 1,
       freeCount := v.freeCount + 1,
       blockFree := v.blockFree[i / BLOCK_SIZE := v.blockFree[i / BLOCK_SIZE] + 1],
       freeQ := v.freeQ + [i])
  }

  lemma LastFreeInRange(v: View, limbo: set<nat>)
    requires Shape(v) && Owned(v, limbo) && FreeList(v)
    ensures v.lastFreePlusOne <= |v.slots|
    ensures !v.purging && v.freeQ != [] ==>
      v.lastFreePlusOne != 0 && v.lastFreePlusOne - 1 in v.freeQ && v.slots[v.lastFreePlusOne - 1].nextPlusOne == 0
  {
  }

  lemma AppendPrepared(v: View, i: nat, dying: set<nat>, limbo: set<nat>)
    requires Inv(v, dying, limbo) && i < |v.slots|
    ensures v.freeCount == |v.freeQ| && i / BLOCK_SIZE < |v.blockFree| && v.lastFreePlusOne <= |v.slots|
    ensures |v.blockFree| * BLOCK_SIZE == |v.slots|
    ensures !v.purging && v.freeQ != [] ==> v.lastFreePlusOne != 0
  {
    hide WellFormed;
    LastFreeInRange(v, limbo);
  }

  lemma AppendKeeps(v: View, i: nat, dying: set<nat>, limbo: set<nat>)
    requires Inv(v, dying, limbo + {i}) && i !in limbo
    ensures i < |v.slots| && v.lastFreePlusOne <= |v.slots|
    ensures Inv(Appended(v, i), dying, limbo)
  {
    hide Linked, Indexed, FreeList, Counted, BatchChain, WellFormed;
    assert i in limbo + {i};
    LastFreeInRange(v, limbo + {i});
    var t := Appended(v, i);
    AppendOwned(v, t, i, limbo);
    LinkedSame(v, t);
    AppendIndexed(v, t, dying);
    AppendChain(v, t, i, limbo);
    hide Owned;
    assert Dying(t, dying);
  }

  lemma AppendIndexed(v: View, t: View, dying: set<nat>)
    requires Indexed(v.slots, v.index, dying) && t.index == v.index && |t.slots| == |v.slots|
    requires forall j :: 0 <= j < |v.slots| ==> t.slots[j].(nextPlusOne := v.slots[j].nextPlusOne) == v.slots[j]
    ensures Indexed(t.slots, t.index, dying)
  {
    hide WellFormed;
    IndexCarries(v.slots, v.index, dying, t.slots, t.index, dying, {});
  }

  /** The rings depend only on the ring links. */
  lemma LinkedSame(v: View, t: View)
    requires Shape(v) && Linked(v) && Shape(t) && t.f == v.f && |t.slots| == |v.slots|
    requires forall j :: j in v.freeQ ==> j in t.freeQ
    requires forall j :: 0 <= j < |v.slots| ==>
      t.slots[j].children == v.slots[j].children && t.slots[j].siblings == v.slots[j].siblings
    ensures Linked(t)
  {
    hide WellFormed;
    forall p | 0 <= p < |t.slots| && p !in t.freeQ
      ensures SlotLinked(t, p)
    {
      assert SlotLinked(v, p) by { assert v.slots[p] == v.slots[p]; }
      RingFrame(v.slots, t.slots, p, v.f.kids[p]);
    }
  }

  lemma AppendDistinct(q: seq<nat>, i: nat)
    requires Distinct(q) && i !in q
    ensures Distinct(q + [i])
  {
    forall a | 0 <= a < |q|
      ensures q[a] != i
    {
      assert q[a] in q;
    }
  }

  lemma AppendOwned(v: View, t: View, i: nat, limbo: set<nat>)
    requires Shape(v) && Owned(v, limbo + {i}) && FreeList(v) && i !in limbo
    requires i < |v.slots| && v.lastFreePlusOne <= |v.slots| && t == Appended(v, i)
    ensures Shape(t) && Owned(t, limbo)
  {
    hide FreeList, WellFormed, Distinct;
    LastFreeInRange(v, limbo + {i});
    assert i in limbo + {i};
    assert i !in v.freeQ;
    AppendDistinct(v.freeQ, i);
    forall j | 0 <= j < |t.slots|
      ensures SlotOwned(t, limbo, j)
    {
      assert SlotOwned(v, limbo + {i}, j);
    }
    forall j | j in limbo
      ensures j < |t.slots| && t.slots[j].typ == NO_TYPE && t.slots[j].nextPlusOne == 0
    {
      assert j in limbo + {i};
    }
    forall j | j in t.freeQ
      ensures j < |t.slots| && t.slots[j].typ == NO_TYPE && j !in t.batchQ && j !in limbo
    {
      assert j in v.freeQ || j == i;
    }
  }

  lemma AppendChain(v: View, t: View, i: nat, limbo: set<nat>)
    requires Shape(v) && Owned(v, limbo + {i}) && FreeList(v) && Counted(v) && BatchChain(v)
    requires i < |v.slots| && v.lastFreePlusOne <= |v.slots| && t == Appended(v, i)
    ensures FreeList(t) && Counted(t) && BatchChain(t)
  {
    hide WellFormed, Owned, FreeList, Counted, BatchChain, Appended;
    AppendFacts(v, i, limbo);
    AppendFreeList(v, i);
    AppendCounted(v, i);
    AppendBatch(v, i);
  }

  /** The slot joins from outside both lists, and the last free slot is in no batch. */
  lemma AppendFacts(v: View, i: nat, limbo: set<nat>)
    requires Shape(v) && Owned(v, limbo + {i}) && FreeList(v)
    ensures i !in v.freeQ && Distinct(v.freeQ) && (i < |v.slots| ==> v.slots[i].nextPlusOne == 0)
    ensures !v.purging && v.freeQ != [] ==> 0 < v.lastFreePlusOne <= |v.slots| && v.lastFreePlusOne - 1 !in v.batchQ
  {
    hide WellFormed;
    LastFreeInRange(v, limbo + {i});
    assert i in limbo + {i};
  }

  lemma AppendFreeList(v: View, i: nat)
    requires Shape(v) && FreeList(v) && i < |v.slots| && v.lastFreePlusOne <= |v.slots|
    requires i !in v.freeQ && Distinct(v.freeQ) && v.slots[i].nextPlusOne == 0
    requires !v.purging && v.freeQ != [] ==> 0 < v.lastFreePlusOne
    ensures FreeList(Appended(v, i))
  {
    hide WellFormed, Distinct, Chain;
    if !v.purging {
      AppendToChain(v.slots, v.freeQ, v.firstFree, v.lastFreePlusOne, i);
    }
  }

  lemma AppendCounted(v: View, i: nat)
    requires Shape(v) && Counted(v) && i < |v.slots| && v.lastFreePlusOne <= |v.slots|
    ensures Counted(Appended(v, i))
  {
    hide WellFormed;
    assert (v.freeQ + [i])[..|v.freeQ|] == v.freeQ;
  }

  lemma AppendBatch(v: View, i: nat)
    requires Shape(v) && BatchChain(v) && i < |v.slots| && v.lastFreePlusOne <= |v.slots|
    requires !v.purging && v.freeQ != [] ==> 0 < v.lastFreePlusOne && v.lastFreePlusOne - 1 !in v.batchQ
    ensures BatchChain(Appended(v, i))
  {
    hide WellFormed;
    BatchSame(v, Appended(v, i));
  }

  lemma AppendToChain(slots: seq<Slot>, q: seq<nat>, first: nat, lastPlusOne: nat, i: nat)
    requires Chain(slots, q, first, lastPlusOne) && Distinct(q) && i < |slots| && i !in q && slots[i].nextPlusOne == 0
    requires lastPlusOne <= |slots| && (q != [] ==> lastPlusOne != 0)
    ensures Chain(if q == [] then slots else slots[lastPlusOne - 1 := slots[lastPlusOne - 1].(nextPlusOne := i + 1)],
                  q + [i], if q == [] then i else first, i + 1)
  {
    var s := if q == [] then slots else slots[lastPlusOne - 1 := slots[lastPlusOne - 1].(nextPlusOne := i + 1)];
    var r := q + [i];
    forall m | 0 <= m < |q|
      ensures ChainStep(s, r, m)
    {
      if m < |q| - 1 {
        assert ChainStep(slots, q, m);
        assert q[m] != q[|q| - 1];
      }
    }
    assert q != [] ==> q[|q| - 1] in q;
  }
}
