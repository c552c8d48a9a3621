/** Taking a slot off the free list, linking it under its parent and entering it in the index. */
module HandleAlloc {
  import opened Forests
  import opened HandleState
  import opened HandleInvariant
  import opened HandleGrow

  // ---------- taking a free slot ----------

  ghost function Front(q: seq<nat>): nat {
    if q == [] then 0 else q[0] + 1
  }

  /** The slot AllocHandle fills in: on its own in both rings, and first in the open batch. */
  ghost predicate NewSlot(v: View, i: nat, s: Slot, batch: bool) {
    && s.typ != NO_TYPE && !s.partFree && s.batched == batch
    && s.nextPlusOne == (if batch then Front(v.batchQ) else 0)
    && s.children == Link(i, i, i + 1) && s.siblings == Link(i, i, 0)
  }

  /** Free slot number m of the free list, first to last; m is 0 unless purging is enabled. */
  ghost predicate CanTake(v: View, m: nat, s: Slot, batch: bool) {
    && m < |v.freeQ| && (!v.purging ==> m == 0) && (v.purging ==> !batch)
    && v.freeQ[m] < |v.slots| && |v.blockFree| * BLOCK_SIZE == |v.slots|
    && |v.f.born| == |v.slots| && v.freeCount > 0 && v.blockFree[v.freeQ[m] / BLOCK_SIZE] > 0
    && NewSlot(v, v.freeQ[m], s, batch)
  }

  ghost function Taken(v: View, m: nat, s: Slot, batch: bool): View
    requires CanTake(v, m, s, batch)
  {
    var i := v.freeQ[m];
    v.(slots := v.slots[i := s],
       freeCount := v.freeCount - 1,
       blockFree := v.blockFree[i / BLOCK_SIZE := v.blockFree[i / BLOCK_SIZE] - 1],
       firstFree := if v.purging || v.freeCount == 1 then 0 else Follow(v.slots, i),
       lastFreePlusOne := if !v.purging && v.freeCount == 1 then 0 else v.lastFreePlusOne,
       f := v.f.(born := v.f.born[i := v.f.clock], clock := v.f.clock + 1),
       freeQ := v.freeQ[..m] + v.freeQ[m + 1..],
       batchQ := if batch then [i] + v.batchQ else v.batchQ)
  }

  lemma {:induction false} CountPositive(q: seq<nat>, m: nat)
    requires m < |q|
    ensures CountIn(q, q[m] / BLOCK_SIZE) > 0
  {
    if m < |q| - 1 {
      CountPositive(q[..|q| - 1], m);
    }
  }

  lemma FreeSlotFacts(v: View, m: nat)
    requires Inv(v, {}, {}) && m < |v.freeQ|
    ensures v.freeQ[m] < |v.slots| && v.freeQ[m] / BLOCK_SIZE < |v.blockFree| && v.blockFree[v.freeQ[m] / BLOCK_SIZE] > 0
    ensures |v.blockFree| * BLOCK_SIZE == |v.slots| && v.freeCount == |v.freeQ| && |v.f.born| == |v.slots|
    ensures v.slots[v.freeQ[m]].typ == NO_TYPE && v.f.kids[v.freeQ[m]] == [] && v.f.up[v.freeQ[m]] == 0
    ensures v.freeQ[m] !in v.batchQ && |v.f.kids| == |v.f.up| == |v.slots|
    ensures !v.purging ==> v.freeQ[0] == v.firstFree
    ensures v.purging ==> !v.slots[v.freeQ[m]].batched && !v.slots[v.freeQ[m]].partFree
  {
    hide WellFormed, Linked, Indexed, BatchChain, Dying;
    assert v.freeQ[m] in v.freeQ;
    CountPositive(v.freeQ, m);
    assert SlotOwned(v, {}, v.freeQ[m]) by { assert v.slots[v.freeQ[m]] == v.slots[v.freeQ[m]]; }
  }

  lemma TakeForest(f: Forest, i: nat)
    requires WellFormed(f) && i < |f.kids| && f.kids[i] == [] && f.up[i] == 0
    ensures WellFormed(f.(born := f.born[i := f.clock], clock := f.clock + 1))
  {
    var g := f.(born := f.born[i := f.clock], clock := f.clock + 1);
    forall p | 0 <= p < |f.kids|
      ensures Adopts(g, p)
    {
      TakeAdopts(f, i, p);
    }
    hide Adopts;
  }

  lemma TakeAdopts(f: Forest, i: nat, p: nat)
    requires WellFormed(f) && i < |f.kids| && p < |f.kids| && f.kids[i] == [] && f.up[i] == 0
    ensures Adopts(f.(born := f.born[i := f.clock], clock := f.clock + 1), p)
  {
    SameSizes(f);
    assert Adopts(f, p) by { assert f.kids[p] == f.kids[p]; }
    hide WellFormed;
    var k := f.kids[p];
    forall m | 0 <= m < |k|
      ensures k[m] != i
    {
    }
  }

  lemma DropMember(q: seq<nat>, m: nat)
    requires m < |q| && Distinct(q)
    ensures Distinct(q[..m] + q[m + 1..])
    ensures forall x :: x in q[..m] + q[m + 1..] <==> x in q && x != q[m]
  {
    var r := q[..m] + q[m + 1..];
    forall x | x in q && x != q[m]
      ensures x in r
    {
      var k :| 0 <= k < |q| && q[k] == x;
      assert r[if k < m then k else k - 1] == x;
    }
  }

  lemma TakeOwned(v: View, m: nat, s: Slot, batch: bool)
    requires Shape(v) && Owned(v, {}) && CanTake(v, m, s, batch)
    requires v.slots[v.freeQ[m]].typ == NO_TYPE && v.f.kids[v.freeQ[m]] == [] && v.f.up[v.freeQ[m]] == 0
    ensures Shape(Taken(v, m, s, batch)) && Owned(Taken(v, m, s, batch), {})
  {
    hide WellFormed, Distinct, Follow;
    var t := Taken(v, m, s, batch);
    var i := v.freeQ[m];
    assert i in v.freeQ;
    TakeForest(v.f, i);
    DropMember(v.freeQ, m);
    PushDistinct(v.batchQ, i);
    forall j | j in t.batchQ
      ensures j < |t.slots| && t.slots[j].batched && (t.slots[j].partFree <==> t.slots[j].typ == NO_TYPE)
    {
      assert j == i || j in v.batchQ;
    }
    forall j | j in t.freeQ
      ensures j < |t.slots| && t.slots[j].typ == NO_TYPE && j !in t.batchQ
    {
      assert j in v.freeQ && j != i;
    }
    forall j | 0 <= j < |t.slots|
      ensures SlotOwned(t, {}, j)
    {
      assert SlotOwned(v, {}, j);
      assert j in v.batchQ ==> j in [i] + v.batchQ;
      assert ([i] + v.batchQ)[0] == i;
    }
  }

  lemma PushDistinct(q: seq<nat>, i: nat)
    requires Distinct(q) && i !in q
    ensures Distinct([i] + q)
  {
    var r := [i] + q;
    forall a, b | 0 <= a < b < |r|
      ensures r[a] != r[b]
    {
      assert r[b] == q[b - 1] && q[b - 1] in q;
    }
  }

  lemma TakeLinkedNew(v: View, m: nat, s: Slot, batch: bool)
    requires CanTake(v, m, s, batch) && Shape(Taken(v, m, s, batch))
    requires v.f.kids[v.freeQ[m]] == [] && v.f.up[v.freeQ[m]] == 0
    ensures SlotLinked(Taken(v, m, s, batch), v.freeQ[m])
  {
    hide WellFormed;
    assert RingStep(Taken(v, m, s, batch).slots, v.freeQ[m], [], 0);
  }

  lemma TakeLinkedOld(v: View, m: nat, s: Slot, batch: bool, p: nat)
    requires Shape(v) && Linked(v) && CanTake(v, m, s, batch) && Shape(Taken(v, m, s, batch))
    requires v.f.up[v.freeQ[m]] == 0 && p < |v.slots| && p !in v.freeQ && p != v.freeQ[m]
    ensures SlotLinked(Taken(v, m, s, batch), p)
  {
    hide WellFormed, Ring, InRange;
    assert SlotLinked(v, p) by { assert v.slots[p] == v.slots[p]; }
    var c := v.f.kids[p];
    forall n | 0 <= n < |c|
      ensures c[n] < |v.slots| && v.f.up[c[n]] == p + 1
    {
      KidAt(v.f, p, c[n]);
    }
    hide Linked, SlotLinked;
    RingFrame(v.slots, Taken(v, m, s, batch).slots, p, c);
    SlotLinkedAgain(v, Taken(v, m, s, batch), p);
  }

  /** A slot whose ring, children and parent are as before is linked as before. */
  lemma SlotLinkedAgain(v: View, t: View, p: nat)
    requires Shape(v) && Shape(t) && p < |v.slots| == |t.slots| && SlotLinked(v, p)
    requires t.f.kids[p] == v.f.kids[p] && t.f.up[p] == v.f.up[p] && t.slots[p].siblings == v.slots[p].siblings
    requires InRange(t.slots, p, t.f.kids[p]) && Ring(t.slots, p, t.f.kids[p])
    ensures SlotLinked(t, p)
  {
    hide WellFormed, Ring, InRange;
  }

  lemma TakeLinked(v: View, m: nat, s: Slot, batch: bool)
    requires Shape(v) && Linked(v) && CanTake(v, m, s, batch) && Shape(Taken(v, m, s, batch))
    requires Distinct(v.freeQ) && v.f.kids[v.freeQ[m]] == [] && v.f.up[v.freeQ[m]] == 0
    ensures Linked(Taken(v, m, s, batch))
  {
    hide WellFormed;
    var t := Taken(v, m, s, batch);
    DropMember(v.freeQ, m);
    TakeLinkedNew(v, m, s, batch);
    hide SlotLinked;
    forall p | 0 <= p < |t.slots| && p !in t.freeQ
      ensures SlotLinked(t, p)
    {
      if p != v.freeQ[m] {
        TakeLinkedOld(v, m, s, batch, p);
      }
    }
  }

  lemma TakeIndexed(v: View, m: nat, s: Slot, batch: bool)
    requires Indexed(v.slots, v.index, {}) && CanTake(v, m, s, batch) && v.slots[v.freeQ[m]].typ == NO_TYPE
    ensures Indexed(Taken(v, m, s, batch).slots, v.index, {v.freeQ[m]})
  {
    hide WellFormed;
    var i := v.freeQ[m];
    assert forall k :: k in v.index ==> EntryHeld(v.slots, v.index, {}, k);
    IndexCarries(v.slots, v.index, {}, v.slots[i := s], v.index, {i}, {i});
  }

  lemma ChainTail(slots: seq<Slot>, q: seq<nat>, first: nat, lastPlusOne: nat, i: nat, s: Slot)
    requires Chain(slots, q, first, lastPlusOne) && Distinct(q) && q != [] && i == q[0]
    ensures i < |slots|
    ensures Chain(slots[i := s], q[1..], if |q| == 1 then 0 else Follow(slots, i), if |q| == 1 then 0 else lastPlusOne)
  {
    var r, t := q[1..], slots[i := s];
    assert |q| > 1 ==> ChainStep(slots, q, 0);
    forall m | 0 <= m < |r| - 1
      ensures ChainStep(t, r, m)
    {
      assert ChainStep(slots, q, m + 1);
    }
  }

  lemma TakeFreeList(v: View, m: nat, s: Slot, batch: bool)
    requires FreeList(v) && CanTake(v, m, s, batch) && Distinct(v.freeQ) && v.freeCount == |v.freeQ|
    ensures FreeList(Taken(v, m, s, batch))
  {
    hide WellFormed;
    if !v.purging {
      ChainTail(v.slots, v.freeQ, v.firstFree, v.lastFreePlusOne, v.freeQ[0], s);
      assert v.freeQ[..0] + v.freeQ[1..] == v.freeQ[1..];
    }
  }

  lemma CountDrop(q: seq<nat>, m: nat, b: nat)
    requires m < |q|
    ensures CountIn(q, b) == CountIn(q[..m] + q[m + 1..], b) + if q[m] / BLOCK_SIZE == b then 1 else 0
  {
    var i := q[m];
    assert q == q[..m] + ([i] + q[m + 1..]);
    CountConcat(q[..m], [i] + q[m + 1..], b);
    CountConcat([i], q[m + 1..], b);
    CountConcat(q[..m], q[m + 1..], b);
    assert [i][..0] == [];
    assert CountIn([i], b) == CountIn([], b) + if i / BLOCK_SIZE == b then 1 else 0;
  }

  lemma TakeCounted(v: View, m: nat, s: Slot, batch: bool)
    requires Counted(v) && CanTake(v, m, s, batch)
    ensures Counted(Taken(v, m, s, batch))
  {
    hide WellFormed;
    var t := Taken(v, m, s, batch);
    hide CountIn;
    forall b | 0 <= b < |t.blockFree|
      ensures t.blockFree[b] == CountIn(t.freeQ, b)
    {
      CountDrop(v.freeQ, m, b);
    }
  }

  lemma TakeBatch(v: View, m: nat, s: Slot, batch: bool)
    requires BatchChain(v) && CanTake(v, m, s, batch) && v.freeQ[m] !in v.batchQ
    ensures BatchChain(Taken(v, m, s, batch))
  {
    hide WellFormed;
    var t := Taken(v, m, s, batch);
    forall n | 0 <= n < |t.batchQ|
      ensures BatchStep(t.slots, t.batchQ, n)
    {
      if batch && n > 0 {
        assert v.batchQ[n - 1] in v.batchQ;
        assert BatchStep(v.slots, v.batchQ, n - 1);
      } else if !batch {
        assert v.batchQ[n] in v.batchQ;
        assert BatchStep(v.slots, v.batchQ, n);
      }
    }
  }

  /** Taking a free slot keeps the invariant; the new handle is not in the index yet. */
  lemma TakeKeeps(v: View, m: nat, s: Slot, batch: bool)
    requires Inv(v, {}, {}) && CanTake(v, m, s, batch)
    ensures Inv(Taken(v, m, s, batch), {v.freeQ[m]}, {})
  {
    hide WellFormed;
    FreeSlotFacts(v, m);
    TakeOwned(v, m, s, batch);
    TakeLinked(v, m, s, batch);
    TakeIndexed(v, m, s, batch);
    TakeFreeList(v, m, s, batch);
    TakeCounted(v, m, s, batch);
    TakeBatch(v, m, s, batch);
    var t := Taken(v, m, s, batch);
    hide Linked, Owned, Indexed, FreeList, Counted, BatchChain;
    assert t.slots[v.freeQ[m]] == s;
  }

  // ---------- entering the new handle in the index ----------

  /** HASH_Insert for a handle that is not multiply allocated. */
  ghost function WithKey(v: View, i: nat): map<Key, nat>
    requires i < |v.slots|
  {
    if v.slots[i].flags.multi then v.index else v.index[KeyOf(v.slots[i]) := i + 1]
  }

  lemma IndexGains(slots: seq<Slot>, index: map<Key, nat>, i: nat, t: seq<Slot>)
    requires Indexed(slots, index, {i}) && i < |slots| == |t|
    requires forall j :: 0 <= j < |slots| && j != i ==> KeyOf(t[j]) == KeyOf(slots[j])
    requires forall j :: 0 <= j < |slots| ==> t[j].typ == slots[j].typ && t[j].flags == slots[j].flags
    requires t[i].typ != NO_TYPE
    requires !t[i].flags.multi ==> KeyOf(t[i]) !in index
    ensures Indexed(t, if t[i].flags.multi then index else index[KeyOf(t[i]) := i + 1], {})
  {
    var index' := if t[i].flags.multi then index else index[KeyOf(t[i]) := i + 1];
    forall j | 0 <= j < |t|
      ensures SlotFound(t, index', {}, j)
    {
      assert SlotFound(slots, index, {i}, j);
    }
    forall k | k in index'
      ensures EntryHeld(t, index', {}, k)
    {
      if k in index {
        assert EntryHeld(slots, index, {i}, k);
      }
    }
  }

  /** A handle without parent. */
  lemma RegisterKeeps(v: View, i: nat)
    requires Inv(v, {i}, {}) && i < |v.slots| && v.slots[i].typ != NO_TYPE
    requires !v.slots[i].flags.multi ==> KeyOf(v.slots[i]) !in v.index
    ensures Inv(v.(index := WithKey(v, i)), {}, {})
  {
    hide WellFormed;
    IndexGains(v.slots, v.index, i, v.slots);
    KeyChangeKeeps(v, WithKey(v, i), {i});
  }

  lemma LinkedWithKeys(v: View, index: map<Key, nat>)
    requires Shape(v) && Linked(v)
    ensures Shape(v.(index := index)) && Linked(v.(index := index))
  {
    hide WellFormed;
    var t := v.(index := index);
    forall p | 0 <= p < |t.slots| && p !in t.freeQ
      ensures SlotLinked(t, p)
    {
      assert SlotLinked(v, p) by { assert v.slots[p] == v.slots[p]; }
    }
  }

  lemma OwnedWithKeys(v: View, index: map<Key, nat>)
    requires Shape(v) && Owned(v, {})
    ensures Shape(v.(index := index)) && Owned(v.(index := index), {})
  {
    hide WellFormed;
    var t := v.(index := index);
    forall j | 0 <= j < |t.slots|
      ensures SlotOwned(t, {}, j)
    {
      assert SlotOwned(v, {}, j);
    }
  }

  lemma KeyChangeKeeps(v: View, index: map<Key, nat>, dying: set<nat>)
    requires Inv(v, dying, {}) && Indexed(v.slots, index, {})
    ensures Inv(v.(index := index), {}, {})
  {
    hide WellFormed;
    LinkedWithKeys(v, index);
    OwnedWithKeys(v, index);
    hide Linked, Indexed, Owned;
  }

  // ---------- linking the new handle under its parent ----------

  ghost function Attached(f: Forest, p: nat, i: nat): Forest
    requires p < |f.kids| && i < |f.up|
  {
    f.(kids := f.kids[p := f.kids[p] + [i]], up := f.up[i := p + 1])
  }

  ghost predicate CanAdopt(v: View, p: nat, i: nat) {
    && p < |v.slots| && i < |v.slots| && p != i
    && v.slots[p].typ != NO_TYPE && v.slots[i].typ != NO_TYPE
    && |v.f.kids| == |v.f.up| == |v.f.born| == |v.slots|
    && v.f.up[i] == 0 && v.f.born[p] < v.f.born[i]
    && v.slots[p].children.prev < |v.slots|
  }

  ghost function Adopted(v: View, p: nat, i: nat): View
    requires CanAdopt(v, p, i)
  {
    v.(slots := RingWith(v.slots, p, i), f := Attached(v.f, p, i))
  }

  lemma AttachAdopts(f: Forest, p: nat, i: nat, q: nat)
    requires WellFormed(f) && p < |f.kids| && i < |f.up| && f.up[i] == 0 && f.born[p] < f.born[i] && q < |f.kids|
    ensures Adopts(Attached(f, p, i), q) && i !in f.kids[q]
  {
    SameSizes(f);
    assert Adopts(f, q) by { assert f.kids[q] == f.kids[q]; }
    hide WellFormed;
    if i in f.kids[q] {
      KidAt(f, q, i);
    }
    AdoptsMore(f, Attached(f, p, i), p, i, q);
  }

  lemma AdoptsMore(f: Forest, g: Forest, p: nat, i: nat, q: nat)
    requires |f.kids| == |f.up| == |f.born| && p < |f.kids| && i < |f.up| && g == Attached(f, p, i) && q < |f.kids|
    requires Adopts(f, q) && i !in f.kids[q] && f.born[p] < f.born[i]
    ensures Adopts(g, q)
  {
    var k := f.kids[q];
    assert forall m :: 0 <= m < |k| ==> k[m] in k;
  }

  lemma AttachUp(f: Forest, p: nat, i: nat, c: nat)
    requires WellFormed(f) && p < |f.kids| && i < |f.up| && f.up[i] == 0 && c < |f.up|
    ensures var g := Attached(f, p, i); g.up[c] != 0 ==> g.up[c] <= |g.kids| && c in g.kids[g.up[c] - 1]
  {
    var k := f.kids[p];
    assert (k + [i])[|k|] == i;
    if c != i && f.up[c] != 0 {
      assert c in f.kids[f.up[c] - 1];
      hide WellFormed;
      assert c in k ==> c in k + [i];
    }
  }

  lemma AttachWellFormed(f: Forest, p: nat, i: nat)
    requires WellFormed(f) && p < |f.kids| && i < |f.up| && f.up[i] == 0 && f.born[p] < f.born[i]
    ensures WellFormed(Attached(f, p, i)) && i !in f.kids[p]
  {
    var g := Attached(f, p, i);
    hide Adopts;
    forall q | 0 <= q < |g.kids|
      ensures Adopts(g, q) && i !in f.kids[q]
    {
      AttachAdopts(f, p, i, q);
    }
    forall c | 0 <= c < |g.up| && g.up[c] != 0
      ensures g.up[c] <= |g.kids| && c in g.kids[g.up[c] - 1]
    {
      AttachUp(f, p, i, c);
    }
  }

  /** The ring of p before a child is added: its tail is where the new child goes. */
  lemma TailOfRing(v: View, p: nat, i: nat, dying: set<nat>)
    requires Inv(v, dying, {}) && p < |v.slots| && i < |v.slots| && p != i
    requires v.slots[p].typ != NO_TYPE && v.slots[i].typ != NO_TYPE && v.f.up[i] == 0
    ensures p !in v.freeQ && i !in v.freeQ
    ensures InRange(v.slots, p, v.f.kids[p]) && Ring(v.slots, p, v.f.kids[p]) && i !in v.f.kids[p]
    ensures v.slots[p].children.prev < |v.slots| && v.slots[p].children.prev == At(p, v.f.kids[p], |v.f.kids[p]|)
    ensures v.slots[p].siblings.parent == v.f.up[p] && v.slots[p].children.parent == p + 1
  {
    assert SlotLinked(v, p) by { assert v.slots[p] == v.slots[p]; }
    assert Adopts(v.f, p) by { assert v.f.kids[p] == v.f.kids[p]; }
    hide Inv, Linked, Owned;
    RingInsert(v.slots, p, v.f.kids[p], i);
  }

  lemma RingWithEffect(slots: seq<Slot>, p: nat, c: seq<nat>, i: nat, j: nat)
    requires InRange(slots, p, c) && i < |slots| && i != p && i !in c && j < |slots|
    requires slots[p].children.prev == At(p, c, |c|)
    ensures slots[p].children.prev < |slots|
    ensures var r := RingWith(slots, p, i);
            && SameButRing(slots[j], r[j])
            && (j == i ==> r[j].siblings.parent == p + 1)
            && (j != i ==> r[j].siblings.parent == slots[j].siblings.parent)
            && (j != i && j !in c ==> r[j].siblings == slots[j].siblings)
            && (j != p ==> r[j].children == slots[j].children)
  {
    assert c != [] ==> At(p, c, |c|) in c;
  }

  lemma AdoptSlots(v: View, p: nat, i: nat, dying: set<nat>, j: nat)
    requires Inv(v, dying, {}) && CanAdopt(v, p, i) && j < |v.slots|
    ensures var t := Adopted(v, p, i);
            && |t.slots| == |v.slots| && SameButRing(v.slots[j], t.slots[j])
            && (j == i ==> t.slots[j].siblings.parent == p + 1)
            && (j != i ==> t.slots[j].siblings.parent == v.slots[j].siblings.parent)
            && (j != i && j !in v.f.kids[p] ==> t.slots[j].siblings == v.slots[j].siblings)
            && (j != p ==> t.slots[j].children == v.slots[j].children)
  {
    hide WellFormed;
    TailOfRing(v, p, i, dying);
    hide Inv, InRange, Ring;
    RingWithEffect(v.slots, p, v.f.kids[p], i, j);
  }

  lemma AdoptOwned(v: View, p: nat, i: nat, dying: set<nat>)
    requires Inv(v, dying, {}) && CanAdopt(v, p, i)
    ensures Shape(Adopted(v, p, i)) && Owned(Adopted(v, p, i), {})
  {
    hide WellFormed, Linked, Indexed, FreeList, Counted, BatchChain, Dying, RingWith, Attached;
    var t := Adopted(v, p, i);
    AttachWellFormed(v.f, p, i);
    SameSizes(t.f);
    AttachedSize(v.f, p, i);
    forall j | 0 <= j < |v.slots|
      ensures SameButRing(v.slots[j], t.slots[j]) && SlotOwned(t, {}, j)
    {
      AdoptSlotOwned(v, p, i, dying, j);
    }
    hide SlotOwned;
  }

  lemma AttachedSize(f: Forest, p: nat, i: nat)
    requires p < |f.kids| && i < |f.up|
    ensures |Attached(f, p, i).kids| == |f.kids| && |Attached(f, p, i).up| == |f.up|
  {
  }

  lemma AdoptSlotOwned(v: View, p: nat, i: nat, dying: set<nat>, j: nat)
    requires Inv(v, dying, {}) && CanAdopt(v, p, i) && Shape(Adopted(v, p, i)) && j < |v.slots|
    ensures SameButRing(v.slots[j], Adopted(v, p, i).slots[j]) && SlotOwned(Adopted(v, p, i), {}, j)
  {
    hide WellFormed, Linked, Indexed, FreeList, Counted, BatchChain, Dying, RingWith;
    AdoptSlots(v, p, i, dying, j);
    assert SlotOwned(v, {}, j) by { assert v.slots[j] == v.slots[j]; }
  }

  lemma AdoptLinkedParent(v: View, p: nat, i: nat, dying: set<nat>)
    requires Inv(v, dying, {}) && CanAdopt(v, p, i) && Shape(Adopted(v, p, i))
    ensures SlotLinked(Adopted(v, p, i), p)
  {
    hide WellFormed;
    TailOfRing(v, p, i, dying);
    AdoptSlots(v, p, i, dying, p);
    assert SlotLinked(v, p) by { assert v.slots[p] == v.slots[p]; }
    hide Inv, Shape;
    RingInsert(v.slots, p, v.f.kids[p], i);
  }

  lemma AdoptLinkedOther(v: View, p: nat, i: nat, dying: set<nat>, q: nat)
    requires Inv(v, dying, {}) && CanAdopt(v, p, i) && Shape(Adopted(v, p, i))
    requires q < |v.slots| && q != p && q !in v.freeQ
    ensures SlotLinked(Adopted(v, p, i), q)
  {
    hide WellFormed, Ring, InRange, RingWith, Owned, Indexed, FreeList, Counted, BatchChain, Dying;
    var slots, c := Adopted(v, p, i).slots, v.f.kids[q];
    assert SlotLinked(v, q) by { assert v.slots[q] == v.slots[q]; }
    OtherParent(v.f, p, q);
    AdoptSlots(v, p, i, dying, q);
    if i in c {
      KidAt(v.f, q, i);
    }
    if q in v.f.kids[p] {
      KidAt(v.f, p, q);
    }
    hide Linked;
    forall n | 0 <= n < |c|
      ensures c[n] < |v.slots| && slots[c[n]].siblings == v.slots[c[n]].siblings
    {
      KidAt(v.f, q, c[n]);
      AdoptSlots(v, p, i, dying, c[n]);
    }
    RingFrame(v.slots, slots, q, c);
  }

  /** Two slots have no child in common. */
  lemma OtherParent(f: Forest, p: nat, q: nat)
    requires WellFormed(f) && p < |f.kids| && q < |f.kids| && p != q
    ensures forall x :: x in f.kids[q] ==> x !in f.kids[p]
  {
    hide WellFormed;
    forall x | x in f.kids[q] && x in f.kids[p]
      ensures false
    {
      KidAt(f, q, x);
      KidAt(f, p, x);
    }
  }

  lemma AdoptLinked(v: View, p: nat, i: nat)
    requires Inv(v, {i}, {}) && CanAdopt(v, p, i) && Shape(Adopted(v, p, i))
    ensures Linked(Adopted(v, p, i))
  {
    hide WellFormed;
    var t := Adopted(v, p, i);
    hide Inv, SlotLinked;
    forall q | 0 <= q < |t.slots| && q !in t.freeQ
      ensures SlotLinked(t, q)
    {
      if q == p {
        AdoptLinkedParent(v, p, i, {i});
      } else {
        AdoptLinkedOther(v, p, i, {i}, q);
      }
    }
  }

  lemma AdoptIndexed(v: View, p: nat, i: nat)
    requires Inv(v, {i}, {}) && CanAdopt(v, p, i)
    requires !v.slots[i].flags.multi ==> KeyOf(Adopted(v, p, i).slots[i]) !in v.index
    ensures |Adopted(v, p, i).slots| == |v.slots|
    ensures Indexed(Adopted(v, p, i).slots, WithKey(Adopted(v, p, i), i), {})
    ensures FreeList(Adopted(v, p, i)) && BatchChain(Adopted(v, p, i))
  {
    hide WellFormed;
    var t := Adopted(v, p, i);
    forall j | 0 <= j < |v.slots|
      ensures SameButRing(v.slots[j], t.slots[j])
      ensures j != i ==> KeyOf(t.slots[j]) == KeyOf(v.slots[j])
    {
      AdoptSlots(v, p, i, {i}, j);
    }
    hide Linked, Owned, Shape, FreeList, BatchChain, Counted, Indexed;
    IndexGains(v.slots, v.index, i, t.slots);
    ListsSame(v, t, {});
  }

  /** AdoptChild followed by the index entry AllocHandle made for the child. */
  lemma AdoptKeeps(v: View, p: nat, i: nat)
    requires Inv(v, {i}, {}) && CanAdopt(v, p, i)
    requires !v.slots[i].flags.multi ==> KeyOf(Adopted(v, p, i).slots[i]) !in v.index
    ensures i < |Adopted(v, p, i).slots|
    ensures Inv(Adopted(v, p, i).(index := WithKey(Adopted(v, p, i), i)), {}, {})
  {
    hide Linked, Indexed, WellFormed, Owned, RingWith, CountIn;
    var t := Adopted(v, p, i);
    AdoptOwned(v, p, i, {i});
    AdoptLinked(v, p, i);
    AdoptIndexed(v, p, i);
    LinkedWithKeys(t, WithKey(t, i));
    OwnedWithKeys(t, WithKey(t, i));
  }
}
