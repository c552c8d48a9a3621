/** AllocHandle: making room, picking a free slot and filling it. */
module HandlePick {
  import opened Forests
  import opened HandleState
  import opened HandleInvariant
  import opened HandleGrow
  import opened HandleAlloc
  import opened HandleContents
  import opened HandleConfig
  import opened HandleResize

  /** The handle structure AllocHandle writes; a batched handle links to the batch so far. */
  function MakeSlot(i: nat, data: nat, typ: nat, flags: Flags, batch: bool, front: nat): Slot {
    Slot(typ, data, if batch then front else 0, batch, false, flags, Link(i, i, i + 1), Link(i, i, 0))
  }

  /** The handle h is new in t: known to the index under its final key, linked nowhere. */
  ghost predicate Arrived(s: View, t: View, h: nat, data: nat, typ: nat, flags: Flags, keyParent: nat, batch: bool)
    requires Sized(s) && Sized(t)
  {
    && 0 < h <= |t.slots| && h - 1 !in Handles(s)
    && Inv(t.(index := s.index), {h - 1}, {})
    && t.index == (if flags.multi then s.index else s.index[Key(data, typ, keyParent) := h])
    && t.slots[h - 1].data == data && t.slots[h - 1].typ == typ && t.slots[h - 1].flags == flags
    && t.f.up[h - 1] == 0 && t.slots[h - 1].siblings.parent == 0
    && (forall j :: 0 <= j < |t.f.born| && j != h - 1 ==> t.f.born[j] < t.f.born[h - 1])
    && Handles(t) == Handles(s)[h - 1 := Node(data, typ, flags, 0, [], batch)]
    && t.batchQ == (if batch then [h - 1] + s.batchQ else s.batchQ)
  }

  /** What AllocHandle does: nothing a client sees, or one handle that has arrived. */
  ghost predicate Tried(s: View, t: View, c: Settings, held: int, e: Error, h: nat, n: Node, keyParent: nat) {
    && Sized(s) && Sized(t) && OuterOf(t, c, held) && t.freeCount + 1 >= s.freeCount
    && (e != Ok ==> h == 0 && e != NotShareable && Inv(t, {}, {}) && Handles(t) == Handles(s))
    && (e == Ok ==> Arrived(s, t, h, n.data, n.typ, n.flags, keyParent, n.batched))
  }

  lemma TriedInVain(s: View, t: View, c: Settings, held: int, e: Error, e': Error, i: nat, m: nat, n: Node, keyParent: nat)
    requires Picked(s, t, e, i, m) && OuterOf(t, c, held) && e' != Ok && e' != NotShareable
    ensures Tried(s, t, c, held, e', 0, n, keyParent)
  {
    hide Inv, OuterOf, Handles, Arrived, Batches;
  }

  ghost predicate Searchable(v: View) {
    v.purging ==>
      && v.firstFree % BLOCK_SIZE == 0
      && exists b :: v.firstFree / BLOCK_SIZE <= b < |v.blockFree| && v.blockFree[b] > 0
  }

  /** The view after AllocHandle picked a slot. */
  ghost function Searched(v: View): View {
    if v.purging then v.(firstFree := 0) else v
  }

  /** The view after AllocHandle made room and picked free slot number m, which is slot i. */
  ghost predicate Picked(s: View, t: View, e: Error, i: nat, m: nat) {
    && Sized(s) && Steady(t) && Handles(t) == Handles(s)
    && t.batchQ == s.batchQ && t.index == s.index && t.purging == s.purging
    && (t.purging ==> t.firstFree == 0)
    && (e == Ok ==> m < |t.freeQ| && t.freeQ[m] == i && (!t.purging ==> m == 0))
    && (s.freeCount > 0 ==> e == Ok) && e != NotShareable && t.freeCount >= s.freeCount
  }

  lemma StartPick(s: View, c: Settings, held: int)
    requires Inv(s, {}, {}) && OuterOf(s, c, held)
    ensures Steady(s) && Sized(s) && |s.slots| <= c.max <= MAX_INDEX_PLUS_ONE && c.max % BLOCK_SIZE == 0
    ensures held == |s.blockFree| && (s.purging ==> s.firstFree == 0) && GrowSafeFor(s, 1)
  {
    hide WellFormed;
    Sizes(s, {}, {});
  }

  /** Making room keeps the invariant; a purging base with room has it at or after its
      first-free index. */
  lemma RoomMade(s: View, t: View, e: Error, n: nat, added: seq<Slot>, c: Settings, held: int)
    requires Steady(s) && Ensured(s, t, e, n, added) && GrowSafeFor(s, n) && n > 0
    requires s.purging ==> s.firstFree == 0
    ensures Steady(t) && Handles(t) == Handles(s) && t.batchQ == s.batchQ && t.index == s.index
    ensures t.purging == s.purging && (e != Ok ==> t == s && (e == OutOfMemory || e == InvalidParams))
    ensures e == Ok ==> t.freeCount >= n && Searchable(t)
    ensures (s.freeCount >= n ==> e == Ok) && t.freeCount >= s.freeCount
    ensures OuterOf(s, c, |s.blockFree|) && |t.slots| <= c.max && (e != Ok || !t.purging) ==> OuterOf(t, c, |t.blockFree|)
    ensures OuterOf(s, c, |s.blockFree|) && |t.slots| <= c.max ==> OuterOf(Searched(t), c, |t.blockFree|)
  {
    hide WellFormed;
    AfterEnsure(s, t, e, n, added);
    if !s.purging {
    } else if t == s {
      if e == Ok {
        FreeSlotFacts(s, 0);
        assert t.blockFree[s.freeQ[0] / BLOCK_SIZE] > 0;
      }
    } else {
      Sizes(s, {}, {});
      assert |s.blockFree| * BLOCK_SIZE == |s.slots|;
      hide Inv;
      assert |added| >= BLOCK_SIZE;
      assert t.blockFree[|s.blockFree|] > 0;
    }
  }

  lemma PickDone(s: View, mid: View, t: View, e: Error, i: nat, m: nat, c: Settings, held: int)
    requires Steady(mid) && Sized(s) && Handles(mid) == Handles(s) && mid.batchQ == s.batchQ && mid.index == s.index
    requires mid.purging == s.purging && (s.purging ==> s.firstFree == 0)
    requires (s.freeCount > 0 ==> e == Ok) && e != NotShareable && mid.freeCount >= s.freeCount
    requires e != Ok ==> mid == s && t == s
    requires e == Ok ==> t == Searched(mid) && m < |t.freeQ| && t.freeQ[m] == i && (!t.purging ==> m == 0)
    ensures Picked(s, t, e, i, m)
  {
    hide WellFormed;
    FirstFreeReset(mid, t);
  }

  lemma FirstFreeReset(s: View, t: View)
    requires Steady(s) && (t == s || t == Searched(s))
    ensures Steady(t) && Handles(t) == Handles(s)
  {
    hide WellFormed;
    if t != s {
      LinkedWithFirst(s, 0);
      OwnedWithFirst(s, 0);
      hide Owned, Linked, Indexed, Batches;
      assert FreeList(t);
      assert BatchChain(t);
    }
  }

  lemma LinkedWithFirst(v: View, first: nat)
    requires Shape(v) && Linked(v)
    ensures Shape(v.(firstFree := first)) && Linked(v.(firstFree := first))
  {
    hide WellFormed;
    var t := v.(firstFree := first);
    forall p | 0 <= p < |t.slots| && p !in t.freeQ
      ensures SlotLinked(t, p)
    {
      assert SlotLinked(v, p) by { assert v.slots[p] == v.slots[p]; }
    }
  }

  lemma OwnedWithFirst(v: View, first: nat)
    requires Shape(v) && Owned(v, {})
    ensures Shape(v.(firstFree := first)) && Owned(v.(firstFree := first), {})
  {
    hide WellFormed;
    var t := v.(firstFree := first);
    forall j | 0 <= j < |t.slots|
      ensures SlotOwned(t, {}, j)
    {
      assert SlotOwned(v, {}, j);
    }
  }

  /** No child names a free slot as its parent. */
  lemma FreeHasNoChild(v: View, i: nat)
    requires Inv(v, {}, {}) && i in v.freeQ && i < |v.slots| && Sized(v)
    ensures forall c :: 0 <= c < |v.f.up| ==> v.f.up[c] != i + 1
  {
    hide WellFormed;
    forall c | 0 <= c < |v.f.up|
      ensures v.f.up[c] != i + 1
    {
      if v.f.up[c] != 0 {
        ParentInUse(v, {}, c);
      }
    }
  }

  lemma BornBeforeClock(v: View)
    requires Inv(v, {}, {}) && Sized(v)
    ensures forall j :: 0 <= j < |v.f.born| ==> v.f.born[j] < v.f.clock
  {
  }

  lemma TakenWithIndex(v: View, index: map<Key, nat>, m: nat, s: Slot, batch: bool)
    requires CanTake(v, m, s, batch)
    ensures CanTake(v.(index := index), m, s, batch)
    ensures Taken(v.(index := index), m, s, batch) == Taken(v, m, s, batch).(index := index)
  {
  }

  lemma TakenFields(v: View, t: View, m: nat, s: Slot, batch: bool)
    requires CanTake(v, m, s, batch)
    requires var i := v.freeQ[m];
             && t.slots == v.slots[i := s] && t.freeCount == v.freeCount - 1
             && t.blockFree == v.blockFree[i / BLOCK_SIZE := v.blockFree[i / BLOCK_SIZE] - 1]
             && t.firstFree == (if v.purging || t.freeCount == 0 then 0 else Follow(v.slots, i))
             && t.lastFreePlusOne == (if !v.purging && t.freeCount == 0 then 0 else v.lastFreePlusOne)
             && t.f == v.f.(born := v.f.born[i := v.f.clock], clock := v.f.clock + 1)
             && t.freeQ == v.freeQ[..m] + v.freeQ[m + 1..]
             && t.batchQ == (if batch then [i] + v.batchQ else v.batchQ)
             && t.index == v.index && t.purging == v.purging
    ensures t == Taken(v, m, s, batch)
  {
  }

  lemma TakenSizes(v: View, m: nat, s: Slot, batch: bool)
    requires CanTake(v, m, s, batch)
    ensures var t := Taken(v, m, s, batch);
            && |t.slots| == |v.slots| && |t.blockFree| == |v.blockFree|
            && t.batchQ == (if batch then [v.freeQ[m]] + v.batchQ else v.batchQ)
            && (v.purging ==> t.firstFree == 0) && t.purging == v.purging && t.index == v.index
            && t.freeCount == v.freeCount - 1
  {
  }

  lemma ArriveBatch(v: View, t: View, m: nat, slot: Slot, batch: bool)
    requires Steady(v) && CanTake(v, m, slot, batch) && t == Taken(v, m, slot, batch).(index := t.index)
    ensures Sized(t) && t.f.clock > 0 && Batches(t.f, t.batchQ)
    ensures t.f.up == v.f.up && forall j :: 0 <= j < |t.f.born| && j != v.freeQ[m] ==> t.f.born[j] < t.f.born[v.freeQ[m]]
    ensures t.f.up[v.freeQ[m]] == 0 && v.freeQ[m] !in v.batchQ
  {
    hide WellFormed;
    FreeSlotFacts(v, m);
    BornBeforeClock(v);
    FreeHasNoChild(v, v.freeQ[m]);
    hide Inv, Batches;
    BatchPush(v.f, t.f, v.batchQ, v.freeQ[m]);
  }

  lemma ArriveHandles(v: View, t: View, m: nat, slot: Slot, batch: bool)
    requires Steady(v) && CanTake(v, m, slot, batch) && t == Taken(v, m, slot, batch).(index := t.index)
    ensures Inv(t.(index := v.index), {v.freeQ[m]}, {}) && Sized(t) && v.freeQ[m] < |t.slots|
    ensures v.freeQ[m] !in Handles(v) && t.slots[v.freeQ[m]] == slot
    ensures Handles(t) == Handles(v)[v.freeQ[m] := Node(slot.data, slot.typ, slot.flags, 0, [], batch)]
  {
    hide WellFormed;
    FreeSlotFacts(v, m);
    TakeKeeps(v, m, slot, batch);
    TakeHandles(v, m, slot, batch);
    hide Inv;
    assert t.(index := v.index) == Taken(v, m, slot, batch);
    assert Handles(t) == Handles(Taken(v, m, slot, batch));
  }

  lemma Arrive(s: View, v: View, t: View, m: nat, slot: Slot, keyParent: nat, batch: bool)
    requires Sized(s) && Steady(v) && CanTake(v, m, slot, batch)
    requires Handles(v) == Handles(s) && v.index == s.index && v.batchQ == s.batchQ
    requires t == Taken(v, m, slot, batch).(index := t.index)
    requires t.index == if slot.flags.multi then s.index else s.index[Key(slot.data, slot.typ, keyParent) := v.freeQ[m] + 1]
    ensures Sized(t) && t.f.clock > 0 && Batches(t.f, t.batchQ)
    ensures Arrived(s, t, v.freeQ[m] + 1, slot.data, slot.typ, slot.flags, keyParent, batch)
  {
    hide WellFormed;
    ArriveBatch(v, t, m, slot, batch);
    ArriveHandles(v, t, m, slot, batch);
    hide Inv, Handles, Steady, Batches;
  }

  lemma PickedMeans(s: View, t: View, e: Error, i: nat, m: nat)
    requires Picked(s, t, e, i, m)
    ensures Sized(s) && Sized(t) && e != NotShareable && t.index == s.index
  {
  }

  lemma ReadyToTake(s: View, v: View, v': View, c: Settings, held: int, i: nat, m: nat, slot: Slot, batch: bool)
    requires Picked(s, v, Ok, i, m) && OuterOf(v, c, held) && v' == v.(index := v'.index) && batch == (c.batchSize != 0)
    requires slot == MakeSlot(i, slot.data, slot.typ, slot.flags, batch, c.front) && slot.typ != NO_TYPE
    ensures CanTake(v, m, slot, batch) && CanTake(v', m, slot, batch) && v'.freeQ[m] == i && (v'.purging ==> v'.firstFree == 0)
  {
    FreeSlotFacts(v, m);
    hide Inv, Batches;
    TakenWithIndex(v, v'.index, m, slot, batch);
  }

  /** The slot is filled and the settings follow. */
  lemma Filled(s: View, v: View, t: View, c: Settings, c': Settings, held: int, i: nat, m: nat, slot: Slot, keyParent: nat, batch: bool)
    requires Picked(s, v, Ok, i, m) && OuterOf(v, c, held) && batch == (c.batchSize != 0) && CanTake(v, m, slot, batch)
    requires CanTake(v.(index := t.index), m, slot, batch) && t == Taken(v.(index := t.index), m, slot, batch)
    requires t.index == if slot.flags.multi then s.index else s.index[Key(slot.data, slot.typ, keyParent) := i + 1]
    requires c' == c.(front := if batch then i + 1 else c.front)
    ensures Tried(s, t, c', held, Ok, i + 1, Node(slot.data, slot.typ, slot.flags, 0, [], batch), keyParent)
  {
    hide Inv, Batches, Handles, Arrived, Taken, NewSlot;
    TakenWithIndex(v, t.index, m, slot, batch);
    TakenSizes(v, m, slot, batch);
    Arrive(s, v, t, m, slot, keyParent, batch);
  }

  lemma {:induction false} MemberIn(q: seq<nat>, b: nat) returns (j: nat)
    requires CountIn(q, b) > 0
    ensures j in q && j / BLOCK_SIZE == b
  {
    if q[|q| - 1] / BLOCK_SIZE == b {
      j := q[|q| - 1];
    } else {
      j := MemberIn(q[..|q| - 1], b);
    }
  }

  lemma FreeSlotIn(v: View, b: nat) returns (j: nat)
    requires Inv(v, {}, {}) && b < |v.blockFree| && v.blockFree[b] > 0 && v.purging
    ensures b * BLOCK_SIZE <= j < (b + 1) * BLOCK_SIZE && j < |v.slots|
    ensures v.slots[j].typ == NO_TYPE && !v.slots[j].batched && !v.slots[j].partFree
  {
    hide WellFormed, Linked, Indexed, FreeList, BatchChain;
    j := MemberIn(v.freeQ, b);
    InBlock(j, b, b * BLOCK_SIZE);
    assert SlotOwned(v, {}, j) by { assert v.slots[j] == v.slots[j]; }
  }

  /** A block starts below the end of the array exactly when it is one of its blocks. */
  lemma BlockBelow(b: nat, blocks: nat)
    ensures b * BLOCK_SIZE < blocks * BLOCK_SIZE <==> b < blocks
  {
  }

  lemma FreeByFlags(v: View, i: nat)
    requires Inv(v, {}, {}) && v.purging && i < |v.slots| && v.slots[i].typ == NO_TYPE
    ensures i in v.freeQ
  {
    hide WellFormed;
    assert SlotOwned(v, {}, i) by { assert v.slots[i] == v.slots[i]; }
  }
}
