/** Ending a batch of handles: commit keeps its handles, release frees them. */
module HandleBatch {
  import opened Forests
  import opened HandleState
  import opened HandleInvariant
  import opened HandleFree
  import opened HandleAlloc
  import opened HandleContents
  import opened HandleConfig
  import opened HandleRelease

  /** The first slot of the batch list leaves it, and no longer counts as batched unless it
      was released while the batch was open. */
  ghost function Popped(v: View): View
    requires v.batchQ != [] && v.batchQ[0] < |v.slots|
  {
    var i := v.batchQ[0];
    v.(slots := v.slots[i := v.slots[i].(nextPlusOne := 0, batched := v.slots[i].partFree && v.slots[i].batched)],
       batchQ := v.batchQ[1..])
  }

  lemma HeadOfBatch(v: View)
    requires Inv(v, {}, {}) && v.batchQ != []
    ensures var i := v.batchQ[0];
            && i < |v.slots| && i !in v.batchQ[1..] && v.slots[i].batched && i !in v.freeQ
            && v.slots[i].nextPlusOne == Front(v.batchQ[1..])
            && (v.slots[i].partFree <==> v.slots[i].typ == NO_TYPE)
            && (v.slots[i].typ == NO_TYPE ==> v.f.kids[i] == [] && v.f.up[i] == 0)
  {
    hide Linked, Indexed, FreeList, Counted, WellFormed;
    var i := v.batchQ[0];
    assert i in v.batchQ;
    assert BatchStep(v.slots, v.batchQ, 0);
    assert SlotOwned(v, {}, i) by { assert v.slots[i] == v.slots[i]; }
    DistinctHead(v.batchQ);
  }

  lemma DistinctHead(q: seq<nat>)
    requires Distinct(q) && q != []
    ensures q[0] !in q[1..] && Distinct(q[1..])
    ensures forall x :: x in q[1..] <==> x in q && x != q[0]
  {
    assert q == [q[0]] + q[1..];
  }

  lemma PopOwned(v: View)
    requires Inv(v, {}, {}) && v.batchQ != [] && v.batchQ[0] < |v.slots|
    ensures var i := v.batchQ[0];
            Shape(Popped(v)) && Owned(Popped(v), if v.slots[i].typ == NO_TYPE then {i} else {})
  {
    hide Linked, Indexed, FreeList, Counted, WellFormed, BatchChain, Distinct;
    HeadOfBatch(v);
    var t, i := Popped(v), v.batchQ[0];
    var limbo := if v.slots[i].typ == NO_TYPE then {i} else {};
    assert Distinct(v.batchQ);
    DistinctHead(v.batchQ);
    forall j | 0 <= j < |t.slots|
      ensures SlotOwned(t, limbo, j)
    {
      assert SlotOwned(v, {}, j) by { assert v.slots[j] == v.slots[j]; }
    }
  }

  lemma PopRest(v: View)
    requires Inv(v, {}, {}) && v.batchQ != [] && v.batchQ[0] < |v.slots| && Shape(Popped(v))
    ensures Linked(Popped(v)) && Indexed(Popped(v).slots, Popped(v).index, {})
    ensures FreeList(Popped(v)) && Counted(Popped(v)) && BatchChain(Popped(v))
  {
    hide Linked, Indexed, WellFormed, Owned, Chain;
    HeadOfBatch(v);
    var t, i := Popped(v), v.batchQ[0];
    LinkedSame(v, t);
    IndexCarries(v.slots, v.index, {}, t.slots, t.index, {}, {});
    if !v.purging {
      ChainSame(v.slots, t.slots, v.freeQ, v.firstFree, v.lastFreePlusOne) by { FreeMembers(v); }
    }
    forall m | 0 <= m < |t.batchQ|
      ensures BatchStep(t.slots, t.batchQ, m)
    {
      assert BatchStep(v.slots, v.batchQ, m + 1);
    }
  }

  lemma FreeMembers(v: View)
    requires Inv(v, {}, {})
    ensures forall m :: 0 <= m < |v.freeQ| ==> v.freeQ[m] < |v.slots| && v.freeQ[m] !in v.batchQ
  {
    hide WellFormed;
    forall m | 0 <= m < |v.freeQ|
      ensures v.freeQ[m] < |v.slots| && v.freeQ[m] !in v.batchQ
    {
      assert v.freeQ[m] in v.freeQ;
    }
  }

  lemma PopKeeps(v: View)
    requires Inv(v, {}, {}) && v.batchQ != []
    ensures v.batchQ[0] < |v.slots|
    ensures Inv(Popped(v), {}, if v.slots[v.batchQ[0]].typ == NO_TYPE then {v.batchQ[0]} else {})
  {
    hide WellFormed;
    HeadOfBatch(v);
    PopOwned(v);
    PopRest(v);
    hide Linked, Indexed, Owned, FreeList, Counted, BatchChain;
  }

  // ---------- what the handles look like while a batch is being ended ----------

  /** The handles with those in `done` no longer marked as batched. */
  ghost function Settled(h: map<nat, Node>, done: set<nat>): map<nat, Node> {
    map j | j in h :: if j in done then h[j].(batched := false) else h[j]
  }

  /** The members of q that hold no handle any more. */
  ghost function FreedEarlier(h: map<nat, Node>, q: seq<nat>): seq<nat> {
    if q == [] then [] else FreedEarlier(h, q[..|q| - 1]) + (if q[|q| - 1] in h then [] else [q[|q| - 1]])
  }

  /** The first m slots of the batch list of s have been dealt with, giving t. */
  ghost predicate Ending(s: View, t: View, m: nat, commit: bool) {
    && Sized(s) && Sized(t) && m <= |s.batchQ| && t.batchQ == s.batchQ[m..]
    && t.purging == s.purging && |t.slots| == |s.slots| && t.f.clock == s.f.clock && Distinct(s.batchQ)
    && (!commit ==>
          && Batches(t.f, t.batchQ) && Handles(t) == Remaining(Handles(s), Elems(s.batchQ[..m]))
          && t.freeQ == s.freeQ + s.batchQ[..m])
    && (commit ==>
          && Handles(t) == Settled(Handles(s), Elems(s.batchQ[..m]))
          && t.freeQ == s.freeQ + FreedEarlier(Handles(s), s.batchQ[..m]))
  }

  lemma EndingStarts(s: View, commit: bool)
    requires Inv(s, {}, {}) && Sized(s) && Batches(s.f, s.batchQ)
    ensures Ending(s, s, 0, commit)
  {
    hide Linked, Indexed, FreeList, Counted, WellFormed, BatchChain;
    assert Elems(s.batchQ[..0]) == {};
    RemainingNone(Handles(s));
  }

  lemma RemainingNone(h: map<nat, Node>)
    ensures Remaining(h, {}) == h && Settled(h, {}) == h
  {
    forall j | j in h { WithoutNone(h[j].kids, {}); }
  }

  lemma RemainingTwice(h: map<nat, Node>, a: set<nat>, b: set<nat>)
    ensures Remaining(Remaining(h, a), b) == Remaining(h, a + b)
  {
    forall j | j in h { WithoutTwice(h[j].kids, a, b); }
  }

  lemma NextElem(q: seq<nat>, m: nat)
    requires m < |q|
    ensures Elems(q[..m + 1]) == Elems(q[..m]) + {q[m]}
    ensures q[..m + 1] == q[..m] + [q[m]]
    ensures q[m..][0] == q[m] && q[m..][1..] == q[m + 1..]
  {
    assert q[..m + 1] == q[..m] + [q[m]];
  }

  lemma OwnedByNewest(f: Forest, q: seq<nat>, c: nat)
    requires |f.up| == |f.born| && q != [] && Batches(f, q) && c < |f.up| && f.up[c] == q[0] + 1
    ensures q[0] < |f.born| && f.born[c] <= f.born[q[0]]
  {
    hide WellFormed;
    assert c in q;
  }

  /** The newest handle of the batch has no children left: they would be in the batch, and
      younger. */
  lemma NewestIsLeaf(v: View)
    requires Inv(v, {}, {}) && Sized(v) && v.batchQ != [] && Batches(v.f, v.batchQ)
    ensures v.batchQ[0] < |v.f.kids| && v.f.kids[v.batchQ[0]] == []
  {
    hide Linked, Indexed, FreeList, Counted, BatchChain, Owned, Batches;
    HeadOfBatch(v);
    var i := v.batchQ[0];
    if v.f.kids[i] != [] {
      assert Adopts(v.f, i);
      OwnedByNewest(v.f, v.batchQ, v.f.kids[i][0]);
    }
  }

  lemma LeafPostOrder(f: Forest, i: nat)
    requires WellFormed(f) && i < |f.kids| && f.kids[i] == []
    ensures PostOrder(f, i) == [i]
  {
    assert PostOrders(f, [], f.born[i]) == [];
  }

  lemma BatchPop(f: Forest, q: seq<nat>)
    requires |f.kids| == |f.up| == |f.born| && q != [] && Batches(f, q)
    ensures Batches(Prune(f, {q[0]}), q[1..])
  {
    hide WellFormed;
    var g := Prune(f, {q[0]});
    assert q == [q[0]] + q[1..];
    forall c | 0 <= c < |g.up| && g.up[c] != 0 && g.up[c] - 1 in q[1..]
      ensures c in q[1..]
    {
      assert c in q;
    }
  }

  lemma PoppedHandles(v: View)
    requires Sized(v) && v.batchQ != [] && v.batchQ[0] < |v.slots|
    ensures var i := v.batchQ[0];
            && Sized(Popped(v)) && Remaining(Handles(Popped(v)), {i}) == Remaining(Handles(v), {i})
            && (v.slots[i].typ != NO_TYPE && !v.slots[i].partFree ==>
                  i in Handles(v) && Handles(Popped(v)) == Handles(v)[i := Handles(v)[i].(batched := false)])
            && (v.slots[i].typ == NO_TYPE ==> Handles(Popped(v)) == Handles(v) && i !in Handles(v))
  {
    hide Popped, Handles, Remaining;
    PoppedElsewhere(v);
    var i, t := v.batchQ[0], Popped(v);
    HandlesElsewhere(v, t, i);
    RemainingElsewhere(Handles(v), Handles(t), i);
    HandlesAt(v, i);
    HandlesAt(t, i);
  }

  lemma HandlesElsewhere(v: View, t: View, i: nat)
    requires Sized(v) && Sized(t) && i < |t.slots| == |v.slots| && t.slots[i].typ == v.slots[i].typ
    requires forall j :: 0 <= j < |v.slots| && j != i ==> t.slots[j] == v.slots[j] && NodeAt(t, j) == NodeAt(v, j)
    ensures Handles(t) == if i in Handles(v) then Handles(v)[i := NodeAt(t, i)] else Handles(v)
  {
    hide NodeAt;
    var a, b := Handles(v), Handles(t);
    assert forall j :: j in b <==> j in a;
    assert forall j :: j in b && j != i ==> b[j] == a[j];
    hide Handles;
  }

  lemma RemainingElsewhere(a: map<nat, Node>, b: map<nat, Node>, i: nat)
    requires a.Keys == b.Keys && forall j :: j in a && j != i ==> b[j] == a[j]
    ensures Remaining(b, {i}) == Remaining(a, {i})
  {
    hide Without;
  }

  /** Taking the newest handle out of the batch touches that handle alone. */
  lemma PoppedElsewhere(v: View)
    requires Sized(v) && v.batchQ != [] && v.batchQ[0] < |v.slots|
    ensures var i, t := v.batchQ[0], Popped(v);
            && Sized(t) && |t.slots| == |v.slots|
            && (forall j :: 0 <= j < |v.slots| && j != i ==> t.slots[j] == v.slots[j] && NodeAt(t, j) == NodeAt(v, j))
            && t.slots[i].batched == (v.slots[i].partFree && v.slots[i].batched)
            && t.slots[i].typ == v.slots[i].typ && NodeAt(t, i) == NodeAt(v, i).(batched := t.slots[i].batched)
  {
  }

  lemma PoppedReclaimed(v: View)
    requires v.batchQ != [] && v.batchQ[0] < |v.slots|
    ensures Reclaimed(Popped(v).slots, [v.batchQ[0]]) == [v.batchQ[0]]
  {
    hide WellFormed;
    var i := v.batchQ[0];
    assert [i][..0] == [];
    assert Reclaimed(Popped(v).slots, []) == [];
  }

  /** Handle i went to the free list; t is what is left of v. */
  lemma EndFreedCore(v: View, t: View)
    requires Inv(v, {}, {}) && Sized(v) && v.batchQ != [] && v.batchQ[0] < |v.slots|
    requires Gone(Popped(v), t, Elems([v.batchQ[0]]), [v.batchQ[0]])
    ensures Sized(t) && Handles(t) == Remaining(Handles(v), {v.batchQ[0]})
    ensures t.freeQ == v.freeQ + [v.batchQ[0]] && t.batchQ == v.batchQ[1..] && t.f == Prune(v.f, {v.batchQ[0]})
    ensures t.purging == v.purging && |t.slots| == |v.slots| && t.f.clock == v.f.clock
  {
    hide WellFormed, Inv, Gone, Handles, Reclaimed, Prune, Remaining;
    var i := v.batchQ[0];
    assert Elems([i]) == {i};
    PoppedHandles(v);
    PoppedReclaimed(v);
    GoneFields(Popped(v), t, [i]);
    GoneHandles(Popped(v), t, [i]);
    SizedPrune(v.f, {i});
  }

  lemma EndReleased(s: View, v: View, t: View, m: nat)
    requires Ending(s, v, m, false) && Inv(v, {}, {}) && v.batchQ != [] && v.batchQ[0] < |v.slots|
    requires Gone(Popped(v), t, Elems([v.batchQ[0]]), [v.batchQ[0]])
    ensures Ending(s, t, m + 1, false)
  {
    hide WellFormed, Inv, Gone, Handles, Prune, Popped, Batches, Remaining, Distinct;
    EndFreedCore(v, t);
    BatchPop(v.f, v.batchQ);
    NextElem(s.batchQ, m);
    RemainingTwice(Handles(s), Elems(s.batchQ[..m]), {s.batchQ[m]});
  }

  lemma ParkedAlready(v: View, i: nat)
    requires Inv(v, {}, {}) && Sized(v) && i < |v.slots| && v.slots[i].typ == NO_TYPE
    ensures i !in Handles(v) && Remaining(Handles(v), {i}) == Handles(v)
  {
    hide Linked, Indexed, FreeList, Counted, BatchChain;
    assert SlotOwned(v, {}, i) by { assert v.slots[i] == v.slots[i]; }
    forall j | j in Handles(v)
      ensures Without(Handles(v)[j].kids, {i}) == Handles(v)[j].kids
    {
      assert Adopts(v.f, j) by { assert v.f.kids[j] == v.f.kids[j]; }
      WithoutNone(v.f.kids[j], {i});
    }
  }

  lemma ReleasedNext(h: map<nat, Node>, q: seq<nat>, m: nat)
    requires m < |q|
    ensures FreedEarlier(h, q[..m + 1]) == FreedEarlier(h, q[..m]) + (if q[m] in h then [] else [q[m]])
  {
    assert q[..m + 1][..m] == q[..m];
  }

  /** A handle released while the batch was open goes to the free list now. */
  lemma EndCommittedFree(s: View, v: View, t: View, m: nat)
    requires Ending(s, v, m, true) && Inv(v, {}, {}) && v.batchQ != [] && v.batchQ[0] < |v.slots|
    requires v.slots[v.batchQ[0]].typ == NO_TYPE
    requires Gone(Popped(v), t, Elems([v.batchQ[0]]), [v.batchQ[0]])
    ensures Ending(s, t, m + 1, true)
  {
    hide WellFormed, Inv, Gone, Handles, Prune, Popped, Batches, Remaining, Distinct, Elems, FreedEarlier;
    EndFreedCore(v, t);
    NextElem(s.batchQ, m);
    ParkedAlready(v, v.batchQ[0]);
    ReleasedNext(Handles(s), s.batchQ, m);
    assert s.batchQ[m] in Handles(s) <==> s.batchQ[m] in Handles(v);
  }

  lemma EndFreed(s: View, v: View, t: View, m: nat, commit: bool)
    requires Ending(s, v, m, commit) && Inv(v, {}, {}) && v.batchQ != [] && v.batchQ[0] < |v.slots|
    requires commit ==> v.slots[v.batchQ[0]].typ == NO_TYPE
    requires Gone(Popped(v), t, Elems([v.batchQ[0]]), [v.batchQ[0]])
    ensures Ending(s, t, m + 1, commit) && t.batchQ == v.batchQ[1..]
  {
    hide WellFormed, Inv, Gone, Ending, Popped;
    EndingFacts(s, v, m, commit);
    EndFreedCore(v, t);
    if commit {
      EndCommittedFree(s, v, t, m);
    } else {
      EndReleased(s, v, t, m);
    }
  }

  lemma EndCommittedKeep(s: View, v: View, m: nat)
    requires Ending(s, v, m, true) && Inv(v, {}, {}) && v.batchQ != [] && v.batchQ[0] < |v.slots|
    requires v.slots[v.batchQ[0]].typ != NO_TYPE && !v.slots[v.batchQ[0]].partFree
    ensures Ending(s, Popped(v), m + 1, true)
  {
    hide WellFormed, Inv, Handles, Batches, Distinct, Elems, FreedEarlier;
    NextElem(s.batchQ, m);
    PoppedHandles(v);
    ReleasedNext(Handles(s), s.batchQ, m);
    assert s.batchQ[m] in Handles(s);
  }

  /** The end of a batch. Released: the batch's handles are gone and every other handle is as
      it was, less the children it got in the batch. Committed: every handle is kept. Either
      way a slot that ends up free goes to the free list once. */
  ghost predicate BatchEnded(s: View, t: View, commit: bool) {
    && Sized(s) && Sized(t) && t.batchQ == [] && Distinct(s.batchQ)
    && (!commit ==>
          && (forall j :: j in Handles(t) <==> j in Handles(s) && !Handles(s)[j].batched)
          && Handles(t) == Remaining(Handles(s), Elems(s.batchQ)) && t.freeQ == s.freeQ + s.batchQ)
    && (commit ==>
          && Handles(t) == (map j | j in Handles(s) :: Handles(s)[j].(batched := false))
          && t.freeQ == s.freeQ + FreedEarlier(Handles(s), s.batchQ))
  }

  lemma BatchMember(v: View, j: nat)
    requires Inv(v, {}, {}) && Sized(v) && j in Handles(v)
    ensures Handles(v)[j].batched <==> j in v.batchQ
  {
    hide Linked, Indexed, FreeList, Counted, BatchChain, WellFormed;
    assert SlotOwned(v, {}, j) by { assert v.slots[j] == v.slots[j]; }
  }

  lemma BatchDone(s: View, t: View, m: nat, commit: bool)
    requires Ending(s, t, m, commit) && Inv(s, {}, {}) && t.batchQ == []
    ensures BatchEnded(s, t, commit)
  {
    hide WellFormed, Inv, Batches, Distinct, FreedEarlier;
    assert s.batchQ[..m] == s.batchQ;
    hide Handles;
    forall j | j in Handles(s)
      ensures Handles(s)[j].batched <==> j in s.batchQ
    {
      BatchMember(s, j);
    }
  }

  lemma BatchOuter(s: View, t: View, m: nat, commit: bool, c: Settings, held: int)
    requires OuterOf(s, c, held) && Ending(s, t, m, commit) && t.batchQ == [] && !s.purging
    requires Inv(s, {}, {}) && Inv(t, {}, {})
    ensures OuterOf(t, c.(batchSize := 0, front := 0, failures := 0), held)
  {
    hide Owned, Linked, Indexed, FreeList, Counted, BatchChain, WellFormed, Handles, FreedEarlier, Remaining, Settled;
    assert forall x: nat :: x !in t.batchQ;
  }

  lemma PoppedForest(v: View)
    requires Inv(v, {}, {}) && Sized(v) && v.batchQ != [] && v.batchQ[0] < |v.slots|
    requires v.slots[v.batchQ[0]].typ == NO_TYPE || Batches(v.f, v.batchQ)
    ensures WellFormed(v.f) && Popped(v).f == v.f && PostOrder(v.f, v.batchQ[0]) == [v.batchQ[0]]
  {
    hide Linked, Indexed, FreeList, Counted, BatchChain, Owned, Batches, WellFormed;
    HeadOfBatch(v);
    if v.slots[v.batchQ[0]].typ != NO_TYPE {
      NewestIsLeaf(v);
    }
    LeafPostOrder(v.f, v.batchQ[0]);
  }

  /** Opening a batch on a base without one. */
  lemma BatchOpened(v: View, c: Settings, held: int, n: nat)
    requires Inv(v, {}, {}) && OuterOf(v, c, held) && c.batchSize == 0 && !v.purging && v.freeCount > 0
    ensures OuterOf(v, c.(batchSize := n), held) && v.batchQ == [] && c.front == 0 && c.failures == 0
  {
    hide Inv;
    Sizes(v, {}, {});
    FreeSlotFacts(v, 0);
  }

  lemma StartBatch(s: View, c: Settings, held: int)
    requires Inv(s, {}, {}) && OuterOf(s, c, held)
    ensures Steady(s) && |s.slots| <= c.max <= MAX_INDEX_PLUS_ONE && c.max % BLOCK_SIZE == 0 && held == |s.blockFree|
    ensures s.purging ==> s.firstFree == 0
  {
    hide WellFormed;
    Sizes(s, {}, {});
  }

  lemma StartEnding(s: View, c: Settings, held: int, commit: bool)
    requires Inv(s, {}, {}) && OuterOf(s, c, held)
    ensures Ending(s, s, 0, commit) && c.front == Front(s.batchQ)
  {
    hide WellFormed, Inv, Ending, Batches;
    Sizes(s, {}, {});
    EndingStarts(s, commit);
  }

  lemma EndingFacts(s: View, v: View, m: nat, commit: bool)
    requires Ending(s, v, m, commit)
    ensures m <= |s.batchQ| && |v.batchQ| == |s.batchQ| - m
    ensures Sized(v) && (!commit ==> Batches(v.f, v.batchQ))
  {
  }
}
