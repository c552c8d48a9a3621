/** FreeHandle step by step, and what releasing a handle does for a client. */
module HandleRelease {
  import opened Forests
  import opened HandleState
  import opened HandleInvariant
  import opened HandleFree
  import opened HandleContents
  import opened HandleConfig

  lemma PlaceOf(v: View, dying: set<nat>, limbo: set<nat>, i: nat) returns (m: nat)
    requires Inv(v, dying, limbo) && i < |v.slots|
    ensures Shape(v) && Linked(v) && ChildAt(v, i, m)
    ensures WellFormed(v.f) && v.f.born[i] < v.f.clock && |v.f.kids| == |v.f.up|
    ensures v.f.up[i] != 0 ==> v.f.up[i] - 1 !in v.freeQ
    ensures v.slots[i].typ != NO_TYPE || i in limbo ==> i !in v.freeQ
  {
    m := 0;
    if v.f.up[i] != 0 {
      ParentInUse(v, limbo, i);
      var k := v.f.kids[v.f.up[i] - 1];
      m :| m < |k| && k[m] == i;
    }
  }

  lemma FreeFacts(v: View, dying: set<nat>, limbo: set<nat>, i: nat)
    requires Inv(v, dying, limbo) && i < |v.slots|
    ensures WellFormed(v.f) && |v.f.kids| == |v.f.up| == |v.f.born| == |v.slots| && v.f.born[i] < v.f.clock
    ensures v.slots[i].typ != NO_TYPE ==> !v.slots[i].partFree
  {
    assert SlotOwned(v, limbo, i) by { assert v.slots[i] == v.slots[i]; }
  }

  lemma KeysOfSlot(v: View, i: nat, dying: set<nat>, limbo: set<nat>, k: Key)
    requires Inv(v, dying, limbo) && i < |v.slots| && k in v.index
    ensures v.index[k] > 0
    ensures v.index[k] == i + 1 ==> k == KeyOf(v.slots[i]) && IsIndexed(v.slots, dying, i)
  {
    hide WellFormed, Shape, Owned, Linked, FreeList, Counted, BatchChain, Dying;
    assert EntryHeld(v.slots, v.index, dying, k);
  }

  lemma SlotOfKey(v: View, i: nat, dying: set<nat>, limbo: set<nat>)
    requires Inv(v, dying, limbo) && i < |v.slots| && IsIndexed(v.slots, dying, i)
    ensures KeyOf(v.slots[i]) in v.index && v.index[KeyOf(v.slots[i])] == i + 1
  {
    hide WellFormed, Shape, Owned, Linked, FreeList, Counted, BatchChain, Dying;
    assert SlotFound(v.slots, v.index, dying, i);
  }

  lemma {:induction false} DropOneKey(index: map<Key, nat>, key: Key, v: nat, hit: bool)
    requires forall k :: k in index && index[k] == v ==> k == key && hit
    requires hit ==> key in index && index[key] == v
    ensures (if hit then index - {key} else index) == map k | k in index && index[k] != v :: index[k]
  {
  }

  /** HASH_Remove drops the one key that maps to i, when there is one. */
  lemma KeyRemoved(v: View, index: map<Key, nat>, i: nat, dying: set<nat>, limbo: set<nat>)
    requires Inv(v, dying, limbo) && i < |v.slots| && i !in dying
    requires v.slots[i].typ == NO_TYPE ==> v.slots[i].partFree
    requires index == if !v.slots[i].flags.multi && !v.slots[i].partFree then v.index - {KeyOf(v.slots[i])} else v.index
    ensures index == map k | k in v.index && v.index[k] != i + 1 :: v.index[k]
    ensures forall k :: k in v.index ==> v.index[k] > 0
  {
    hide WellFormed;
    FreeFacts(v, dying, limbo, i);
    hide Inv;
    var hit := IsIndexed(v.slots, dying, i);
    if hit {
      SlotOfKey(v, i, dying, limbo);
    }
    forall k | k in v.index
      ensures v.index[k] > 0 && (v.index[k] == i + 1 ==> k == KeyOf(v.slots[i]) && hit)
    {
      KeysOfSlot(v, i, dying, limbo, k);
    }
    DropOneKey(v.index, KeyOf(v.slots[i]), i + 1, hit);
  }

  /** Between s and t slot i was cut loose, with its own subtree untouched. */
  ghost predicate Detaching(s: View, t: View, i: nat) {
    && WellFormed(s.f) && WellFormed(t.f) && i < |s.f.kids| == |t.f.kids|
    && Gone(s, t, {i}, []) && PostOrder(t.f, i) == PostOrder(s.f, i)
    && t.f.born == s.f.born && t.f.clock == s.f.clock && |t.slots| == |s.slots|
  }

  lemma Step1(s0: View, s1: View, i: nat, m: nat, dying: set<nat>, limbo: set<nat>)
    requires Inv(s0, dying, limbo) && i < |s0.slots| && ChildAt(s0, i, m)
    requires s0.f.up[i] != 0 ==> s0.f.up[i] - 1 !in s0.freeQ
    requires forall k :: k in s0.index ==> s0.index[k] > 0
    requires s0.slots[i].typ != NO_TYPE || i in limbo
    requires s1 == Detached(s0, i, m)
    ensures s0.slots[i].typ != NO_TYPE ==> Inv(s1, dying + {i}, limbo)
    ensures s0.slots[i].typ == NO_TYPE ==> Inv(s1, dying, limbo)
    ensures Detaching(s0, s1, i)
  {
    hide WellFormed;
    if s0.slots[i].typ != NO_TYPE {
      DetachKeeps(s0, i, m, dying, limbo);
    } else {
      DetachLimbo(s0, i, m, dying, limbo);
    }
    DetachedIsGone(s0, i, m);
    PruneWellFormed(s0.f, {i});
    PruneKeepsSubtree(s0.f, {i}, i);
  }

  lemma OwnSlotKept(s: View, t: View, i: nat, cut: set<nat>, freed: seq<nat>)
    requires |s.f.kids| == |s.f.up| && Gone(s, t, cut, freed) && i < |s.slots| && i !in freed
    ensures |t.slots| == |s.slots| && SlotAfter(s.slots[i], t.slots[i], false)
  {
  }

  lemma IndexIrrelevant(s: View, t: View, i: nat, m: nat)
    requires Shape(s) && Linked(s) && i < |s.slots| && ChildAt(s, i, m) && t == s.(index := t.index)
    requires s.f.up[i] != 0 ==> s.f.up[i] - 1 !in s.freeQ
    ensures Shape(t) && Linked(t) && ChildAt(t, i, m)
    ensures Unringed(s, i, m) == Unringed(t, i, m)
  {
    hide WellFormed;
    forall p | 0 <= p < |t.slots| && p !in t.freeQ
      ensures SlotLinked(t, p)
    {
      assert SlotLinked(s, p) by { assert s.slots[p] == s.slots[p]; }
    }
  }

  lemma BornSame(s: View, t: View, cut: set<nat>, freed: seq<nat>)
    requires |s.f.kids| == |s.f.up| && Gone(s, t, cut, freed)
    ensures t.f.born == s.f.born && t.f.clock == s.f.clock && |t.f.kids| == |s.f.kids| && |t.slots| == |s.slots|
    ensures t.f == Prune(s.f, cut)
  {
  }

  lemma Step2Core(s0: View, s1: View, s2: View, i: nat, q: seq<nat>)
    requires |s0.f.kids| == |s0.f.up| && |s1.f.kids| == |s1.f.up|
    requires Gone(s0, s1, {i}, []) && Gone(s1, s2, Elems(q), q)
    ensures Gone(s0, s2, Elems(q + [i]), q)
  {
    hide WellFormed, Gone;
    GoneThenGone(s0, s1, s2, {i}, [], Elems(q), q);
    assert [] + q == q;
    assert {i} + Elems(q) == Elems(q + [i]);
  }

  lemma SameFront(a: seq<nat>, b: seq<nat>, i: nat)
    requires a + [i] == b + [i]
    ensures a == b
  {
    assert a == (a + [i])[..|a + [i]| - 1] == (b + [i])[..|b + [i]| - 1] == b;
  }

  lemma Step2(s0: View, s1: View, s2: View, i: nat)
    requires Detaching(s0, s1, i)
    requires var q := FirstSubtrees(s1.f, i, |s1.f.kids[i]|); Gone(s1, s2, Elems(q), q)
    ensures var q := FirstSubtrees(s0.f, i, |s0.f.kids[i]|);
            Gone(s0, s2, Elems(q + [i]), q) && PostOrder(s0.f, i) == q + [i] && i !in q
  {
    hide WellFormed;
    SubtreeParts(s0.f, i);
    SubtreeParts(s1.f, i);
    hide Gone, PostOrder, PostOrders, FirstSubtrees, Elems;
    var q, q0 := FirstSubtrees(s1.f, i, |s1.f.kids[i]|), FirstSubtrees(s0.f, i, |s0.f.kids[i]|);
    SameFront(q, q0, i);
    Step2Core(s0, s1, s2, i, q);
  }

  lemma Step3(s0: View, s2: View, s3: View, i: nat, below: seq<nat>)
    requires |s0.f.kids| == |s0.f.up| && |s2.f.kids| == |s2.f.up| && i !in below
    requires Gone(s0, s2, Elems(below + [i]), below)
    requires Gone(s2, s3, {}, [i])
    ensures Gone(s0, s3, Elems(below + [i]), below + [i])
  {
    hide WellFormed, Gone;
    GoneThenGone(s0, s2, s3, Elems(below + [i]), below, {}, [i]);
    assert Elems(below + [i]) + {} == Elems(below + [i]);
  }

  /** The ring of i starts with its first child, and from there leads to the second. */
  lemma HeadOfRing(v: View, dying: set<nat>, limbo: set<nat>, i: nat)
    requires Inv(v, dying, limbo) && i < |v.slots| && (i in dying || i in limbo)
    ensures var c := v.f.kids[i];
            && v.slots[i].children.next == (if c == [] then i else c[0])
            && i !in c
            && (c != [] ==>
                  && c[0] < |v.slots| && v.slots[c[0]].typ != NO_TYPE
                  && v.f.born[i] < v.f.born[c[0]] && c[0] !in dying && c[0] !in limbo
                  && v.slots[c[0]].siblings.next == (if |c| == 1 then i else c[1]))
  {
    assert SlotOwned(v, limbo, i) by { assert v.slots[i] == v.slots[i]; }
    assert i !in v.freeQ;
    assert SlotLinked(v, i);
    var c := v.f.kids[i];
    assert RingStep(v.slots, i, c, 0);
    if c != [] {
      assert RingStep(v.slots, i, c, 1);
      assert At(i, c, 1) == c[0];
      assert SlotOwned(v, limbo, c[0]) by { assert v.slots[c[0]] == v.slots[c[0]]; }
    }
  }

  /** The first m children of i and everything below them have been freed. */
  ghost predicate Freeing(s0: View, t: View, i: nat, m: nat) {
    && WellFormed(s0.f) && i < |s0.f.kids| == |t.f.kids| == |t.slots| && m <= |s0.f.kids[i]|
    && t.f.born == s0.f.born && t.f.clock == s0.f.clock && i < |s0.f.born|
    && Gone(s0, t, Elems(FirstSubtrees(s0.f, i, m)), FirstSubtrees(s0.f, i, m))
    && t.f.kids[i] == s0.f.kids[i][m..]
  }

  lemma FreeingStarts(s0: View, i: nat)
    requires WellFormed(s0.f) && i < |s0.f.kids| == |s0.slots|
    ensures Freeing(s0, s0, i, 0)
  {
    GoneNothing(s0);
    SubtreeParts(s0.f, i);
    hide WellFormed, Gone, FirstSubtrees;
    assert Elems([]) == {};
  }

  lemma FreeingEnds(s0: View, t: View, i: nat, m: nat)
    requires WellFormed(s0.f) && i < |s0.f.kids| && Freeing(s0, t, i, m)
    requires m < |s0.f.kids[i]| ==> s0.f.kids[i][m] == i
    ensures i < |t.f.kids| && t.f.kids[i] == []
    ensures var done := FirstSubtrees(s0.f, i, |s0.f.kids[i]|); Gone(s0, t, Elems(done), done)
  {
    hide WellFormed;
    if m < |s0.f.kids[i]| {
      NotBelowChild(s0.f, i, i);
    }
    hide Gone, FirstSubtrees, Elems;
  }

  /** The next child to free has its whole subtree still, and is younger than i. */
  lemma NextToFree(s0: View, s: View, i: nat, m: nat)
    requires Freeing(s0, s, i, m) && m < |s0.f.kids[i]| && WellFormed(s.f)
    ensures i < |s.f.kids| && s.f.kids[i] == s0.f.kids[i][m..] && i < |s.slots| == |s.f.kids|
    ensures s.f.born == s0.f.born && s.f.clock == s0.f.clock && |s.f.born| == |s.f.kids|
    ensures var c := s0.f.kids[i][m];
            && c < |s.f.kids| && c < |s0.f.kids| && s.f.born[i] < s.f.born[c] < s.f.clock
            && PostOrder(s.f, c) == PostOrder(s0.f, c)
  {
    NextChildWhole(s0.f, i, m);
    var c := s0.f.kids[i][m];
    assert s.f == Prune(s0.f, Elems(FirstSubtrees(s0.f, i, m)));
    assert Adopts(s0.f, i);
  }

  lemma FreedOne(s0: View, s: View, t: View, i: nat, m: nat)
    requires Freeing(s0, s, i, m) && m < |s0.f.kids[i]| && WellFormed(s.f)
    requires var c := s0.f.kids[i][m];
             && c < |s.f.kids| && |s.f.kids| == |s.f.up| == |s.slots|
             && Gone(s, t, Elems(PostOrder(s.f, c)), PostOrder(s.f, c))
    ensures Freeing(s0, t, i, m + 1)
  {
    hide Gone, PostOrder, PostOrders, FirstSubtrees, Elems, Without, Prune, Adopts;
    var c := s0.f.kids[i][m];
    NextToFree(s0, s, i, m);
    NextChildWhole(s0.f, i, m);
    OneChildLess(s0.f, i, m);
    MoreChildren(s0.f, i, m);
    var done, more := FirstSubtrees(s0.f, i, m), PostOrder(s0.f, c);
    BornSame(s, t, Elems(more), more);
    ElemsConcat(done, more);
    KidsCut(s.f, Elems(more), i);
    GoneThenGone(s0, s, t, Elems(done), done, Elems(more), more);
  }

  lemma KidsCut(f: Forest, u: set<nat>, i: nat)
    requires |f.kids| == |f.up| && i < |f.kids|
    ensures Prune(f, u).kids[i] == Without(f.kids[i], u)
  {
  }

  /** Handle i and everything below it are gone, in both the slots and the index; what is
      left is as before, and the slots freed follow the old free list in post-order. */
  ghost predicate Released(s: View, t: View, i: nat) {
    && Sized(s) && Sized(t) && WellFormed(s.f) && i < |s.slots|
    && Dropped(s, t, PostOrder(s.f, i))
    && (forall j: nat :: j in Handles(t) <==> j in Handles(s) && !(j < |s.slots| && Descends(s.f, j, i)))
  }

  ghost predicate Names(h: nat, q: seq<nat>) {
    h > 0 && h - 1 in q
  }

  /** The handles in q are gone, each once. */
  ghost predicate Dropped(s: View, t: View, q: seq<nat>)
    requires Sized(s) && Sized(t)
  {
    && Handles(t) == Remaining(Handles(s), Elems(q))
    && Distinct(q) && Within(q, |s.slots|)
    && t.freeQ == s.freeQ + Reclaimed(s.slots, q) && t.batchQ == s.batchQ
    && (forall k :: k in t.index <==> k in s.index && !Names(s.index[k], q))
    && (forall k :: k in t.index ==> t.index[k] == s.index[k])
  }

  lemma GoneFields(s: View, t: View, q: seq<nat>)
    requires Sized(s) && Gone(s, t, Elems(q), q)
    ensures Within(q, |s.slots|) && t.freeQ == s.freeQ + Reclaimed(s.slots, q) && t.batchQ == s.batchQ
    ensures t.index == (map k | k in s.index && !(s.index[k] > 0 && s.index[k] - 1 in Elems(q)) :: s.index[k])
    ensures t.f == Prune(s.f, Elems(q)) && |t.slots| == |s.slots|
    ensures t.purging == s.purging && (s.purging ==> t.firstFree == s.firstFree)
  {
  }

  lemma ReleaseDone(s: View, t: View, i: nat)
    requires Inv(s, {}, {}) && Sized(s) && i < |s.slots|
    requires Gone(s, t, Elems(PostOrder(s.f, i)), PostOrder(s.f, i))
    ensures Released(s, t, i)
  {
    hide Inv, WellFormed, Gone, PostOrder, PostOrders, Handles, Descends, Prune, Reclaimed, Distinct, Within;
    Sizes(s, {}, {});
    var q := PostOrder(s.f, i);
    GoneFields(s, t, q);
    GoneHandles(s, t, q);
    PostOrderDistinct(s.f, i);
    SizedPrune(s.f, Elems(q));
    forall j: nat
      ensures j in Handles(t) <==> j in Handles(s) && !(j < |s.slots| && Descends(s.f, j, i))
    {
      PostOrderIsSubtree(s.f, i, j);
      HandlesAt(s, j);
    }
  }

  lemma ReleaseOuter(s: View, t: View, q: seq<nat>, c: Settings, held: int)
    requires OuterOf(s, c, held) && Sized(s) && Gone(s, t, Elems(q), q) && Inv(t, {}, {}) && Inv(s, {}, {})
    ensures OuterOf(t, c, held)
  {
    hide Gone, Linked, Owned, Indexed, FreeList, Counted, BatchChain, WellFormed, Batches, Prune;
    GoneFields(s, t, q);
    SizedPrune(s.f, Elems(q));
    BatchPrune(s.f, Elems(q), s.batchQ);
  }
}
