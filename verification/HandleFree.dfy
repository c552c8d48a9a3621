/** What freeing a set of handles does to a handle base, and how such changes compose. */
module HandleFree {
  import opened Forests
  import opened HandleState
  import opened HandleInvariant

  ghost function Elems(s: seq<nat>): set<nat> {
    set x | x in s
  }

  lemma ElemsConcat(s: seq<nat>, t: seq<nat>)
    ensures Elems(s + t) == Elems(s) + Elems(t)
  {
  }

  ghost predicate Within(s: seq<nat>, n: nat) {
    forall m :: 0 <= m < |s| ==> s[m] < n
  }

  /** Of the slots in s, those that go to the free list at once: a handle of the open batch
      waits for the batch to end, unless it has already been released once. */
  ghost function Reclaimed(slots: seq<Slot>, s: seq<nat>): seq<nat>
    requires Within(s, |slots|)
  {
    if s == [] then []
    else
      var j := s[|s| - 1];
      Reclaimed(slots, s[..|s| - 1]) + (if slots[j].batched && !slots[j].partFree then [] else [j])
  }

  ghost predicate SlotAfter(s: Slot, t: Slot, freed: bool) {
    && t.data == s.data && t.flags == s.flags && t.batched == s.batched
    && t.typ == (if freed then NO_TYPE else s.typ)
    && t.partFree == (s.partFree || (freed && s.batched))
  }

  /** t is s after the slots in `cut` left the index and their parents, and the slots in
      `freed` stopped being handles, in that order. */
  ghost predicate Gone(s: View, t: View, cut: set<nat>, freed: seq<nat>)
    requires |s.f.kids| == |s.f.up|
  {
    && |t.slots| == |s.slots| && t.purging == s.purging && t.batchQ == s.batchQ
    && (s.purging ==> t.firstFree == s.firstFree)
    && Within(freed, |s.slots|)
    && t.f == Prune(s.f, cut)
    && t.index == (map k | k in s.index && !(s.index[k] > 0 && s.index[k] - 1 in cut) :: s.index[k])
    && t.freeQ == s.freeQ + Reclaimed(s.slots, freed)
    && (forall j :: 0 <= j < |s.slots| ==> SlotAfter(s.slots[j], t.slots[j], j in freed))
  }

  lemma {:induction false} ReclaimedConcat(slots: seq<Slot>, s: seq<nat>, t: seq<nat>)
    requires Within(s, |slots|) && Within(t, |slots|)
    ensures Within(s + t, |slots|)
    ensures Reclaimed(slots, s + t) == Reclaimed(slots, s) + Reclaimed(slots, t)
  {
    if t == [] {
      assert s + t == s;
    } else {
      assert (s + t)[..|s + t| - 1] == s + t[..|t| - 1];
      ReclaimedConcat(slots, s, t[..|t| - 1]);
    }
  }

  lemma {:induction false} ReclaimedSame(a: seq<Slot>, b: seq<Slot>, s: seq<nat>)
    requires Within(s, |a|) && Within(s, |b|)
    requires forall m :: 0 <= m < |s| ==> a[s[m]].batched == b[s[m]].batched && a[s[m]].partFree == b[s[m]].partFree
    ensures Reclaimed(a, s) == Reclaimed(b, s)
  {
    if s != [] {
      ReclaimedSame(a, b, s[..|s| - 1]);
    }
  }

  lemma GoneThenGone(s: View, t: View, u: View, cut1: set<nat>, freed1: seq<nat>, cut2: set<nat>, freed2: seq<nat>)
    requires |s.f.kids| == |s.f.up| && |t.f.kids| == |t.f.up|
    requires Gone(s, t, cut1, freed1) && Gone(t, u, cut2, freed2)
    requires forall j :: j in freed2 ==> j !in freed1
    ensures Gone(s, u, cut1 + cut2, freed1 + freed2)
  {
    hide WellFormed, Prune;
    PruneTwice(s.f, cut1, cut2);
    GoneThenReclaimed(s, t, cut1, freed1, freed2);
    hide Reclaimed, Within;
    forall j | 0 <= j < |s.slots|
      ensures SlotAfter(s.slots[j], u.slots[j], j in freed1 + freed2)
    {
      GoneThenSlot(s, t, u, cut1, freed1, cut2, freed2, j);
    }
  }

  lemma GoneThenSlot(s: View, t: View, u: View, cut1: set<nat>, freed1: seq<nat>, cut2: set<nat>, freed2: seq<nat>, j: nat)
    requires |s.f.kids| == |s.f.up| && |t.f.kids| == |t.f.up| && j < |s.slots|
    requires Gone(s, t, cut1, freed1) && Gone(t, u, cut2, freed2)
    requires j in freed2 ==> j !in freed1
    ensures |u.slots| == |s.slots| && SlotAfter(s.slots[j], u.slots[j], j in freed1 + freed2)
  {
    hide WellFormed, Prune, Reclaimed, Within;
    assert SlotAfter(s.slots[j], t.slots[j], j in freed1);
    assert SlotAfter(t.slots[j], u.slots[j], j in freed2);
  }

  lemma GoneThenReclaimed(s: View, t: View, cut: set<nat>, freed1: seq<nat>, freed2: seq<nat>)
    requires |s.f.kids| == |s.f.up| && Gone(s, t, cut, freed1) && Within(freed2, |t.slots|)
    requires forall j :: j in freed2 ==> j !in freed1
    ensures Within(freed1 + freed2, |s.slots|)
    ensures Reclaimed(s.slots, freed1 + freed2) == Reclaimed(s.slots, freed1) + Reclaimed(t.slots, freed2)
  {
    hide WellFormed, Prune, Reclaimed;
    assert forall m :: 0 <= m < |freed2| ==> freed2[m] in freed2 && SlotAfter(s.slots[freed2[m]], t.slots[freed2[m]], false);
    ReclaimedSame(s.slots, t.slots, freed2);
    ReclaimedConcat(s.slots, freed1, freed2);
  }

  lemma GoneNothing(s: View)
    requires |s.f.kids| == |s.f.up|
    ensures Gone(s, s, {}, [])
  {
    hide WellFormed;
    PruneNothing(s.f);
  }

  lemma DetachedIsGone(s: View, i: nat, m: nat)
    requires Shape(s) && Linked(s) && i < |s.slots| && ChildAt(s, i, m)
    requires s.f.up[i] != 0 ==> s.f.up[i] - 1 !in s.freeQ
    requires forall k :: k in s.index ==> s.index[k] > 0
    ensures Gone(s, Detached(s, i, m), {i}, [])
  {
    hide WellFormed;
    forall j | 0 <= j < |s.slots|
      ensures SlotAfter(s.slots[j], Detached(s, i, m).slots[j], false)
    {
      UnringedSlots(s, i, m, j);
    }
  }

  lemma ParkedIsGone(s: View, i: nat)
    requires |s.f.kids| == |s.f.up| && i < |s.slots| && s.slots[i].batched && !s.slots[i].partFree
    ensures Gone(s, Parked(s, i), {}, [i])
  {
    hide WellFormed;
    PruneNothing(s.f);
    assert Reclaimed(s.slots, []) == [];
    assert Reclaimed(s.slots, [i]) == [];
  }

  lemma AppendedIsGone(s: View, t: View, i: nat)
    requires Shape(s) && i < |s.slots| && s.lastFreePlusOne <= |s.slots|
    requires s.slots[i].batched ==> s.slots[i].partFree
    requires t == Appended(Emptied(s, i), i)
    ensures Gone(s, t, {}, [i])
  {
    hide WellFormed, Prune, SlotAfter;
    PruneNothing(s.f);
    assert [i][..|[i]| - 1] == [];
    assert Reclaimed(s.slots, [i]) == [i];
    forall j | 0 <= j < |s.slots|
      ensures SlotAfter(s.slots[j], t.slots[j], j in [i])
    {
      AppendedSlot(s, i, j);
    }
    hide Relinked;
    IndexKept(s.index);
  }

  lemma IndexKept(index: map<Key, nat>)
    ensures index == (map k | k in index && !(index[k] > 0 && index[k] - 1 in {}) :: index[k])
  {
  }

  lemma AppendedSlot(s: View, i: nat, j: nat)
    requires Shape(s) && i < |s.slots| && j < |s.slots| && s.lastFreePlusOne <= |s.slots|
    requires s.slots[i].batched ==> s.slots[i].partFree
    ensures SlotAfter(s.slots[j], Appended(Emptied(s, i), i).slots[j], j in [i])
  {
    hide WellFormed;
  }

  /** The subtrees of the first m children of i. */
  ghost function FirstSubtrees(f: Forest, i: nat, m: nat): seq<nat>
    requires WellFormed(f) && i < |f.kids| && m <= |f.kids[i]|
  {
    PostOrders(f, f.kids[i][..m], f.born[i])
  }

  lemma SubtreeParts(f: Forest, i: nat)
    requires WellFormed(f) && i < |f.kids|
    ensures FirstSubtrees(f, i, 0) == []
    ensures PostOrder(f, i) == FirstSubtrees(f, i, |f.kids[i]|) + [i]
    ensures i !in FirstSubtrees(f, i, |f.kids[i]|)
  {
    hide WellFormed;
    assert f.kids[i][..|f.kids[i]|] == f.kids[i];
    ParentNotBelow(f, i);
  }

  lemma MoreChildren(f: Forest, i: nat, m: nat)
    requires WellFormed(f) && i < |f.kids| && m < |f.kids[i]|
    ensures f.kids[i][m] < |f.kids|
    ensures FirstSubtrees(f, i, m + 1) == FirstSubtrees(f, i, m) + PostOrder(f, f.kids[i][m])
  {
    assert f.kids[i][..m + 1][..m] == f.kids[i][..m];
  }

  /** Of the children of i the first m have been freed: the subtree of the next one is whole. */
  lemma NextChildWhole(f: Forest, i: nat, m: nat)
    requires WellFormed(f) && i < |f.kids| && m < |f.kids[i]|
    ensures f.kids[i][m] < |f.kids|
    ensures var g := Prune(f, Elems(FirstSubtrees(f, i, m)));
            WellFormed(g) && PostOrder(g, f.kids[i][m]) == PostOrder(f, f.kids[i][m])
    ensures forall j :: j in PostOrder(f, f.kids[i][m]) ==> j !in FirstSubtrees(f, i, m)
  {
    var c := f.kids[i];
    PrefixDisjoint(f, i, m);
    var gone := Elems(PostOrders(f, c[..m], f.born[i]));
    PruneWellFormed(f, gone);
    PruneKeepsSubtree(f, gone, c[m]);
  }

  /** Freeing it leaves the ring of i with the children after it. */
  lemma OneChildLess(f: Forest, i: nat, m: nat)
    requires WellFormed(f) && i < |f.kids| && m < |f.kids[i]|
    ensures Without(f.kids[i][m..], Elems(PostOrder(f, f.kids[i][m]))) == f.kids[i][m + 1..]
  {
    var c := f.kids[i];
    var gone := Elems(PostOrder(f, c[m]));
    assert c[m..] == [c[m]] + c[m + 1..];
    WithoutConcat([c[m]], c[m + 1..], gone);
    PostOrderIsSubtree(f, c[m], c[m]);
    WithoutAll([c[m]], gone);
    forall x | x in c[m + 1..]
      ensures x !in gone
    {
      var n :| m + 1 <= n < |c| && c[n] == x;
      PostOrderIsSubtree(f, x, x);
      SiblingsDisjoint(f, i, x, c[m], x);
    }
    WithoutNone(c[m + 1..], gone);
  }
}
