/** What the two allocation calls do for a client: share a handle, or make one. */
module HandleShare {
  import opened Machine
  import opened Forests
  import opened HandleState
  import opened HandleInvariant
  import opened HandleAlloc
  import opened HandleContents
  import opened HandleConfig
  import opened HandleLookup
  import opened HandlePick

  /** The existing handle may be given out again instead of a new one. */
  ghost predicate Reusable(was: Node, n: Node, anyParent: bool) {
    was.flags.shared && n.flags.shared && (anyParent || was.parent == n.parent)
  }

  ghost predicate Taking(c: map<nat, Node>, j: nat, n: Node, keyParent: nat) {
    j in c && Matches(c[j], n.data, n.typ, keyParent)
  }

  /** The handles after n joined as handle number i, last among its parent's children. */
  ghost function WithNode(c: map<nat, Node>, i: nat, n: Node): map<nat, Node> {
    var c' := c[i := n];
    if n.parent == 0 || n.parent - 1 !in c' then c'
    else c'[n.parent - 1 := c'[n.parent - 1].(kids := c'[n.parent - 1].kids + [i])]
  }

  /** The result of asking for handle n: the one handle with its key, when it may be shared,
      a new handle when there is none; nothing changes otherwise. */
  ghost predicate Allocated(c: map<nat, Node>, c': map<nat, Node>, e: Error, h: nat, n: Node, keyParent: nat, anyParent: bool) {
    && (e != Ok ==> c' == c && h == 0)
    && (e == Ok ==> h != 0)
    && (forall j: nat :: !n.flags.multi && Taking(c, j, n, keyParent) ==>
          && c' == c
          && (Reusable(c[j], n, anyParent) ==> e == Ok && h == j + 1)
          && (!Reusable(c[j], n, anyParent) ==> e == NotShareable))
    && (n.flags.multi || (forall j: nat :: !Taking(c, j, n, keyParent)) ==>
          e != NotShareable && (e == Ok ==> h - 1 !in c && c' == WithNode(c, h - 1, n)))
  }

  /** The settings after an allocation that ended with e. */
  ghost function AfterAlloc(c: Settings, front: nat, e: Error): Settings {
    c.(front := front, failures := if c.batchSize != 0 && e != Ok then c.failures + 1 else c.failures)
  }

  lemma OnlyTaking(v: View, i: nat, n: Node, keyParent: nat)
    requires Inv(v, {}, {}) && Sized(v) && Taking(Handles(v), i, n, keyParent)
    ensures forall j: nat :: Taking(Handles(v), j, n, keyParent) ==> j == i
  {
    hide WellFormed;
    forall j: nat | Taking(Handles(v), j, n, keyParent)
      ensures j == i
    {
      IndexSlot(v, i);
      IndexSlot(v, j);
      hide Inv;
      assert KeyOf(v.slots[i]) == KeyOf(v.slots[j]);
    }
  }

  lemma FoundSlot(v: View, h: nat, n: Node, keyParent: nat)
    requires Inv(v, {}, {}) && Sized(v) && h != 0 && h - 1 in Handles(v) && Matches(Handles(v)[h - 1], n.data, n.typ, keyParent)
    ensures h <= |v.slots| && v.slots[h - 1].typ == n.typ && Taking(Handles(v), h - 1, n, keyParent)
    ensures h < TWO_32 ==> LookUp(v.slots, h, n.typ) == Ok
    ensures v.slots[h - 1].flags.shared == Handles(v)[h - 1].flags.shared
    ensures v.slots[h - 1].siblings.parent == Handles(v)[h - 1].parent
  {
    hide WellFormed;
    ParentLink(v, h - 1);
  }

  /** FindHandle found nothing. */
  lemma NothingTaking(v: View, n: Node, keyParent: nat)
    requires Inv(v, {}, {}) && Sized(v) && n.typ != NO_TYPE && Key(n.data, n.typ, keyParent) !in v.index
    ensures forall j: nat :: !Taking(Handles(v), j, n, keyParent)
  {
    hide WellFormed;
    FindHandleCorrect(v, Key(n.data, n.typ, keyParent));
    hide Inv;
  }

  /** FindHandle found h. */
  lemma HandleKnown(v: View, h: nat, e: Error, n: Node, keyParent: nat, anyParent: bool)
    requires Inv(v, {}, {}) && Sized(v) && h != 0 && Taking(Handles(v), h - 1, n, keyParent) && !n.flags.multi
    requires e == if Reusable(Handles(v)[h - 1], n, anyParent) then Ok else NotShareable
    ensures Allocated(Handles(v), Handles(v), e, if e == Ok then h else 0, n, keyParent, anyParent)
  {
    hide WellFormed;
    OnlyTaking(v, h - 1, n, keyParent);
    hide Inv, Handles, Matches, Reusable;
  }

  lemma NothingAllocated(c: map<nat, Node>, e: Error, n: Node, keyParent: nat, anyParent: bool)
    requires e != Ok && e != NotShareable
    requires !n.flags.multi ==> forall j: nat :: !Taking(c, j, n, keyParent)
    ensures Allocated(c, c, e, 0, n, keyParent, anyParent)
  {
    hide Taking;
  }

  /** A new handle without parent. */
  lemma RootDone(s: View, t: View, h: nat, n: Node)
    requires Sized(s) && Sized(t) && Arrived(s, t, h, n.data, n.typ, n.flags, 0, n.batched)
    requires n.parent == 0 && n.kids == [] && n.typ != NO_TYPE
    requires !n.flags.multi ==> Key(n.data, n.typ, 0) !in s.index
    requires !n.flags.multi ==> forall j: nat :: !Taking(Handles(s), j, n, 0)
    ensures Inv(t, {}, {}) && Allocated(Handles(s), Handles(t), Ok, h, n, 0, true)
  {
    hide WellFormed, Inv, Handles, Taking, Arrived;
    ArrivedLinks(s, t, h, n, 0);
    var v := t.(index := s.index);
    assert t == v.(index := WithKey(v, h - 1));
    RegisterKeeps(v, h - 1);
  }

  lemma ArrivedLinks(s: View, t: View, h: nat, n: Node, keyParent: nat)
    requires Sized(s) && Sized(t) && Arrived(s, t, h, n.data, n.typ, n.flags, keyParent, n.batched)
    requires n.typ != NO_TYPE
    ensures 0 < h <= |t.slots| && t.f.up[h - 1] == 0 && t.slots[h - 1].typ == n.typ && h - 1 !in Handles(s)
    ensures t.slots[h - 1].flags == n.flags && t.slots[h - 1].data == n.data && t.slots[h - 1].siblings.parent == 0
    ensures forall j :: 0 <= j < |t.f.born| && j != h - 1 ==> t.f.born[j] < t.f.born[h - 1]
    ensures Handles(t) == Handles(s)[h - 1 := Node(n.data, n.typ, n.flags, 0, [], n.batched)]
    ensures Inv(t.(index := s.index), {h - 1}, {})
    ensures t.index == (if n.flags.multi then s.index else s.index[Key(n.data, n.typ, keyParent) := h])
  {
  }

  lemma ParentReady(s: View, t: View, h: nat, n: Node, keyParent: nat)
    requires Sized(s) && Sized(t) && Arrived(s, t, h, n.data, n.typ, n.flags, keyParent, n.batched)
    requires 0 < n.parent && n.parent - 1 in Handles(s) && n.typ != NO_TYPE
    ensures CanAdopt(t, n.parent - 1, h - 1) && CanAdopt(t.(index := s.index), n.parent - 1, h - 1)
  {
    hide WellFormed, Inv, Handles, Arrived;
    ArrivedLinks(s, t, h, n, keyParent);
    var p, v := n.parent - 1, t.(index := s.index);
    HandlesAt(t, p);
    TailOfRing(v, p, h - 1, {h - 1});
  }

  /** A new handle under its parent. */
  lemma SubDone(s: View, t: View, u: View, h: nat, n: Node, keyParent: nat)
    requires Sized(s) && Sized(t) && 0 < h && 0 < n.parent && n.parent - 1 in Handles(s) && n.kids == [] && n.typ != NO_TYPE
    requires keyParent == if n.flags.priv then n.parent else 0
    requires CanAdopt(t, n.parent - 1, h - 1) && CanAdopt(t.(index := s.index), n.parent - 1, h - 1)
    requires u == Adopted(t, n.parent - 1, h - 1)
    requires Arrived(s, t, h, n.data, n.typ, n.flags, keyParent, n.batched)
    requires !n.flags.multi ==> Key(n.data, n.typ, keyParent) !in s.index
    requires !n.flags.multi ==> forall j: nat :: !Taking(Handles(s), j, n, keyParent)
    ensures Sized(u) && Inv(u, {}, {}) && Allocated(Handles(s), Handles(u), Ok, h, n, keyParent, false)
  {
    hide WellFormed, Inv, Taking, RingWith, Handles, Arrived, CanAdopt, Adopted, Allocated;
    ArrivedLinks(s, t, h, n, keyParent);
    var p, i, v := n.parent - 1, h - 1, t.(index := s.index);
    AdoptedKey(v, p, i, n, keyParent);
    AdoptKeeps(v, p, i);
    AdoptHandles(v, p, i, {i});
    AdoptedWithIndex(t, s.index, p, i);
    SameHandles(t, s.index);
    SameHandles(Adopted(v, p, i), u.index);
    NewAllocated(Handles(s), Handles(u), h, n, keyParent, false);
  }

  lemma NewAllocated(c: map<nat, Node>, c': map<nat, Node>, h: nat, n: Node, keyParent: nat, anyParent: bool)
    requires 0 < h && h - 1 !in c && c' == WithNode(c, h - 1, n)
    requires !n.flags.multi ==> forall j: nat :: !Taking(c, j, n, keyParent)
    ensures Allocated(c, c', Ok, h, n, keyParent, anyParent)
  {
    hide Taking, WithNode;
  }

  lemma SameHandles(v: View, index: map<Key, nat>)
    requires |v.f.kids| == |v.f.up| == |v.slots|
    ensures Handles(v.(index := index)) == Handles(v)
  {
  }

  lemma AdoptedWithIndex(t: View, index: map<Key, nat>, p: nat, i: nat)
    requires CanAdopt(t, p, i)
    ensures CanAdopt(t.(index := index), p, i) && Sized(Adopted(t, p, i))
    ensures Adopted(t, p, i) == Adopted(t.(index := index), p, i).(index := t.index)
  {
  }

  /** Once under its parent, the new handle has the key AllocHandle entered for it. */
  lemma AdoptedKey(v: View, p: nat, i: nat, n: Node, keyParent: nat)
    requires Inv(v, {i}, {}) && CanAdopt(v, p, i) && n.parent == p + 1
    requires v.slots[i].typ == n.typ && v.slots[i].data == n.data && v.slots[i].flags == n.flags
    requires keyParent == if n.flags.priv then n.parent else 0
    ensures var w := Adopted(v, p, i);
            && i < |w.slots| && w.slots[i].flags == n.flags && KeyOf(w.slots[i]) == Key(n.data, n.typ, keyParent)
            && WithKey(w, i) == (if n.flags.multi then v.index else v.index[Key(n.data, n.typ, keyParent) := i + 1])
  {
    hide WellFormed, Inv, RingWith;
    AdoptSlots(v, p, i, {i}, i);
  }

  /** PVRSRVAllocSubHandle: without a parent nothing happens; otherwise the new or shared
      handle is a child of that parent. */
  ghost predicate SubAllocated(s: View, t: View, e: Error, h: nat, n: Node, sure: bool)
    requires Sized(s) && Sized(t) && n.parent < TWO_32
  {
    var noParent := LookUp(s.slots, n.parent, NO_TYPE);
    && (noParent != Ok ==> e == noParent && t == s && h == 0)
    && (noParent == Ok ==>
          && n.parent != 0 && n.parent - 1 in Handles(s)
          && Allocated(Handles(s), Handles(t), e, h, n, if n.flags.priv then n.parent else 0, false)
          && (sure ==> e == Ok || e == NotShareable))
  }

  lemma NoParent(s: View, e: Error, n: Node, sure: bool)
    requires Sized(s) && n.parent < TWO_32 && e == LookUp(s.slots, n.parent, NO_TYPE) && |s.slots| < TWO_32
    ensures e != Ok ==> SubAllocated(s, s, e, 0, n, sure)
    ensures e == Ok ==> 0 < n.parent <= |s.slots| && s.slots[n.parent - 1].typ != NO_TYPE
  {
  }

  lemma SubDecided(s: View, t: View, e: Error, h: nat, n: Node, sure: bool)
    requires Sized(s) && Sized(t) && 0 < n.parent < TWO_32 && LookUp(s.slots, n.parent, NO_TYPE) == Ok
    requires Allocated(Handles(s), Handles(t), e, h, n, if n.flags.priv then n.parent else 0, false)
    requires sure ==> e == Ok || e == NotShareable
    ensures SubAllocated(s, t, e, h, n, sure)
  {
    hide WellFormed, Allocated;
  }

  lemma SubOuter(s: View, t: View, u: View, c: Settings, held: int, h: nat, n: Node, keyParent: nat)
    requires Sized(s) && Sized(t) && 0 < h && 0 < n.parent && n.parent - 1 in Handles(s)
    requires CanAdopt(t, n.parent - 1, h - 1) && u == Adopted(t, n.parent - 1, h - 1)
    requires OuterOf(t, c, held) && n.batched == (c.batchSize != 0) && Inv(s, {}, {})
    requires Arrived(s, t, h, n.data, n.typ, n.flags, keyParent, n.batched)
    ensures OuterOf(u, c, held)
  {
    hide WellFormed, Inv, Handles;
    BatchAttach(t.f, n.parent - 1, h - 1, t.batchQ);
  }
}
