/** Looking handles up: by handle, by key, and below an ancestor. */
module HandleLookup {
  import opened Machine
  import opened Forests
  import opened HandleState
  import opened HandleInvariant
  import opened HandleContents
  import opened HandleConfig

  /** The handle `ancestor` names a slot above x. */
  ghost predicate Above(f: Forest, x: nat, ancestor: nat)
    requires WellFormed(f) && x < |f.up|
  {
    0 < ancestor <= |f.up| && ancestor - 1 != x && Descends(f, x, ancestor - 1)
  }

  /** GetHandleStructure on the slots of a view; typ 0 asks for any type. */
  function LookUp(slots: seq<Slot>, h: nat, typ: nat): Error
    requires h < TWO_32
  {
    var i := HandleToIndex(h);
    if i >= |slots| then IndexOutOfRange
    else if slots[i].typ == NO_TYPE then NotAllocated
    else if typ != NO_TYPE && typ != slots[i].typ then TypeMismatch
    else Ok
  }

  /** A handle that the index may hand out for this key. */
  ghost predicate Matches(n: Node, data: nat, typ: nat, parent: nat) {
    n.data == data && n.typ == typ && !n.flags.multi && (if n.flags.priv then n.parent else 0) == parent
  }

  lemma FindHandleCorrect(v: View, k: Key)
    requires Inv(v, {}, {}) && k.typ != NO_TYPE
    ensures |v.f.kids| == |v.f.up| == |v.slots|
    ensures k in v.index ==> v.index[k] != 0 && v.index[k] - 1 in Handles(v)
                             && Matches(Handles(v)[v.index[k] - 1], k.data, k.typ, k.parent)
    ensures k !in v.index ==> forall j :: j in Handles(v) ==> !Matches(Handles(v)[j], k.data, k.typ, k.parent)
  {
    hide Inv, Handles;
    Sizes(v, {}, {});
    if k in v.index {
      IndexEntry(v, k);
      HandlesAt(v, v.index[k] - 1);
    } else {
      forall j | j in Handles(v)
        ensures !Matches(Handles(v)[j], k.data, k.typ, k.parent)
      {
        KeyAt(v, j);
      }
    }
  }

  lemma KeyAt(v: View, j: nat)
    requires Inv(v, {}, {}) && |v.f.kids| == |v.f.up| == |v.slots| && j in Handles(v)
    ensures var n := Handles(v)[j]; !n.flags.multi ==> Key(n.data, n.typ, if n.flags.priv then n.parent else 0) in v.index
  {
    hide Inv, Handles;
    HandlesAt(v, j);
    IndexSlot(v, j);
  }

  lemma IndexEntry(v: View, k: Key)
    requires Inv(v, {}, {}) && k in v.index
    ensures 0 < v.index[k] <= |v.slots| == |v.f.up|
    ensures var s := v.slots[v.index[k] - 1];
            && s.typ != NO_TYPE && !s.flags.multi && s.siblings.parent == v.f.up[v.index[k] - 1]
            && k == Key(s.data, s.typ, if s.flags.priv then s.siblings.parent else 0)
  {
    hide WellFormed;
    assert EntryHeld(v.slots, v.index, {}, k);
    ParentLink(v, v.index[k] - 1);
  }

  lemma IndexSlot(v: View, j: nat)
    requires Inv(v, {}, {}) && j < |v.slots| && v.slots[j].typ != NO_TYPE
    ensures |v.slots| == |v.f.up| && v.slots[j].siblings.parent == v.f.up[j]
    ensures !v.slots[j].flags.multi ==> KeyOf(v.slots[j]) in v.index && v.index[KeyOf(v.slots[j])] == j + 1
  {
    hide WellFormed;
    ParentLink(v, j);
    hide Owned, Linked, FreeList, Counted, BatchChain;
    assert SlotFound(v.slots, v.index, {}, j);
  }

  /** No two handles share a key. */
  lemma KeysUnique(v: View, i: nat, j: nat)
    requires Inv(v, {}, {}) && |v.f.kids| == |v.f.up| == |v.slots|
    requires i in Handles(v) && j in Handles(v)
    requires var n := Handles(v)[j]; Matches(Handles(v)[i], n.data, n.typ, if n.flags.priv then n.parent else 0)
    requires !Handles(v)[j].flags.multi
    ensures i == j
  {
    hide WellFormed;
    IndexSlot(v, i);
    IndexSlot(v, j);
    hide Inv;
    assert KeyOf(v.slots[i]) == KeyOf(v.slots[j]);
  }

  lemma ParentLink(v: View, j: nat)
    requires Inv(v, {}, {}) && j < |v.slots| && v.slots[j].typ != NO_TYPE
    ensures |v.f.up| == |v.slots| && v.slots[j].siblings.parent == v.f.up[j] <= |v.slots|
  {
    assert SlotLinked(v, j) by { assert v.slots[j] == v.slots[j]; }
  }

  /** Going from p to its parent, when that is not the ancestor looked for. */
  lemma StepUp(v: View, p: nat, ancestor: nat)
    requires Inv(v, {}, {}) && p < |v.slots| && v.slots[p].typ != NO_TYPE
    ensures WellFormed(v.f) && |v.f.up| == |v.f.born| == |v.slots|
    ensures v.f.up[p] == 0 ==> !Above(v.f, p, ancestor)
    ensures v.f.up[p] != 0 ==>
      var q := v.f.up[p] - 1;
      && q < |v.slots| && v.slots[q].typ != NO_TYPE && v.slots[q].siblings.parent == v.f.up[q] <= |v.slots|
      && v.f.born[q] < v.f.born[p]
      && (ancestor != v.f.up[p] ==> (Above(v.f, p, ancestor) <==> Above(v.f, q, ancestor)))
  {
    hide WellFormed;
    Sizes(v, {}, {});
    if v.f.up[p] != 0 {
      ParentInUse(v, {}, p);
      ParentLink(v, v.f.up[p] - 1);
      AboveParent(v.f, p, ancestor);
    }
  }

  lemma AboveParent(f: Forest, p: nat, ancestor: nat)
    requires WellFormed(f) && p < |f.up| && f.up[p] != 0
    ensures f.up[p] <= |f.up| && f.born[f.up[p] - 1] < f.born[p]
    ensures ancestor != f.up[p] ==> (Above(f, p, ancestor) <==> Above(f, f.up[p] - 1, ancestor))
  {
    hide WellFormed, Descends, Adopts;
    YoungerThanParent(f, p);
    var q := f.up[p] - 1;
    if 0 < ancestor <= |f.up| {
      DescendsStep(f, p, ancestor - 1);
      if Descends(f, q, ancestor - 1) {
        DescendsIsYounger(f, q, ancestor - 1);
      }
    }
  }

  lemma DescendsStep(f: Forest, p: nat, a: nat)
    requires WellFormed(f) && p < |f.up| && f.up[p] != 0
    ensures f.up[p] <= |f.up| && (Descends(f, p, a) <==> p == a || Descends(f, f.up[p] - 1, a))
  {
  }

  lemma YoungerThanParent(f: Forest, p: nat)
    requires WellFormed(f) && p < |f.up| && f.up[p] != 0
    ensures f.up[p] <= |f.up| && f.up[p] - 1 != p && f.born[f.up[p] - 1] < f.born[p]
  {
    assert p in f.kids[f.up[p] - 1];
  }

  lemma ReachedAncestor(v: View, p: nat, ancestor: nat)
    requires Inv(v, {}, {}) && p < |v.slots| && v.slots[p].typ != NO_TYPE && v.f.up[p] == ancestor
    ensures WellFormed(v.f) && |v.f.up| == |v.slots|
    ensures ancestor != 0 ==> Above(v.f, p, ancestor)
  {
    Sizes(v, {}, {});
    if ancestor != 0 {
      AboveParent(v.f, p, ancestor);
    }
  }
}
