/** What a client sees of a handle base, and how each change shows there. */
module HandleContents {
  import opened Forests
  import opened HandleState
  import opened HandleInvariant
  import opened HandleFree
  import opened HandleGrow
  import opened HandleAlloc

  /** One handle: its parent's handle (0 for none) and its children in ring order. */
  datatype Node = Node(data: nat, typ: nat, flags: Flags, parent: nat, kids: seq<nat>, batched: bool)

  ghost function NodeAt(v: View, j: nat): Node
    requires j < |v.slots| && |v.f.kids| == |v.f.up| == |v.slots|
  {
    Node(v.slots[j].data, v.slots[j].typ, v.slots[j].flags, v.f.up[j], v.f.kids[j], v.slots[j].batched)
  }

  ghost function Handles(v: View): map<nat, Node>
    requires |v.f.kids| == |v.f.up| == |v.slots|
  {
    map j: nat | 0 <= j < |v.slots| && v.slots[j].typ != NO_TYPE :: NodeAt(v, j)
  }

  lemma HandlesAt(v: View, j: nat)
    requires |v.f.kids| == |v.f.up| == |v.slots|
    ensures j in Handles(v) <==> j < |v.slots| && v.slots[j].typ != NO_TYPE
    ensures j in Handles(v) ==> Handles(v)[j] == NodeAt(v, j)
  {
  }

  /** The handles left after those in `gone` went; gone is closed under children. */
  ghost function Remaining(h: map<nat, Node>, gone: set<nat>): map<nat, Node> {
    map j | j in h && j !in gone :: h[j].(kids := Without(h[j].kids, gone))
  }

  lemma GoneHandles(s: View, t: View, freed: seq<nat>)
    requires |s.f.kids| == |s.f.up| == |s.slots| && Gone(s, t, Elems(freed), freed)
    ensures |t.f.kids| == |t.f.up| == |t.slots|
    ensures Handles(t) == Remaining(Handles(s), Elems(freed))
  {
    hide WellFormed;
    forall j | 0 <= j < |s.slots|
      ensures SlotAfter(s.slots[j], t.slots[j], j in freed)
    {
    }
  }

  lemma GrowHandles(v: View, added: seq<Slot>)
    requires |v.f.kids| == |v.f.up| == |v.slots| && v.lastFreePlusOne <= |v.slots| && FreshBlocks(added)
    ensures Handles(Grown(v, added)) == Handles(v)
  {
    hide WellFormed;
    var t := Grown(v, added);
    forall j | 0 <= j < |t.slots|
      ensures j < |v.slots| ==> t.slots[j].typ == v.slots[j].typ && NodeAt(t, j) == NodeAt(v, j)
      ensures j >= |v.slots| ==> t.slots[j].typ == NO_TYPE
    {
      GrowSlots(v, added, j);
    }
  }

  lemma TakeHandles(v: View, m: nat, s: Slot, batch: bool)
    requires CanTake(v, m, s, batch) && |v.f.kids| == |v.f.up| == |v.slots|
    requires v.slots[v.freeQ[m]].typ == NO_TYPE && v.f.kids[v.freeQ[m]] == [] && v.f.up[v.freeQ[m]] == 0
    ensures v.freeQ[m] !in Handles(v)
    ensures Handles(Taken(v, m, s, batch)) == Handles(v)[v.freeQ[m] := Node(s.data, s.typ, s.flags, 0, [], batch)]
  {
  }

  lemma AdoptNodes(v: View, p: nat, i: nat, dying: set<nat>, j: nat)
    requires Inv(v, dying, {}) && CanAdopt(v, p, i) && j < |v.slots|
    ensures var t := Adopted(v, p, i);
            && |t.f.kids| == |t.f.up| == |t.slots| == |v.slots| && t.slots[j].typ == v.slots[j].typ
            && NodeAt(t, j) == (if j == i then NodeAt(v, j).(parent := p + 1)
                                else if j == p then NodeAt(v, j).(kids := v.f.kids[p] + [i]) else NodeAt(v, j))
  {
    hide WellFormed;
    AdoptSlots(v, p, i, dying, j);
    hide Inv, RingWith;
  }

  lemma AdoptHandles(v: View, p: nat, i: nat, dying: set<nat>)
    requires Inv(v, dying, {}) && CanAdopt(v, p, i)
    ensures p in Handles(v) && i in Handles(v)
    ensures var t := Adopted(v, p, i); |t.f.kids| == |t.f.up| == |t.slots| == |v.slots|
    ensures Handles(Adopted(v, p, i)) ==
            Handles(v)[i := Handles(v)[i].(parent := p + 1)][p := Handles(v)[p].(kids := Handles(v)[p].kids + [i])]
  {
    hide WellFormed;
    var t := Adopted(v, p, i);
    HandlesAt(v, p);
    HandlesAt(v, i);
    NodeFields(v, p);
    AdoptNodes(v, p, i, dying, p);
    var h := Handles(v)[i := Handles(v)[i].(parent := p + 1)][p := Handles(v)[p].(kids := Handles(v)[p].kids + [i])];
    hide Inv, Adopted, NodeAt, Handles;
    forall j: nat
      ensures j in Handles(t) <==> j in h
      ensures j in h ==> Handles(t)[j] == h[j]
    {
      HandlesAt(v, j);
      HandlesAt(t, j);
      if j < |v.slots| {
        AdoptNodes(v, p, i, dying, j);
      }
    }
  }

  lemma NodeFields(v: View, j: nat)
    requires j < |v.slots| && |v.f.kids| == |v.f.up| == |v.slots|
    ensures NodeAt(v, j).kids == v.f.kids[j] && NodeAt(v, j).parent == v.f.up[j]
  {
  }

  // ---------- the open batch ----------

  /** The batch lists its handles newest first, and owns every child of its handles. */
  ghost predicate Batches(f: Forest, q: seq<nat>)
    requires |f.up| == |f.born|
  {
    && (forall m :: 0 <= m < |q| ==> q[m] < |f.born|)
    && (forall a, b :: 0 <= a < b < |q| ==> f.born[q[b]] < f.born[q[a]])
    && (forall c {:trigger f.up[c]} :: 0 <= c < |f.up| && f.up[c] != 0 && f.up[c] - 1 in q ==> c in q)
  }

  /** A new handle, the youngest of all, joins the batch when one is open. */
  lemma BatchPush(f: Forest, g: Forest, q: seq<nat>, i: nat)
    requires |f.up| == |f.born| == |g.up| == |g.born| && Batches(f, q) && i < |f.up|
    requires g.up == f.up && f.up[i] == 0 && i !in q
    requires forall j :: 0 <= j < |f.born| && j != i ==> g.born[j] == f.born[j] < g.born[i]
    requires forall c :: 0 <= c < |f.up| ==> f.up[c] != i + 1
    ensures Batches(g, [i] + q)
    ensures Batches(g, q)
  {
    hide WellFormed;
    var r := [i] + q;
    assert forall m :: 0 <= m < |q| ==> q[m] in q && q[m] != i;
    forall a, b | 0 <= a < b < |r|
      ensures g.born[r[b]] < g.born[r[a]]
    {
      assert r[b] == q[b - 1];
      assert a > 0 ==> r[a] == q[a - 1];
    }
    forall c | 0 <= c < |g.up| && g.up[c] != 0 && g.up[c] - 1 in r
      ensures c in r
    {
      assert f.up[c] - 1 in q;
    }
  }

  lemma BatchGrow(f: Forest, n: nat, q: seq<nat>)
    requires |f.up| == |f.born| && Batches(f, q)
    ensures |Extended(f, n).up| == |Extended(f, n).born| && Batches(Extended(f, n), q)
  {
  }

  lemma BatchAttach(f: Forest, p: nat, i: nat, q: seq<nat>)
    requires |f.kids| == |f.up| == |f.born| && Batches(f, q) && p < |f.kids| && i < |f.up|
    requires p in q ==> i in q
    ensures Batches(Attached(f, p, i), q)
  {
  }

  lemma BatchPrune(f: Forest, u: set<nat>, q: seq<nat>)
    requires |f.kids| == |f.up| == |f.born| && Batches(f, q)
    ensures Batches(Prune(f, u), q)
  {
  }
}
