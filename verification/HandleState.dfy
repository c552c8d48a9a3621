/** The state of one handle base, the invariant its operations keep, and what each
    elementary change does to that invariant. */
module HandleState {
  import opened Forests

  const BLOCK_SIZE: nat := 256
  const MAX_HANDLE: nat := 0x7fff_ffff
  const MAX_INDEX_PLUS_ONE: nat := 0x7fff_ff00  // MAX_HANDLE rounded down to a block boundary
  const NO_TYPE: nat := 0

  /** An index-linked ring entry; `parent` is the parent's handle, 0 for none. */
  datatype Link = Link(prev: nat, next: nat, parent: nat)

  datatype Flags = Flags(shared: bool, multi: bool, priv: bool)

  /** One handle structure. `nextPlusOne` links the free list and the batch list. */
  datatype Slot = Slot(typ: nat, data: nat, nextPlusOne: nat, batched: bool, partFree: bool,
                       flags: Flags, children: Link, siblings: Link)

  datatype Key = Key(data: nat, typ: nat, parent: nat)

  /** The real fields, followed by the values they stand for: the forest held in the
      rings, the free list and the open batch (newest handle first). */
  datatype View = View(slots: seq<Slot>, blockFree: seq<nat>, index: map<Key, nat>,
                       freeCount: nat, firstFree: nat, lastFreePlusOne: nat, purging: bool,
                       f: Forest, freeQ: seq<nat>, batchQ: seq<nat>)

  // ---------- sibling rings ----------

  /** The ring link of entry i in the ring of parent p. */
  function LinkOf(slots: seq<Slot>, p: nat, i: nat): Link
    requires i < |slots|
  {
    if i == p then slots[i].children else slots[i].siblings
  }

  function WithLink(slots: seq<Slot>, p: nat, i: nat, l: Link): seq<Slot>
    requires i < |slots|
  {
    slots[i := if i == p then slots[i].(children := l) else slots[i].(siblings := l)]
  }

  /** Position m of the ring of parent p: the parent, then its children, then the parent again. */
  ghost function At(p: nat, c: seq<nat>, m: nat): nat
    requires m <= |c| + 1
  {
    if m == 0 || m == |c| + 1 then p else c[m - 1]
  }

  ghost predicate InRange(slots: seq<Slot>, p: nat, c: seq<nat>) {
    p < |slots| && p !in c && Distinct(c) && forall m :: 0 <= m < |c| ==> c[m] < |slots|
  }

  ghost predicate Ring(slots: seq<Slot>, p: nat, c: seq<nat>)
    requires InRange(slots, p, c)
  {
    && slots[p].children.parent == p + 1
    && (forall m :: 0 <= m <= |c| ==> RingStep(slots, p, c, m))
  }

  /** Ring positions m and m + 1 point at each other. */
  ghost predicate RingStep(slots: seq<Slot>, p: nat, c: seq<nat>, m: nat)
    requires InRange(slots, p, c) && m <= |c|
  {
    && LinkOf(slots, p, At(p, c, m)).next == At(p, c, m + 1)
    && LinkOf(slots, p, At(p, c, m + 1)).prev == At(p, c, m)
  }

  lemma RingFrame(slots: seq<Slot>, slots': seq<Slot>, p: nat, c: seq<nat>)
    requires InRange(slots, p, c) && Ring(slots, p, c) && |slots'| == |slots|
    requires slots'[p].children == slots[p].children
    requires forall m :: 0 <= m < |c| ==> slots'[c[m]].siblings == slots[c[m]].siblings
    ensures InRange(slots', p, c) && Ring(slots', p, c)
  {
    forall m | 0 <= m <= |c|
      ensures RingStep(slots', p, c, m)
    {
      assert RingStep(slots, p, c, m);
    }
  }

  /** HandleListRemove on child number m of p. */
  ghost function RingWithout(slots: seq<Slot>, p: nat, c: seq<nat>, m: nat): (r: seq<Slot>)
    requires InRange(slots, p, c) && m < |c|
    ensures |r| == |slots|
  {
    var prev, next := At(p, c, m), At(p, c, m + 2);
    var s1 := WithLink(slots, p, prev, LinkOf(slots, p, prev).(next := next));
    var s2 := WithLink(s1, p, next, LinkOf(s1, p, next).(prev := prev));
    s2[c[m] := s2[c[m]].(siblings := Link(c[m], c[m], 0))]
  }

  ghost predicate SameButRing(a: Slot, b: Slot) {
    a.(children := b.children, siblings := b.siblings) == b
  }

  lemma RingWithoutEffect(slots: seq<Slot>, p: nat, c: seq<nat>, m: nat, j: nat)
    requires InRange(slots, p, c) && m < |c| && j < |slots|
    ensures var r := RingWithout(slots, p, c, m);
            && SameButRing(slots[j], r[j])
            && (j == c[m] ==> r[j].siblings == Link(j, j, 0))
            && (j != c[m] ==> r[j].siblings.parent == slots[j].siblings.parent)
            && (j !in c ==> r[j].siblings == slots[j].siblings)
            && (j != p ==> r[j].children == slots[j].children)
            && r[j].children.parent == slots[j].children.parent
  {
    assert At(p, c, m) == p || At(p, c, m) in c;
    assert At(p, c, m + 2) == p || At(p, c, m + 2) in c;
  }

  lemma RingRemove(slots: seq<Slot>, p: nat, c: seq<nat>, m: nat)
    requires InRange(slots, p, c) && Ring(slots, p, c) && m < |c|
    ensures InRange(slots, p, c[..m] + c[m + 1..])
    ensures Ring(RingWithout(slots, p, c, m), p, c[..m] + c[m + 1..])
  {
    var c', slots' := c[..m] + c[m + 1..], RingWithout(slots, p, c, m);
    RingDistinct(p, c, m, 0);
    forall k | 0 <= k <= |c'|
      ensures RingStep(slots', p, c', k)
    {
      RingRemoveStep(slots, p, c, m, k);
    }
  }

  /** After the removal, next leads past c[m] from the entry before it; prev likewise. */
  lemma RingWithoutLinks(slots: seq<Slot>, p: nat, c: seq<nat>, m: nat, x: nat)
    requires InRange(slots, p, c) && m < |c| && x < |slots| && x != c[m]
    ensures var r, prev, next := RingWithout(slots, p, c, m), At(p, c, m), At(p, c, m + 2);
            && LinkOf(r, p, x).next == (if x == prev then next else LinkOf(slots, p, x).next)
            && LinkOf(r, p, x).prev == (if x == next then prev else LinkOf(slots, p, x).prev)
  {
    RingDistinct(p, c, m, m);
    RingDistinct(p, c, m, m + 2);
  }

  lemma RingRemoveStep(slots: seq<Slot>, p: nat, c: seq<nat>, m: nat, k: nat)
    requires InRange(slots, p, c) && Ring(slots, p, c) && m < |c| && k < |c|
    requires InRange(slots, p, c[..m] + c[m + 1..])
    ensures RingStep(RingWithout(slots, p, c, m), p, c[..m] + c[m + 1..], k)
  {
    hide RingWithout, At;
    var c' := c[..m] + c[m + 1..];
    var a, b := if k <= m then k else k + 1, if k < m then k + 1 else k + 2;
    var x, y := At(p, c, a), At(p, c, b);
    RemovedAt(p, c, m, k);
    RemovedAt(p, c, m, k + 1);
    AtInRange(slots, p, c, a);
    AtInRange(slots, p, c, b);
    assert RingStep(slots, p, c, a) && RingStep(slots, p, c, b - 1);
    RingDistinct(p, c, m, a);
    RingDistinct(p, c, m, b);
    RingWithoutLinks(slots, p, c, m, x);
    RingWithoutLinks(slots, p, c, m, y);
    hide Ring, InRange;
  }

  lemma AtInRange(slots: seq<Slot>, p: nat, c: seq<nat>, k: nat)
    requires InRange(slots, p, c) && k <= |c| + 1
    ensures At(p, c, k) < |slots|
  {
  }

  lemma RemovedAt(p: nat, c: seq<nat>, m: nat, k: nat)
    requires m < |c| && k <= |c|
    ensures At(p, c[..m] + c[m + 1..], k) == At(p, c, if k <= m then k else k + 1)
  {
  }

  /** Ring positions 0..|c| hold different entries. */
  lemma RingDistinct(p: nat, c: seq<nat>, m: nat, k: nat)
    requires p !in c && Distinct(c) && m < |c| && k <= |c| + 1
    ensures k != m + 1 ==> At(p, c, k) != c[m]
    ensures At(p, c, k) == At(p, c, m) ==> k == m || (m == 0 && k == |c| + 1)
    ensures At(p, c, k) == At(p, c, m + 2) ==> k == m + 2 || (m + 2 == |c| + 1 && k == 0)
  {
  }

  /** AdoptChild: HandleListInsertBefore in front of the parent's own entry. */
  ghost function RingWith(slots: seq<Slot>, p: nat, i: nat): (r: seq<Slot>)
    requires p < |slots| && i < |slots| && p != i && slots[p].children.prev < |slots|
    ensures |r| == |slots|
  {
    var prev := slots[p].children.prev;
    var s1 := slots[i := slots[i].(siblings := Link(prev, p, p + 1))];
    var s2 := s1[p := s1[p].(children := s1[p].children.(prev := i))];
    WithLink(s2, p, prev, LinkOf(s2, p, prev).(next := i))
  }

  lemma RingInsert(slots: seq<Slot>, p: nat, c: seq<nat>, i: nat)
    requires InRange(slots, p, c) && Ring(slots, p, c) && i < |slots| && i != p && i !in c
    ensures slots[p].children.prev < |slots|
    ensures slots[p].children.prev == At(p, c, |c|)
    ensures InRange(slots, p, c + [i])
    ensures Ring(RingWith(slots, p, i), p, c + [i])
  {
    assert RingStep(slots, p, c, |c|);
    assert At(p, c, |c| + 1) == p;
    var c', slots' := c + [i], RingWith(slots, p, i);
    forall k | 0 <= k <= |c'|
      ensures RingStep(slots', p, c', k)
    {
      RingInsertStep(slots, p, c, i, k);
    }
  }

  lemma RingInsertStep(slots: seq<Slot>, p: nat, c: seq<nat>, i: nat, k: nat)
    requires InRange(slots, p, c) && Ring(slots, p, c) && i < |slots| && i != p && i !in c && k <= |c| + 1
    requires InRange(slots, p, c + [i]) && slots[p].children.prev == At(p, c, |c|)
    ensures RingStep(RingWith(slots, p, i), p, c + [i], k)
  {
    var c' := c + [i];
    if k <= |c| {
      assert RingStep(slots, p, c, k);
      assert At(p, c', k) == At(p, c, k);
      if k < |c| {
        assert At(p, c', k + 1) == At(p, c, k + 1) == c[k];
        assert c[|c| - 1] in c;
        if k > 0 {
          assert At(p, c, k) == c[k - 1] != c[|c| - 1];
        }
      }
    }
  }
}
