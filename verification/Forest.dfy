/** The parent/child forest that the handle table keeps in its sibling rings,
    seen as values: the ordered children of each slot and the parent of each slot.
    Every slot carries the moment it was allocated; a child is always allocated after
    its parent, which is why the forest has no cycle. */
module Forests {

  /** `kids[i]` are the children of slot i in ring order, `up[i]` is the parent's index
      plus one (0 for none) and `born[i]` the allocation time of slot i. */
  datatype Forest = Forest(kids: seq<seq<nat>>, up: seq<nat>, born: seq<nat>, clock: nat)

  ghost predicate Distinct(s: seq<nat>) {
    forall a, b :: 0 <= a < b < |s| ==> s[a] != s[b]
  }

  /** The children of p are distinct younger slots that name p as their parent. */
  ghost predicate Adopts(f: Forest, p: nat)
    requires |f.kids| == |f.up| == |f.born| && p < |f.kids|
  {
    && Distinct(f.kids[p])
    && (forall m :: 0 <= m < |f.kids[p]| ==>
           f.kids[p][m] < |f.up| && f.up[f.kids[p][m]] == p + 1 && f.born[p] < f.born[f.kids[p][m]])
  }

  ghost predicate WellFormed(f: Forest) {
    && |f.kids| == |f.up| == |f.born|
    && (forall i :: 0 <= i < |f.born| ==> f.born[i] < f.clock)
    && (forall p {:trigger f.kids[p]} :: 0 <= p < |f.kids| ==> Adopts(f, p))
    && (forall c :: 0 <= c < |f.up| && f.up[c] != 0 ==> f.up[c] <= |f.kids| && c in f.kids[f.up[c] - 1])
  }

  lemma SameSizes(f: Forest)
    requires WellFormed(f)
    ensures |f.kids| == |f.up| == |f.born| && forall i :: 0 <= i < |f.born| ==> f.born[i] < f.clock
  {
    hide Adopts;
  }

  /** A child names its parent and is younger. */
  lemma KidAt(f: Forest, p: nat, x: nat)
    requires WellFormed(f) && p < |f.kids| && x in f.kids[p]
    ensures |f.kids| == |f.up| == |f.born| && x < |f.up| && f.up[x] == p + 1 && f.born[p] < f.born[x]
  {
    assert Adopts(f, p);
  }

  /** A parent lists its child and is older. */
  lemma ParentAt(f: Forest, c: nat)
    requires WellFormed(f) && c < |f.up| && f.up[c] != 0
    ensures |f.kids| == |f.up| == |f.born| && f.up[c] <= |f.kids| && c in f.kids[f.up[c] - 1] && f.born[f.up[c] - 1] < f.born[c]
  {
    assert Adopts(f, f.up[c] - 1);
  }

  ghost predicate Roots(f: Forest, c: seq<nat>, floor: nat)
    requires |f.kids| == |f.born|
  {
    forall m :: 0 <= m < |c| ==> c[m] < |f.kids| && floor < f.born[c[m]]
  }

  /** The subtree of i, children before their parent and siblings in ring order. */
  ghost function PostOrder(f: Forest, i: nat): (r: seq<nat>)
    requires WellFormed(f) && i < |f.kids|
    decreases f.clock - f.born[i]
  {
    PostOrders(f, f.kids[i], f.born[i]) + [i]
  }

  /** The subtrees of all of c, one after the other; every root in c was born after `floor`. */
  ghost function PostOrders(f: Forest, c: seq<nat>, floor: nat): (r: seq<nat>)
    requires WellFormed(f)
    requires Roots(f, c, floor)
    decreases f.clock - floor, |c|
  {
    if c == [] then [] else PostOrders(f, c[..|c| - 1], floor) + PostOrder(f, c[|c| - 1])
  }

  /** j is i, or reaches i by following parents. */
  ghost predicate Descends(f: Forest, j: nat, i: nat)
    requires WellFormed(f) && j < |f.up|
    decreases f.born[j]
  {
    j == i || (f.up[j] != 0 && Descends(f, f.up[j] - 1, i))
  }

  lemma {:induction false} DescendsIsYounger(f: Forest, j: nat, i: nat)
    requires WellFormed(f) && j < |f.up| && i < |f.up| && Descends(f, j, i)
    ensures f.born[i] <= f.born[j]
    ensures i != j ==> f.born[i] < f.born[j]
    decreases f.born[j]
  {
    if j != i {
      DescendsIsYounger(f, f.up[j] - 1, i);
    }
  }

  lemma {:induction false} DescendsTransitive(f: Forest, k: nat, j: nat, i: nat)
    requires WellFormed(f) && k < |f.up| && j < |f.up| && Descends(f, k, j) && Descends(f, j, i)
    ensures Descends(f, k, i)
    decreases f.born[k]
  {
    if k != j {
      DescendsTransitive(f, f.up[k] - 1, j, i);
    }
  }

  /** The ancestors of a slot form a chain. */
  lemma {:induction false} AncestorsLinear(f: Forest, x: nat, a: nat, b: nat)
    requires WellFormed(f) && x < |f.up| && a < |f.up| && b < |f.up|
    requires Descends(f, x, a) && Descends(f, x, b)
    ensures Descends(f, a, b) || Descends(f, b, a)
    decreases f.born[x]
  {
    if x != a && x != b {
      AncestorsLinear(f, f.up[x] - 1, a, b);
    }
  }

  /** PostOrder lists exactly the slots whose parent chain reaches i. */
  lemma {:induction false} PostOrderIsSubtree(f: Forest, i: nat, j: nat)
    requires WellFormed(f) && i < |f.kids|
    ensures j in PostOrder(f, i) <==> j < |f.kids| && Descends(f, j, i)
    decreases f.clock - f.born[i]
  {
    PostOrdersAreSubtrees(f, f.kids[i], f.born[i], j);
    if j < |f.kids| && j != i {
      DescendsThroughChild(f, j, i);
    }
  }

  lemma DescendsThroughChild(f: Forest, j: nat, i: nat)
    requires WellFormed(f) && i < |f.kids| && j < |f.kids| && j != i
    ensures Descends(f, j, i) <==> exists c :: c in f.kids[i] && Descends(f, j, c)
  {
    hide WellFormed, Adopts;
    SameSizes(f);
    if Descends(f, j, i) {
      var c := ChildTowards(f, j, i);
    }
    if c :| c in f.kids[i] && Descends(f, j, c) {
      KidDescends(f, i, c);
      DescendsTransitive(f, j, c, i);
    }
  }

  lemma KidDescends(f: Forest, i: nat, c: nat)
    requires WellFormed(f) && i < |f.kids| && c in f.kids[i]
    ensures c < |f.kids| && Descends(f, c, i)
  {
    hide WellFormed, Adopts;
    KidAt(f, i, c);
  }

  lemma {:induction false} PostOrdersAreSubtrees(f: Forest, c: seq<nat>, floor: nat, j: nat)
    requires WellFormed(f)
    requires Roots(f, c, floor)
    ensures j in PostOrders(f, c, floor) <==> j < |f.kids| && exists x :: x in c && Descends(f, j, x)
    decreases f.clock - floor, |c|
  {
    if c != [] {
      var last := c[|c| - 1];
      assert c == c[..|c| - 1] + [last];
      PostOrdersAreSubtrees(f, c[..|c| - 1], floor, j);
      PostOrderIsSubtree(f, last, j);
    }
  }

  /** The child of i through which j descends from i. */
  lemma {:induction false} ChildTowards(f: Forest, j: nat, i: nat) returns (c: nat)
    requires WellFormed(f) && j < |f.up| && i < |f.up| && j != i && Descends(f, j, i)
    ensures c in f.kids[i] && c < |f.up| && Descends(f, j, c)
    decreases f.born[j]
  {
    if f.up[j] - 1 == i {
      c := j;
    } else {
      c := ChildTowards(f, f.up[j] - 1, i);
    }
  }

  /** A slot is not below its own child. */
  lemma NotBelowChild(f: Forest, i: nat, a: nat)
    requires WellFormed(f) && i < |f.kids| && a in f.kids[i]
    ensures a < |f.kids| && !Descends(f, i, a)
    ensures Descends(f, a, i)
  {
    hide WellFormed, Adopts;
    KidAt(f, i, a);
    if Descends(f, i, a) {
      DescendsIsYounger(f, i, a);
    }
  }

  lemma SiblingsUnrelated(f: Forest, i: nat, a: nat, b: nat)
    requires WellFormed(f) && i < |f.kids| && a in f.kids[i] && b in f.kids[i] && a != b
    ensures a < |f.kids| && b < |f.kids| && !Descends(f, a, b)
  {
    hide WellFormed, Adopts;
    KidAt(f, i, a);
    KidAt(f, i, b);
    NotBelowChild(f, i, b);
  }

  /** Subtrees of two different siblings share nothing. */
  lemma SiblingsDisjoint(f: Forest, i: nat, a: nat, b: nat, j: nat)
    requires WellFormed(f) && i < |f.kids| && a in f.kids[i] && b in f.kids[i] && a != b
    ensures a < |f.kids| && b < |f.kids|
    ensures !(j in PostOrder(f, a) && j in PostOrder(f, b))
  {
    hide WellFormed, Adopts, PostOrder;
    SameSizes(f);
    SiblingsUnrelated(f, i, a, b);
    SiblingsUnrelated(f, i, b, a);
    PostOrderIsSubtree(f, a, j);
    PostOrderIsSubtree(f, b, j);
    if j < |f.kids| && Descends(f, j, a) && Descends(f, j, b) {
      AncestorsLinear(f, j, a, b);
    }
  }

  lemma {:induction false} PostOrderDistinct(f: Forest, i: nat)
    requires WellFormed(f) && i < |f.kids|
    ensures Distinct(PostOrder(f, i))
    decreases f.clock - f.born[i]
  {
    hide WellFormed, Adopts, PostOrders;
    SameSizes(f);
    PostOrdersDistinct(f, i, f.kids[i]);
    ParentNotBelow(f, i);
  }

  lemma {:induction false} ParentNotBelow(f: Forest, i: nat)
    requires WellFormed(f) && i < |f.kids|
    ensures i !in PostOrders(f, f.kids[i], f.born[i])
  {
    PostOrdersAreSubtrees(f, f.kids[i], f.born[i], i);
    if x :| x in f.kids[i] && Descends(f, i, x) {
      DescendsIsYounger(f, i, x);
    }
  }

  lemma {:induction false} PostOrdersDistinct(f: Forest, i: nat, c: seq<nat>)
    requires WellFormed(f) && i < |f.kids| && c <= f.kids[i]
    ensures Distinct(PostOrders(f, c, f.born[i]))
    decreases f.clock - f.born[i], |c|
  {
    hide WellFormed, Adopts, Distinct, PostOrder;
    SameSizes(f);
    if c == [] {
      DistinctNone();
    } else {
      var last, rest := c[|c| - 1], c[..|c| - 1];
      assert f.kids[i][..|rest|] == rest && f.kids[i][|rest|] == last;
      KidAt(f, i, last);
      KidsAreRoots(f, i, c);
      PostOrdersDistinct(f, i, rest);
      PostOrderDistinct(f, last);
      PrefixDisjoint(f, i, |rest|);
      DistinctConcat(PostOrders(f, rest, f.born[i]), PostOrder(f, last));
    }
  }

  lemma KidsAreRoots(f: Forest, i: nat, c: seq<nat>)
    requires WellFormed(f) && i < |f.kids| && c <= f.kids[i]
    ensures |f.kids| == |f.up| == |f.born| && Roots(f, c, f.born[i])
  {
    assert Adopts(f, i);
  }

  lemma DistinctNone()
    ensures Distinct([])
  {
  }

  lemma DistinctConcat(s: seq<nat>, t: seq<nat>)
    requires Distinct(s) && Distinct(t) && forall x :: x in s ==> x !in t
    ensures Distinct(s + t)
  {
    assert forall n :: 0 <= n < |s| ==> s[n] in s;
  }

  /** The subtrees of the first m children share nothing with the subtree of child m. */
  lemma {:induction false} PrefixDisjoint(f: Forest, i: nat, m: nat)
    requires WellFormed(f) && i < |f.kids| && m < |f.kids[i]|
    ensures forall j :: j in PostOrders(f, f.kids[i][..m], f.born[i]) ==> j !in PostOrder(f, f.kids[i][m])
  {
    forall j | j in PostOrders(f, f.kids[i][..m], f.born[i])
      ensures j !in PostOrder(f, f.kids[i][m])
    {
      PostOrdersAreSubtrees(f, f.kids[i][..m], f.born[i], j);
      var x :| x in f.kids[i][..m] && Descends(f, j, x);
      PostOrderIsSubtree(f, x, j);
      SiblingsDisjoint(f, i, x, f.kids[i][m], j);
    }
  }

  // ---------- detaching nodes from their parents ----------

  /** s without the members of u, in the same order. */
  ghost function Without(s: seq<nat>, u: set<nat>): (r: seq<nat>) {
    if s == [] then []
    else Without(s[..|s| - 1], u) + (if s[|s| - 1] in u then [] else [s[|s| - 1]])
  }

  lemma WithoutLast(s: seq<nat>, x: nat, u: set<nat>)
    ensures Without(s + [x], u) == Without(s, u) + (if x in u then [] else [x])
  {
    assert (s + [x])[..|s|] == s;
  }

  lemma {:induction false} WithoutMembers(s: seq<nat>, u: set<nat>)
    ensures forall x :: x in Without(s, u) <==> x in s && x !in u
  {
    hide Without;
    if s == [] {
      WithoutEmpty(u);
    } else {
      var front, last := s[..|s| - 1], s[|s| - 1];
      assert s == front + [last];
      WithoutMembers(front, u);
      WithoutLast(front, last, u);
    }
  }

  lemma WithoutEmpty(u: set<nat>)
    ensures Without([], u) == []
  {
  }

  lemma {:induction false} WithoutSize(s: seq<nat>, u: set<nat>)
    ensures |Without(s, u)| <= |s|
  {
    if s != [] {
      WithoutSize(s[..|s| - 1], u);
    }
  }

  lemma {:induction false} WithoutDistinct(s: seq<nat>, u: set<nat>)
    requires Distinct(s)
    ensures Distinct(Without(s, u))
  {
    hide Without;
    if s == [] {
      WithoutEmpty(u);
    } else {
      var front, last := s[..|s| - 1], s[|s| - 1];
      assert s == front + [last];
      WithoutDistinct(front, u);
      WithoutMembers(front, u);
      WithoutLast(front, last, u);
      LastApart(front, last);
      if last !in u {
        DistinctConcat(Without(front, u), [last]);
      }
    }
  }

  lemma LastApart(s: seq<nat>, x: nat)
    requires Distinct(s + [x])
    ensures x !in s && Distinct([x])
  {
    forall m | 0 <= m < |s|
      ensures s[m] != x
    {
      assert (s + [x])[m] == s[m] && (s + [x])[|s|] == x;
    }
  }

  lemma {:induction false} WithoutNone(s: seq<nat>, u: set<nat>)
    requires forall k :: 0 <= k < |s| ==> s[k] !in u
    ensures Without(s, u) == s
  {
    if s != [] {
      WithoutNone(s[..|s| - 1], u);
    }
  }

  lemma {:induction false} WithoutAll(s: seq<nat>, u: set<nat>)
    requires forall x :: x in s ==> x in u
    ensures Without(s, u) == []
  {
    if s != [] {
      WithoutAll(s[..|s| - 1], u);
    }
  }

  lemma {:induction false} WithoutTwice(s: seq<nat>, u: set<nat>, w: set<nat>)
    ensures Without(Without(s, u), w) == Without(s, u + w)
  {
    if s != [] {
      WithoutTwice(s[..|s| - 1], u, w);
      var r, x := Without(s[..|s| - 1], u), s[|s| - 1];
      if x in u {
        assert Without(s, u) == r;
      } else {
        assert Without(s, u) == r + [x] && (r + [x])[..|r|] == r;
      }
    }
  }

  lemma {:induction false} WithoutConcat(s: seq<nat>, t: seq<nat>, u: set<nat>)
    ensures Without(s + t, u) == Without(s, u) + Without(t, u)
  {
    if t == [] {
      assert s + t == s;
    } else {
      WithoutConcat(s, t[..|t| - 1], u);
      assert (s + t)[..|s + t| - 1] == s + t[..|t| - 1];
    }
  }

  /** Removing one member of a list without repeats. */
  lemma {:induction false} WithoutOne(s: seq<nat>, m: nat)
    requires m < |s| && Distinct(s)
    ensures Without(s, {s[m]}) == s[..m] + s[m + 1..]
  {
    var n := |s| - 1;
    var r := s[..n];
    if m == n {
      WithoutNone(r, {s[m]});
      assert s[..m] + s[m + 1..] == r;
    } else {
      assert s[n] !in {s[m]};
      WithoutOne(r, m);
      assert s[m + 1..] == r[m + 1..] + [s[n]];
      assert s[..m] == r[..m];
    }
  }

  /** The forest after every slot in u has been unlinked from its parent. */
  ghost function Prune(f: Forest, u: set<nat>): (r: Forest)
    requires |f.kids| == |f.up|
    ensures |r.kids| == |r.up| == |f.kids|
  {
    f.(kids := seq(|f.kids|, p requires 0 <= p < |f.kids| => Without(f.kids[p], u)),
       up := seq(|f.up|, c requires 0 <= c < |f.up| => if c in u then 0 else f.up[c]))
  }

  lemma PruneAdopts(f: Forest, u: set<nat>, p: nat)
    requires WellFormed(f) && p < |f.kids|
    ensures Adopts(Prune(f, u), p)
  {
    var g, k := Prune(f, u), f.kids[p];
    WithoutMembers(k, u);
    SameSizes(f);
    assert Adopts(f, p);
    WithoutDistinct(k, u);
    hide WellFormed, Without, Distinct;
    forall m | 0 <= m < |g.kids[p]|
      ensures var c := g.kids[p][m]; c < |g.up| && g.up[c] == p + 1 && g.born[p] < g.born[c]
    {
      assert g.kids[p][m] in Without(k, u);
      var n :| 0 <= n < |k| && k[n] == g.kids[p][m];
    }
  }

  lemma PruneUp(f: Forest, u: set<nat>, c: nat)
    requires WellFormed(f) && c < |f.up| && Prune(f, u).up[c] != 0
    ensures f.up[c] == Prune(f, u).up[c] <= |f.kids| && c in Prune(f, u).kids[f.up[c] - 1]
  {
    hide WellFormed, Adopts, Distinct, Without;
    ParentAt(f, c);
    WithoutMembers(f.kids[f.up[c] - 1], u);
  }

  lemma PruneWellFormed(f: Forest, u: set<nat>)
    requires WellFormed(f)
    ensures WellFormed(Prune(f, u))
  {
    var g := Prune(f, u);
    forall p | 0 <= p < |f.kids|
      ensures Adopts(g, p)
    {
      PruneAdopts(f, u, p);
    }
    hide Adopts, Without;
    forall c | 0 <= c < |g.up| && g.up[c] != 0
      ensures g.up[c] <= |g.kids| && c in g.kids[g.up[c] - 1]
    {
      PruneUp(f, u, c);
    }
  }

  lemma PruneTwice(f: Forest, u: set<nat>, w: set<nat>)
    requires |f.kids| == |f.up|
    ensures Prune(Prune(f, u), w) == Prune(f, u + w)
  {
    forall p | 0 <= p < |f.kids| { WithoutTwice(f.kids[p], u, w); }
    assert Prune(Prune(f, u), w).kids == Prune(f, u + w).kids;
    assert Prune(Prune(f, u), w).up == Prune(f, u + w).up;
  }

  lemma PruneNothing(f: Forest)
    requires |f.kids| == |f.up|
    ensures Prune(f, {}) == f
  {
    forall p | 0 <= p < |f.kids| { WithoutNone(f.kids[p], {}); }
    assert Prune(f, {}).kids == f.kids;
    assert Prune(f, {}).up == f.up;
  }

  /** Cutting nodes that lie outside a subtree leaves the subtree as it is. */
  lemma {:induction false} PruneKeepsSubtree(f: Forest, u: set<nat>, i: nat)
    requires WellFormed(f) && WellFormed(Prune(f, u)) && i < |f.kids|
    requires forall j :: j in PostOrder(f, i) && j != i ==> j !in u
    ensures PostOrder(Prune(f, u), i) == PostOrder(f, i)
    ensures Prune(f, u).kids[i] == f.kids[i]
    decreases f.clock - f.born[i]
  {
    var c := f.kids[i];
    forall x | x in c
      ensures x !in u
    {
      PostOrderIsSubtree(f, i, x);
      assert Descends(f, x, i);
    }
    WithoutNone(c, u);
    ParentNotBelow(f, i);
    PruneKeepsSubtrees(f, u, c, f.born[i]);
  }

  lemma {:induction false} PruneKeepsSubtrees(f: Forest, u: set<nat>, c: seq<nat>, floor: nat)
    requires WellFormed(f) && WellFormed(Prune(f, u))
    requires Roots(f, c, floor)
    requires forall j :: j in PostOrders(f, c, floor) ==> j !in u
    ensures PostOrders(Prune(f, u), c, floor) == PostOrders(f, c, floor)
    decreases f.clock - floor, |c|
  {
    if c != [] {
      PruneKeepsSubtrees(f, u, c[..|c| - 1], floor);
      PruneKeepsSubtree(f, u, c[|c| - 1]);
    }
  }
}
