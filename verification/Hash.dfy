/** src/services4/srvkm/common/hash.c: a chained hash table that grows and shrinks. */
module Hash {
  import opened Machine

  /** The words of a key; two keys are the same when all their words are. */
  type Key = seq<nat>

  /** One hash bucket: key and value are written once, the link changes. */
  class Bucket {
    const k: Key
    const v: nat
    var next: Bucket?

    constructor (k: Key, v: nat)
      ensures this.k == k && this.v == v
    {
      this.k, this.v, next := k, v, null;
    }
  }

  // ---------- chains ----------

  ghost function Nth(c: seq<Bucket>, j: nat): Bucket? {
    if j < |c| then c[j] else null
  }

  ghost predicate NoRepeat(c: seq<Bucket>) {
    forall a, b :: 0 <= a < b < |c| ==> c[a] != c[b]
  }

  /** Following the links from head meets exactly the buckets of c, in that order, and ends. */
  ghost predicate Chained(head: Bucket?, c: seq<Bucket>)
    reads c
  {
    && head == Nth(c, 0) && NoRepeat(c)
    && (forall j :: 0 <= j < |c| ==> c[j].next == Nth(c, j + 1))
  }

  /** The chains of a table hold exactly the buckets in nodes, each in the chain of its index. */
  ghost predicate Sorted(hash: Key -> nat, chains: seq<seq<Bucket>>, nodes: set<Bucket>) {
    && (forall i, b :: 0 <= i < |chains| && b in chains[i] ==> b in nodes && hash(b.k) % |chains| == i)
    && (|chains| == 0 ==> nodes == {})
    && (forall b :: b in nodes ==> |chains| > 0 && b in chains[hash(b.k) % |chains|])
  }

  ghost predicate Filed(hash: Key -> nat, table: array<Bucket?>, chains: seq<seq<Bucket>>, nodes: set<Bucket>)
    reads table, nodes
  {
    && table.Length == |chains| && Sorted(hash, chains, nodes)
    && (forall i :: 0 <= i < |chains| ==> InNodes(chains[i], nodes) && Chained(table[i], chains[i]))
  }

  ghost predicate InNodes(c: seq<Bucket>, nodes: set<Bucket>) {
    forall j :: 0 <= j < |c| ==> c[j] in nodes
  }

  ghost function Elements(c: seq<Bucket>): set<Bucket> {
    set b | b in c
  }

  /** Buckets that a change leaves alone keep their chains. */
  lemma SortedWith(hash: Key -> nat, chains: seq<seq<Bucket>>, nodes: set<Bucket>, b: Bucket)
    requires Sorted(hash, chains, nodes) && |chains| > 0 && b !in nodes
    ensures var i := hash(b.k) % |chains|;
            Sorted(hash, chains[i := [b] + chains[i]], nodes + {b})
  {
    var i := hash(b.k) % |chains|;
    var chains' := chains[i := [b] + chains[i]];
    assert chains'[i][0] == b;
    forall x | x in nodes + {b}
      ensures x in chains'[hash(x.k) % |chains'|]
    {
      if x != b {
        var n := hash(x.k) % |chains|;
        assert x in chains[n];
        if n == i {
          assert x in [b] + chains[i];
        }
      }
    }
  }

  /** _ChainInsert: the bucket goes to the front of the chain of its index. */
  method ChainInsert(hash: Key -> nat, b: Bucket, table: array<Bucket?>, size: nat,
                        ghost chains: seq<seq<Bucket>>, ghost nodes: set<Bucket>)
    returns (ok: bool, ghost chains': seq<seq<Bucket>>)
    requires Filed(hash, table, chains, nodes) && size == table.Length && b !in nodes
    modifies table, b`next
    ensures ok <==> size != 0
    ensures !ok ==> b.next == old(b.next) && chains' == chains && Filed(hash, table, chains, nodes)
    ensures ok ==> Filed(hash, table, chains', nodes + {b}) && |chains'| == |chains|
  {
    hide Sorted, Chained;
    chains' := chains;
    if size == 0 {
      return false, chains;
    }
    var i := hash(b.k) % size;
    SortedWith(hash, chains, nodes, b);
    assert Chained(table[i], chains[i]) && InNodes(chains[i], nodes);
    chains' := chains[i := [b] + chains[i]];
    b.next := table[i];
    table[i] := b;
    ok := true;
    Pushed(b, chains[i], nodes);
    forall n | 0 <= n < |chains'|
      ensures InNodes(chains'[n], nodes + {b}) && Chained(table[n], chains'[n])
    {
      assert InNodes(chains[n], nodes) && old(Chained(table[n], chains[n]));
      assert b !in chains[n];
    }
  }

  lemma Pushed(b: Bucket, c: seq<Bucket>, nodes: set<Bucket>)
    requires Chained(b.next, c) && InNodes(c, nodes) && b !in nodes
    ensures Chained(b, [b] + c) && InNodes([b] + c, nodes + {b})
  {
    var r := [b] + c;
    forall j | 0 <= j < |r|
      ensures r[j].next == Nth(r, j + 1)
    {
      assert j > 0 ==> r[j] == c[j - 1] && Nth(r, j + 1) == Nth(c, j);
    }
  }

  lemma ChainTail(head: Bucket?, c: seq<Bucket>)
    requires Chained(head, c) && head != null
    ensures c != [] && head == c[0] && NoRepeat(c) && Chained(head.next, c[1..])
  {
    var r := c[1..];
    forall j | 0 <= j < |r|
      ensures r[j].next == Nth(r, j + 1) && r[j] != c[0]
    {
      assert c[j + 1].next == Nth(c, j + 2);
    }
    assert c[0].next == Nth(c, 1);
  }

  /** The inner loop of _Rehash: the buckets of one old chain, first to last, each to the front
      of its new chain. */
  method RehashChain(hash: Key -> nat, head: Bucket?, newTable: array<Bucket?>, newSize: nat,
                     ghost c: seq<Bucket>, ghost chains: seq<seq<Bucket>>, ghost nodes: set<Bucket>)
    returns (ok: bool, ghost chains': seq<seq<Bucket>>)
    requires Filed(hash, newTable, chains, nodes) && newSize == newTable.Length
    requires Chained(head, c) && forall b :: b in c ==> b !in nodes
    modifies newTable, c
    ensures ok <==> newSize != 0 || c == []
    ensures ok ==> Filed(hash, newTable, chains', nodes + Elements(c)) && |chains'| == |chains|
    ensures !ok ==> forall b :: b in c ==> b.next == old(b.next)
  {
    hide Filed, Chained, Elements;
    var bucket := head;
    chains' := chains;
    ghost var held: set<Bucket>, rest: seq<Bucket> := nodes, c;
    RemainsAll(c, nodes);
    FiledSize(hash, newTable, chains, nodes);
    ok := true;
    NullChain(bucket, rest);
    while bucket != null
      invariant Chained(bucket, rest) && (bucket == null <==> rest == [])
      invariant Filed(hash, newTable, chains', held) && |chains'| == |chains| == newTable.Length
      invariant Remains(c, rest, nodes, held)
      invariant newSize == 0 ==> rest == c && forall b :: b in c ==> b.next == old(b.next)
      decreases |rest|
    {
      ChainTail(bucket, rest);
      RemainsHead(c, rest, nodes, held);
      var next := bucket.next;
      ghost var tail: seq<Bucket> := rest[1..];
      ok, chains' := ChainInsert(hash, bucket, newTable, newSize, chains', held);
      if !ok {
        return;
      }
      held, rest := held + {bucket}, tail;
      bucket := next;
      NullChain(bucket, rest);
    }
    RemainsNone(c, nodes, held, rest);
  }

  /** Of the chain c the buckets in rest are still to be moved. */
  ghost predicate Remains(c: seq<Bucket>, rest: seq<Bucket>, nodes: set<Bucket>, held: set<Bucket>) {
    && |rest| <= |c| && rest == c[|c| - |rest|..]
    && held == nodes + Elements(c[..|c| - |rest|])
    && (forall j :: 0 <= j < |rest| ==> rest[j] !in held)
  }

  lemma RemainsAll(c: seq<Bucket>, nodes: set<Bucket>)
    requires forall b :: b in c ==> b !in nodes
    ensures Remains(c, c, nodes, nodes)
  {
    assert c[..0] == [];
  }

  lemma RemainsHead(c: seq<Bucket>, rest: seq<Bucket>, nodes: set<Bucket>, held: set<Bucket>)
    requires Remains(c, rest, nodes, held) && NoRepeat(rest) && rest != []
    ensures rest[0] !in held && rest[0] in c && Remains(c, rest[1..], nodes, held + {rest[0]})
  {
    var n := |c| - |rest|;
    assert c[..n + 1] == c[..n] + [rest[0]];
  }

  lemma RemainsNone(c: seq<Bucket>, nodes: set<Bucket>, held: set<Bucket>, rest: seq<Bucket>)
    requires Remains(c, rest, nodes, held) && rest == []
    ensures held == nodes + Elements(c)
  {
    assert c[..|c|] == c;
  }

  lemma FiledSize(hash: Key -> nat, table: array<Bucket?>, chains: seq<seq<Bucket>>, nodes: set<Bucket>)
    requires Filed(hash, table, chains, nodes)
    ensures table.Length == |chains|
  {
  }

  lemma NullChain(head: Bucket?, c: seq<Bucket>)
    requires Chained(head, c)
    ensures head == null <==> c == []
  {
  }

  /** The buckets in the chains before idx. */
  ghost predicate Before(hash: Key -> nat, n: nat, idx: nat, nodes: set<Bucket>, held: set<Bucket>) {
    held <= nodes && forall b :: b in nodes ==> (b in held <==> n > 0 && hash(b.k) % n < idx)
  }

  lemma BeforeNext(hash: Key -> nat, chains: seq<seq<Bucket>>, idx: nat, nodes: set<Bucket>, held: set<Bucket>)
    requires Sorted(hash, chains, nodes) && idx < |chains| && Before(hash, |chains|, idx, nodes, held)
    ensures Before(hash, |chains|, idx + 1, nodes, held + Elements(chains[idx]))
    ensures forall i, b :: idx < i < |chains| && b in chains[i] ==> b !in held + Elements(chains[idx])
    ensures forall b :: b in chains[idx] ==> b in nodes && b !in held
    ensures chains[idx] == [] ==> Elements(chains[idx]) == {}
  {
  }

  lemma BeforeAll(hash: Key -> nat, chains: seq<seq<Bucket>>, nodes: set<Bucket>, held: set<Bucket>)
    requires Sorted(hash, chains, nodes) && Before(hash, |chains|, |chains|, nodes, held)
    ensures held == nodes
  {
  }

  /** The links of the buckets at one moment. */
  ghost function Links(nodes: set<Bucket>): map<Bucket, Bucket?>
    reads nodes
  {
    map b | b in nodes :: b.next
  }

  /** The chains that start at `heads` when the links are these. */
  ghost predicate ChainsBy(links: map<Bucket, Bucket?>, heads: seq<Bucket?>, chains: seq<seq<Bucket>>) {
    && |heads| == |chains|
    && (forall i :: 0 <= i < |chains| ==> ChainBy(links, heads[i], chains[i]))
  }

  ghost predicate ChainBy(links: map<Bucket, Bucket?>, head: Bucket?, c: seq<Bucket>) {
    && head == Nth(c, 0) && NoRepeat(c)
    && (forall j :: 0 <= j < |c| ==> c[j] in links && links[c[j]] == Nth(c, j + 1))
  }

  lemma ChainNow(links: map<Bucket, Bucket?>, head: Bucket?, c: seq<Bucket>)
    requires ChainBy(links, head, c) && forall b :: b in c && b in links ==> b.next == links[b]
    ensures Chained(head, c)
  {
  }

  lemma FiledNow(hash: Key -> nat, table: array<Bucket?>, chains: seq<seq<Bucket>>, nodes: set<Bucket>, links: map<Bucket, Bucket?>)
    requires Sorted(hash, chains, nodes) && ChainsBy(links, table[..], chains)
    requires forall b :: b in nodes && b in links ==> b.next == links[b]
    ensures Filed(hash, table, chains, nodes)
  {
    hide ChainBy, Chained;
    InOwnNodes(hash, chains, nodes);
    hide Sorted;
    forall i | 0 <= i < |chains|
      ensures InNodes(chains[i], nodes) && Chained(table[i], chains[i])
    {
      assert ChainBy(links, table[..][i], chains[i]);
      ChainNow(links, table[i], chains[i]);
    }
  }

  lemma InOwnNodes(hash: Key -> nat, chains: seq<seq<Bucket>>, nodes: set<Bucket>)
    requires Sorted(hash, chains, nodes)
    ensures forall i :: 0 <= i < |chains| ==> InNodes(chains[i], nodes) && forall b :: b in chains[i] ==> b in nodes
  {
  }

  lemma StartRehash(hash: Key -> nat, oldTable: array<Bucket?>, newTable: array<Bucket?>, chains: seq<seq<Bucket>>,
                    chains': seq<seq<Bucket>>, nodes: set<Bucket>)
    requires Filed(hash, oldTable, chains, nodes) && |chains'| == newTable.Length
    requires forall i :: 0 <= i < |chains'| ==> newTable[i] == null && chains'[i] == []
    ensures oldTable.Length == |chains| && Sorted(hash, chains, nodes) && Before(hash, |chains|, 0, nodes, {})
    ensures Filed(hash, newTable, chains', {}) && ChainsBy(Links(nodes), oldTable[..], chains)
  {
    forall i | 0 <= i < |chains|
      ensures ChainBy(Links(nodes), oldTable[..][i], chains[i])
    {
      assert InNodes(chains[i], nodes) && Chained(oldTable[i], chains[i]);
    }
  }

  /** _Rehash: every bucket moves to the new table. Only a new table without chains fails, at
      the first bucket, before anything has moved. */
  method Rehash(hash: Key -> nat, oldTable: array<Bucket?>, oldSize: nat, newTable: array<Bucket?>, newSize: nat,
                ghost chains: seq<seq<Bucket>>, ghost nodes: set<Bucket>)
    returns (ok: bool, ghost chains': seq<seq<Bucket>>)
    requires Filed(hash, oldTable, chains, nodes) && oldSize == oldTable.Length && oldTable != newTable
    requires newSize == newTable.Length && forall i :: 0 <= i < newSize ==> newTable[i] == null
    modifies newTable, nodes
    ensures ok <==> newSize != 0 || nodes == {}
    ensures ok ==> Filed(hash, newTable, chains', nodes)
    ensures !ok ==> Filed(hash, oldTable, chains, nodes)
  {
    hide Filed, Chained, Sorted, Before, InNodes, Elements, NoRepeat, Links, ChainsBy, ChainBy;
    ghost var held: set<Bucket> := {};
    ghost var links := Links(nodes);
    LinksNow(nodes);
    chains' := seq(newSize, _ => []);
    StartRehash(hash, oldTable, newTable, chains, chains', nodes);
    FiledSize(hash, newTable, chains', held);
    ok := true;
    var index := 0;
    while index < oldSize
      invariant index <= oldSize && oldTable[..] == old(oldTable[..])
      invariant Before(hash, |chains|, index, nodes, held)
      invariant Filed(hash, newTable, chains', held) && |chains'| == newSize
      invariant forall b :: b in nodes && b !in held ==> b.next == links[b]
      invariant newSize == 0 ==> held == {}
    {
      BeforeNext(hash, chains, index, nodes, held);
      ghost var c: seq<Bucket> := chains[index];
      OldChain(oldTable[..], chains, index, links, held);
      ok, chains' := RehashChain(hash, oldTable[index], newTable, newSize, c, chains', held);
      if !ok {
        assert c[0] in c;
        FiledNow(hash, oldTable, chains, nodes, links);
        return;
      }
      held := held + Elements(c);
      index := index + 1;
    }
    BeforeAll(hash, chains, nodes, held);
  }

  lemma LinksNow(nodes: set<Bucket>)
    ensures Links(nodes).Keys == nodes && forall b :: b in nodes ==> b in Links(nodes) && Links(nodes)[b] == b.next
  {
  }

  lemma OldChain(heads: seq<Bucket?>, chains: seq<seq<Bucket>>, i: nat, links: map<Bucket, Bucket?>, held: set<Bucket>)
    requires ChainsBy(links, heads, chains) && i < |chains|
    requires forall b :: b in chains[i] && b in links ==> b.next == links[b]
    ensures Chained(heads[i], chains[i])
  {
    ChainNow(links, heads[i], chains[i]);
  }

  // ---------- what a table holds ----------

  ghost predicate UniqueKeys(nodes: set<Bucket>) {
    forall a, b :: a in nodes && b in nodes && a.k == b.k ==> a == b
  }

  ghost function MapOf(nodes: set<Bucket>): map<Key, nat>
    requires UniqueKeys(nodes)
  {
    map b | b in nodes :: b.k := b.v
  }

  lemma MapWith(nodes: set<Bucket>, b: Bucket)
    requires UniqueKeys(nodes) && b.k !in MapOf(nodes)
    ensures b !in nodes && UniqueKeys(nodes + {b}) && MapOf(nodes + {b}) == MapOf(nodes)[b.k := b.v]
  {
    assert forall x :: x in nodes ==> x.k in MapOf(nodes);
    hide MapOf;
    assert UniqueKeys(nodes + {b});
    MapEntries(nodes);
    MapEntries(nodes + {b});
    forall k | k in MapOf(nodes)[b.k := b.v]
      ensures k in MapOf(nodes + {b}) && MapOf(nodes + {b})[k] == MapOf(nodes)[b.k := b.v][k]
    {
    }
  }

  lemma MapEntries(nodes: set<Bucket>)
    requires UniqueKeys(nodes)
    ensures forall x :: x in nodes ==> x.k in MapOf(nodes) && MapOf(nodes)[x.k] == x.v
    ensures forall k :: k in MapOf(nodes) ==> exists x :: x in nodes && x.k == k
  {
  }

  /** What finding a bucket with key k, or none, says about the map. */
  lemma MapHas(nodes: set<Bucket>, k: Key, b: Bucket?)
    requires UniqueKeys(nodes)
    requires if b == null then forall x :: x in nodes ==> x.k != k else b in nodes && b.k == k
    ensures k in MapOf(nodes) <==> b != null
    ensures b != null ==> MapOf(nodes)[k] == b.v && UniqueKeys(nodes - {b}) && MapOf(nodes - {b}) == MapOf(nodes) - {k}
    ensures b == null ==> MapOf(nodes) == MapOf(nodes) - {k}
  {
  }

  // ---------- sizes ----------

  /** The size _Resize is asked for by an insertion that made the count this. */
  function SizeAfterInsert(size: nat, count: nat): nat {
    if count * 2 % TWO_32 > size then size * 2 % TWO_32 else size
  }

  /** The size _Resize is asked for by a removal that made the count this. */
  function SizeAfterRemove(size: nat, count: nat, min: nat): nat {
    if size > count * 4 % TWO_32 && size > min then (if size / 2 > min then size / 2 else min) else size
  }

  ghost function Pow2(k: nat): (r: nat)
    ensures r > 0
  {
    if k == 0 then 1 else 2 * Pow2(k - 1)
  }

  /** The table is its minimum size doubled k times, at least twice and, above the minimum, at
      most four times the count. */
  ghost predicate SizeLaw(size: nat, count: nat, min: nat, k: nat) {
    && min >= 2 && size == min * Pow2(k) && 2 * count <= size
    && (size <= min || size <= 4 * count)
  }

  ghost predicate Lawful(size: nat, count: nat, min: nat) {
    exists k: nat :: SizeLaw(size, count, min, k)
  }

  lemma LawfulInsert(size: nat, count: nat, min: nat)
    requires Lawful(size, count, min) && size < TWO_32 / 2
    ensures Lawful(SizeAfterInsert(size, count + 1), count + 1, min) && (count + 1) % TWO_32 == count + 1
    ensures SizeAfterInsert(size, count + 1) != 0
  {
    var k: nat :| SizeLaw(size, count, min, k);
    var k' := SizeLawInsert(size, count, min, k);
  }

  lemma LawfulRemove(size: nat, count: nat, min: nat)
    requires Lawful(size, count, min) && size <= TWO_32 / 2 && count > 0
    ensures Lawful(SizeAfterRemove(size, count - 1, min), count - 1, min) && (count - 1) % TWO_32 == count - 1
  {
    var k: nat :| SizeLaw(size, count, min, k);
    var k' := SizeLawRemove(size, count, min, k);
  }

  lemma DoubledSize(min: nat, k: nat)
    ensures min * Pow2(k + 1) == 2 * (min * Pow2(k))
  {
  }

  lemma SizeLawInsert(size: nat, count: nat, min: nat, k: nat) returns (k': nat)
    requires SizeLaw(size, count, min, k) && size < TWO_32 / 2
    ensures SizeLaw(SizeAfterInsert(size, count + 1), count + 1, min, k')
  {
    var c := count + 1;
    k' := if c * 2 > size then k + 1 else k;
    DoubledSize(min, k);
    Bigger(min, k);
    hide Pow2;
    NoWrap(c * 2);
    NoWrap(size * 2);
  }

  lemma NoWrap(x: nat)
    requires x < TWO_32
    ensures x % TWO_32 == x
  {
  }

  lemma SizeLawRemove(size: nat, count: nat, min: nat, k: nat) returns (k': nat)
    requires SizeLaw(size, count, min, k) && size <= TWO_32 / 2 && count > 0
    ensures SizeLaw(SizeAfterRemove(size, count - 1, min), count - 1, min, k')
  {
    var c := count - 1;
    NoWrap(c * 4);
    if size > c * 4 && size > min {
      k' := Halved(size, min, k);
      Bigger(min, k');
    } else {
      k' := k;
    }
  }

  lemma Halved(size: nat, min: nat, k: nat) returns (k': nat)
    requires size == min * Pow2(k) && size > min
    ensures size == 2 * (min * Pow2(k'))
  {
    assert min * Pow2(0) == min;
    assert k > 0;
    k' := k - 1;
    DoubledSize(min, k');
  }

  lemma Bigger(min: nat, k: nat)
    ensures min * Pow2(k) >= min
    ensures k > 0 ==> min * Pow2(k) >= 2 * min
  {
    if k > 0 {
      Bigger(min, k - 1);
      DoubledSize(min, k - 1);
    }
  }

  // ---------- the table ----------

  lemma SortedWithout(hash: Key -> nat, chains: seq<seq<Bucket>>, nodes: set<Bucket>, i: nat, j: nat)
    requires Sorted(hash, chains, nodes) && i < |chains| && j < |chains[i]| && NoRepeat(chains[i])
    ensures var c := chains[i];
            Sorted(hash, chains[i := c[..j] + c[j + 1..]], nodes - {c[j]})
  {
    hide Sorted, NoRepeat;
    var c := chains[i];
    ChainWithout(c, j);
    LeftSorted(hash, chains, nodes, i, c[..j] + c[j + 1..], c[j]);
  }

  /** A chain without one of its buckets. */
  lemma ChainWithout(c: seq<Bucket>, j: nat)
    requires j < |c| && NoRepeat(c)
    ensures forall x :: x in c[..j] + c[j + 1..] <==> x in c && x != c[j]
  {
    var r := c[..j] + c[j + 1..];
    forall m | 0 <= m < |r|
      ensures r[m] in c && r[m] != c[j]
    {
      assert r[m] == c[if m < j then m else m + 1];
    }
    forall x | x in c && x != c[j]
      ensures x in r
    {
      var m :| 0 <= m < |c| && c[m] == x;
      assert r[if m < j then m else m - 1] == x;
    }
  }

  /** Bucket b has left chain i, and nothing else has changed. */
  lemma LeftSorted(hash: Key -> nat, chains: seq<seq<Bucket>>, nodes: set<Bucket>, i: nat, r: seq<Bucket>, b: Bucket)
    requires Sorted(hash, chains, nodes) && i < |chains| && b in chains[i] && forall x :: x in r <==> x in chains[i] && x != b
    ensures Sorted(hash, chains[i := r], nodes - {b})
  {
    var chains' := chains[i := r];
    forall n, x | 0 <= n < |chains'| && x in chains'[n]
      ensures x in nodes - {b} && hash(x.k) % |chains'| == n
    {
      assert x in chains[n];
      assert hash(b.k) % |chains| == i;
    }
  }

  lemma ChainStart(hash: Key -> nat, table: array<Bucket?>, chains: seq<seq<Bucket>>, nodes: set<Bucket>, i: nat)
    requires Filed(hash, table, chains, nodes) && i < table.Length
    ensures |chains| == table.Length && Sorted(hash, chains, nodes) && NoRepeat(chains[i])
    ensures InNodes(chains[i], nodes) && Chained(table[i], chains[i]) && table[i] == Nth(chains[i], 0)
  {
  }

  lemma ChainNext(head: Bucket?, c: seq<Bucket>, j: nat)
    requires Chained(head, c) && j < |c|
    ensures c[j].next == Nth(c, j + 1)
  {
  }

  /** Only the buckets in the chain of its index can have a given key. */
  lemma KeyInChain(hash: Key -> nat, chains: seq<seq<Bucket>>, nodes: set<Bucket>, k: Key)
    requires Sorted(hash, chains, nodes) && |chains| > 0
    requires forall j :: 0 <= j < |chains[hash(k) % |chains|]| ==> chains[hash(k) % |chains|][j].k != k
    ensures forall b :: b in nodes ==> b.k != k
  {
  }

  lemma BucketsOf(c: seq<Bucket>, nodes: set<Bucket>, j: nat)
    requires InNodes(c, nodes) && j < |c|
    ensures c[j] in nodes && (j > 0 ==> c[j - 1] in nodes)
  {
  }

  lemma CountWith(nodes: set<Bucket>, b: Bucket)
    requires b !in nodes
    ensures (|nodes| % TWO_32 + 1) % TWO_32 == |nodes + {b}| % TWO_32
  {
  }

  lemma CountWithout(nodes: set<Bucket>, b: Bucket)
    requires b in nodes
    ensures (|nodes| % TWO_32 + TWO_32 - 1) % TWO_32 == |nodes - {b}| % TWO_32
  {
  }

  lemma AfterInsert(size: nat, count: nat)
    requires 0 < size < TWO_32
    ensures SizeAfterInsert(size, count) == if count * 2 % TWO_32 > size then size * 2 % TWO_32 else size
    ensures size * 2 % TWO_32 != size
  {
  }

  lemma AfterRemove(size: nat, count: nat, min: nat)
    ensures SizeAfterRemove(size, count, min) ==
            if size > count * 4 % TWO_32 && size > min then (if size / 2 > min then size / 2 else min) else size
  {
  }

  /** Filed, for the table and the links of one moment. */
  ghost predicate FiledBy(hash: Key -> nat, heads: seq<Bucket?>, links: map<Bucket, Bucket?>, chains: seq<seq<Bucket>>, nodes: set<Bucket>) {
    Sorted(hash, chains, nodes) && ChainsBy(links, heads, chains) && links.Keys == nodes
  }

  lemma ByLinks(hash: Key -> nat, table: array<Bucket?>, chains: seq<seq<Bucket>>, nodes: set<Bucket>, links: map<Bucket, Bucket?>, i: nat, j: nat)
    requires Filed(hash, table, chains, nodes) && links == Links(nodes) && i < table.Length == |chains| && j < |chains[i]|
    ensures FiledBy(hash, table[..], links, chains, nodes)
    ensures var c := chains[i]; c[j] in nodes && c[j].next == Nth(c, j + 1) && (j > 0 ==> c[j - 1] in nodes)
  {
    forall i | 0 <= i < |chains|
      ensures ChainBy(links, table[..][i], chains[i])
    {
      assert InNodes(chains[i], nodes) && Chained(table[i], chains[i]);
    }
  }

  ghost predicate Relinked(links: map<Bucket, Bucket?>, links': map<Bucket, Bucket?>, c: seq<Bucket>, j: nat)
    requires j < |c|
  {
    links'.Keys == links.Keys
    && forall b :: b in links ==> links'[b] == if j > 0 && b == c[j - 1] then Nth(c, j + 1) else links[b]
  }

  /** Redirecting the one link that led to bucket j of chain i takes it out of that chain. */
  lemma UnlinkedChains(links: map<Bucket, Bucket?>, links': map<Bucket, Bucket?>, heads: seq<Bucket?>, heads': seq<Bucket?>,
                       chains: seq<seq<Bucket>>, i: nat, j: nat)
    requires ChainsBy(links, heads, chains) && i < |chains| && j < |chains[i]| && |heads'| == |heads|
    requires forall n, b :: 0 <= n < |chains| && n != i && b in chains[n] ==> b !in chains[i]
    requires heads' == if j == 0 then heads[i := Nth(chains[i], 1)] else heads
    requires Relinked(links, links', chains[i], j)
    ensures var c := chains[i]; ChainsBy(links', heads', chains[i := c[..j] + c[j + 1..]])
  {
    var c := chains[i];
    forall n | 0 <= n < |chains|
      ensures ChainBy(links', heads'[n], chains[i := c[..j] + c[j + 1..]][n])
    {
      assert ChainBy(links, heads[n], chains[n]);
      if n == i {
        UnlinkedChain(links, links', heads[i], heads'[i], c, j);
      } else if j > 0 {
        assert c[j - 1] in c;
        assert forall m :: 0 <= m < |chains[n]| ==> chains[n][m] in chains[n];
      }
    }
  }

  lemma Unlinked(hash: Key -> nat, table: array<Bucket?>, chains: seq<seq<Bucket>>, nodes: set<Bucket>,
                 links: map<Bucket, Bucket?>, heads: seq<Bucket?>, i: nat, j: nat)
    requires FiledBy(hash, heads, links, chains, nodes) && i < |chains| == |heads| && j < |chains[i]|
    requires Relinked(links, Links(nodes), chains[i], j)
    requires table[..] == if j == 0 then heads[i := Nth(chains[i], 1)] else heads
    ensures var c := chains[i]; Filed(hash, table, chains[i := c[..j] + c[j + 1..]], nodes - {c[j]})
  {
    hide Filed, Links, Sorted, Relinked;
    var c := chains[i];
    assert ChainBy(links, heads[i], c);
    OtherChains(hash, chains, nodes, i);
    LinksNow(nodes);
    UnlinkedChains(links, Links(nodes), heads, table[..], chains, i, j);
    SortedWithout(hash, chains, nodes, i, j);
    FiledNow(hash, table, chains[i := c[..j] + c[j + 1..]], nodes - {c[j]}, Links(nodes));
  }

  lemma OtherChains(hash: Key -> nat, chains: seq<seq<Bucket>>, nodes: set<Bucket>, i: nat)
    requires Sorted(hash, chains, nodes) && i < |chains|
    ensures forall n, b :: 0 <= n < |chains| && n != i && b in chains[n] ==> b !in chains[i]
  {
    forall n, b | 0 <= n < |chains| && n != i && b in chains[n]
      ensures b !in chains[i]
    {
      assert hash(b.k) % |chains| == n;
    }
  }

  lemma UnlinkedChain(links: map<Bucket, Bucket?>, links': map<Bucket, Bucket?>, head: Bucket?, head': Bucket?, c: seq<Bucket>, j: nat)
    requires ChainBy(links, head, c) && j < |c| && (head' == if j == 0 then Nth(c, 1) else head)
    requires Relinked(links, links', c, j)
    ensures ChainBy(links', head', c[..j] + c[j + 1..])
  {
    var r := c[..j] + c[j + 1..];
    forall m | 0 <= m < |r|
      ensures r[m] in links' && links'[r[m]] == Nth(r, m + 1)
    {
      UnlinkedAt(links, links', head, c, j, m);
    }
    DropNoRepeat(c, j);
    hide Relinked;
  }

  lemma DropNoRepeat(c: seq<Bucket>, j: nat)
    requires NoRepeat(c) && j < |c|
    ensures NoRepeat(c[..j] + c[j + 1..])
  {
    var r := c[..j] + c[j + 1..];
    assert forall m :: 0 <= m < |r| ==> r[m] == c[if m < j then m else m + 1];
  }

  lemma UnlinkedAt(links: map<Bucket, Bucket?>, links': map<Bucket, Bucket?>, head: Bucket?, c: seq<Bucket>, j: nat, m: nat)
    requires ChainBy(links, head, c) && j < |c| && m < |c| - 1 && Relinked(links, links', c, j)
    ensures var r := c[..j] + c[j + 1..]; r[m] in links' && links'[r[m]] == Nth(r, m + 1)
  {
    var x := if m < j then m else m + 1;
    assert (c[..j] + c[j + 1..])[m] == c[x] && c[x] in links && links[c[x]] == Nth(c, x + 1);
    assert j > 0 && c[x] == c[j - 1] ==> x == j - 1;
  }

  class HashTable {
    const hash: Key -> nat
    const minimumSize: nat
    var table: array<Bucket?>
    var size: nat
    var count: nat
    ghost var chains: seq<seq<Bucket>>
    ghost var nodes: set<Bucket>

    /** The buckets form disjoint ending chains, each bucket in the chain of its index. */
    ghost predicate Valid()
      reads this, table, nodes
    {
      && Filed(hash, table, chains, nodes) && table.Length == size < TWO_32
      && count == |nodes| % TWO_32 && (size == 0 <==> minimumSize == 0)
    }

    /** HASH_Create_Extended. */
    constructor (initial: nat, hash: Key -> nat)
      requires initial < TWO_32
      ensures Valid() && nodes == {} && size == minimumSize == initial && this.hash == hash && fresh(table)
      ensures initial >= 2 ==> Lawful(size, 0, minimumSize)
    {
      this.hash, minimumSize, size, count := hash, initial, initial, 0;
      table := new Bucket?[initial](_ => null);
      chains, nodes := seq(initial, _ => []), {};
      new;
      assert SizeLaw(initial, 0, initial, 0) <== initial >= 2;
    }

    /** _Resize. */
    method Resize(newSize: nat, tableOk: bool) returns (ok: bool)
      requires Valid() && newSize < TWO_32 && (newSize == 0 ==> nodes != {}) && size != 0
      modifies this, nodes
      ensures Valid() && nodes == old(nodes) && count == old(count)
      ensures ok <==> newSize == old(size) || (tableOk && newSize != 0)
      ensures size == if ok then newSize else old(size)
      ensures table == old(table) || fresh(table)
    {
      hide Filed;
      if newSize != size {
        if !tableOk {
          return false;
        }
        var newTable := new Bucket?[newSize](_ => null);
        ghost var chains';
        ok, chains' := Rehash(hash, table, size, newTable, newSize, chains, nodes);
        if !ok {
          return false;
        }
        table, size, chains := newTable, newSize, chains';
      }
      return true;
    }

    /** The end of HASH_Insert_Extended. */
    method GrowIfFull(tableOk: bool)
      requires Valid() && size != 0 && nodes != {}
      modifies this, nodes
      ensures Valid() && nodes == old(nodes) && count == old(count) && (table == old(table) || fresh(table))
      ensures size == if tableOk && SizeAfterInsert(old(size), count) != 0 then SizeAfterInsert(old(size), count) else old(size)
    {
      hide Filed, SizeAfterInsert;
      AfterInsert(size, count);
      if count * 2 % TWO_32 > size {
        var resized := Resize(size * 2 % TWO_32, tableOk);
      }
    }

    /** HASH_Insert_Extended. */
    method Insert(k: Key, v: nat, bucketOk: bool, tableOk: bool) returns (ok: bool)
      requires Valid()
      modifies this, table, nodes
      ensures Valid() && (table == old(table) || fresh(table))
      ensures ok <==> bucketOk && old(size) != 0
      ensures !ok ==> nodes == old(nodes) && size == old(size) && count == old(count)
      ensures ok ==> exists b :: b in nodes && fresh(b) && b.k == k && b.v == v && nodes == old(nodes) + {b}
      ensures ok ==> count == (old(count) + 1) % TWO_32
      ensures ok && tableOk && SizeAfterInsert(old(size), count) != 0 ==> size == SizeAfterInsert(old(size), count)
      ensures ok && (!tableOk || SizeAfterInsert(old(size), count) == 0) ==> size == old(size)
      ensures ok && tableOk && old(size) < TWO_32 / 2 && Lawful(old(size), |old(nodes)|, minimumSize) ==>
        Lawful(size, |nodes|, minimumSize)
      ensures ok && UniqueKeys(old(nodes)) && k !in MapOf(old(nodes)) ==>
        UniqueKeys(nodes) && MapOf(nodes) == MapOf(old(nodes))[k := v]
    {
      hide Filed, Sorted, Chained, NoRepeat, SizeAfterInsert, UniqueKeys, MapOf, Lawful;
      if !bucketOk {
        return false;
      }
      ghost var all, n, bucket := nodes, size, null;
      ok, bucket := AddBucket(k, v);
      if !ok {
        return;
      }
      GrowIfFull(tableOk);
      assert bucket in nodes;
      if UniqueKeys(all) && k !in MapOf(all) {
        MapWith(all, bucket);
      }
      if n < TWO_32 / 2 && Lawful(n, |all|, minimumSize) {
        LawfulInsert(n, |all|, minimumSize);
      }
    }

    /** A new bucket at the head of its chain. */
    method AddBucket(k: Key, v: nat) returns (ok: bool, ghost bucket: Bucket?)
      requires Valid()
      modifies `chains, `nodes, `count, table, nodes
      ensures Valid() && (ok <==> size != 0)
      ensures !ok ==> nodes == old(nodes) && count == old(count)
      ensures ok ==> bucket != null && fresh(bucket) && bucket.k == k && bucket.v == v && nodes == old(nodes) + {bucket}
      ensures ok ==> count == (old(count) + 1) % TWO_32 && |nodes| == |old(nodes)| + 1
    {
      hide Filed, Sorted, Chained, NoRepeat;
      var b := new Bucket(k, v);
      FiledInNodes(hash, table, chains, nodes);
      ghost var all := nodes;
      CountWith(all, b);
      bucket := b;
      ok, chains := ChainInsert(hash, b, table, size, chains, all);
      if ok {
        nodes, count := all + {b}, (count + 1) % TWO_32;
      }
    }

    /** The link that led to the bucket now leads past it. */
    method Unlink(i: nat, prev: Bucket?, bucket: Bucket, ghost j: nat)
      requires Filed(hash, table, chains, nodes) && i < table.Length == |chains| && j < |chains[i]|
      requires bucket == chains[i][j] && prev == (if j == 0 then null else chains[i][j - 1])
      modifies table, nodes, `chains, `nodes
      ensures Filed(hash, table, chains, nodes) && nodes == old(nodes) - {bucket} && bucket in old(nodes)
    {
      hide Filed, FiledBy, Links;
      ghost var c: seq<Bucket> := chains[i];
      ghost var all := nodes;
      ghost var links := Links(all);
      ghost var heads := table[..];
      ByLinks(hash, table, chains, all, links, i, j);
      LinksNow(all);
      if prev == null {
        table[i] := bucket.next;
      } else {
        prev.next := bucket.next;
      }
      LinksNow(all);
      Unlinked(hash, table, chains, all, links, heads, i, j);
      chains, nodes := chains[i := c[..j] + c[j + 1..]], all - {bucket};
    }

    /** The walk of HASH_Remove_Extended and HASH_Retrieve_Extended along the chain of a key:
        the first bucket with the key, and the bucket before it. */
    method Find(k: Key) returns (prev: Bucket?, bucket: Bucket?, ghost j: nat)
      requires Valid() && size != 0
      ensures |chains| == table.Length == size
      ensures bucket == null ==> forall b :: b in nodes ==> b.k != k
      ensures bucket != null ==>
        var c := chains[hash(k) % size];
        && bucket in nodes && bucket.k == k && j < |c| && bucket == c[j]
        && prev == (if j == 0 then null else c[j - 1])
    {
      hide Filed, Chained, Sorted, InNodes;
      FiledInNodes(hash, table, chains, nodes);
      var i := hash(k) % size;
      ghost var c: seq<Bucket> := chains[i];
      ChainStart(hash, table, chains, nodes, i);
      prev, bucket, j := null, table[i], 0;
      while bucket != null && bucket.k != k
        invariant j <= |c| && bucket == Nth(c, j) && prev == (if j == 0 then null else c[j - 1])
        invariant forall m :: 0 <= m < j ==> c[m].k != k
        decreases |c| - j
      {
        ChainNext(table[i], c, j);
        prev, bucket, j := bucket, bucket.next, j + 1;
      }
      if bucket == null {
        KeyInChain(hash, chains, nodes, k);
      } else {
        BucketsOf(c, nodes, j);
      }
    }

    /** HASH_Remove_Extended: `gone` is the bucket removed, if there is one with that key. */
    method Remove(k: Key, tableOk: bool) returns (v: nat, ghost gone: Bucket?)
      requires Valid() && size != 0
      modifies this, table, nodes
      ensures Valid() && (table == old(table) || fresh(table))
      ensures gone == null ==> v == 0 && nodes == old(nodes) && (forall b :: b in nodes ==> b.k != k)
      ensures gone == null ==> size == old(size) && count == old(count)
      ensures gone != null ==> gone in old(nodes) && gone.k == k && v == gone.v && nodes == old(nodes) - {gone}
      ensures gone != null ==> count == (old(count) + TWO_32 - 1) % TWO_32
      ensures gone != null ==> size == if tableOk then SizeAfterRemove(old(size), count, minimumSize) else old(size)
      ensures tableOk && old(size) <= TWO_32 / 2 && Lawful(old(size), |old(nodes)|, minimumSize) ==>
        Lawful(size, |nodes|, minimumSize)
      ensures UniqueKeys(old(nodes)) ==>
        && UniqueKeys(nodes) && MapOf(nodes) == MapOf(old(nodes)) - {k}
        && v == (if k in MapOf(old(nodes)) then MapOf(old(nodes))[k] else 0)
    {
      hide Filed, SizeAfterRemove, UniqueKeys, MapOf, Lawful;
      ghost var all := nodes;
      var prev, bucket;
      ghost var j;
      prev, bucket, j := Find(k);
      if UniqueKeys(all) {
        MapHas(all, k, bucket);
      }
      if bucket == null {
        return 0, null;
      }
      v, gone := bucket.v, bucket;
      CountWithout(nodes, bucket);
      Unlink(hash(k) % size, prev, bucket, j);
      count := (count + TWO_32 - 1) % TWO_32;
      if size <= TWO_32 / 2 && Lawful(size, |all|, minimumSize) {
        LawfulRemove(size, |all|, minimumSize);
      }
      ShrinkIfSparse(tableOk);
    }

    /** The end of HASH_Remove_Extended. */
    method ShrinkIfSparse(tableOk: bool)
      requires Valid() && size != 0
      modifies this, nodes
      ensures Valid() && nodes == old(nodes) && count == old(count) && (table == old(table) || fresh(table))
      ensures size == if tableOk then SizeAfterRemove(old(size), count, minimumSize) else old(size)
    {
      hide Filed, SizeAfterRemove;
      AfterRemove(size, count, minimumSize);
      if size > count * 4 % TWO_32 && size > minimumSize {
        var resized := Resize(if size / 2 > minimumSize then size / 2 else minimumSize, tableOk);
      }
    }

    /** HASH_Retrieve_Extended: the value of a bucket with that key, 0 if there is none. */
    method Retrieve(k: Key) returns (v: nat, ghost found: Bucket?)
      requires Valid() && size != 0
      ensures found == null ==> v == 0 && forall b :: b in nodes ==> b.k != k
      ensures found != null ==> found in nodes && found.k == k && v == found.v
      ensures UniqueKeys(nodes) ==> v == if k in MapOf(nodes) then MapOf(nodes)[k] else 0
    {
      hide Filed, UniqueKeys, MapOf;
      var prev, bucket;
      ghost var j;
      prev, bucket, j := Find(k);
      v, found := if bucket == null then 0 else bucket.v, bucket;
      if UniqueKeys(nodes) {
        MapHas(nodes, k, bucket);
      }
    }
  }

  lemma FiledInNodes(hash: Key -> nat, table: array<Bucket?>, chains: seq<seq<Bucket>>, nodes: set<Bucket>)
    requires Filed(hash, table, chains, nodes)
    ensures table.Length == |chains|
  {
  }

  /** HASH_Create_Extended: `headerOk` and `tableOk` say whether its two allocations succeed. */
  method CreateExtended(initial: nat, hash: Key -> nat, headerOk: bool, tableOk: bool) returns (t: HashTable?)
    requires initial < TWO_32
    ensures t != null <==> headerOk && tableOk
    ensures t != null ==> fresh(t) && t.Valid() && t.nodes == {} && t.size == t.minimumSize == initial && t.hash == hash && fresh(t.table)
    ensures t != null && initial >= 2 ==> Lawful(t.size, 0, t.minimumSize)
  {
    t := null;
    if headerOk && tableOk {
      t := new HashTable(initial, hash);
    }
  }
}
