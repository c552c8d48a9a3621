/** The index of a handle base as src/services4/srvkm/common/handle.c keeps it: a chained hash
    table over three-word keys. It does to its table what HandleBase does to the map. */
module HandleIndex {
  import opened HandleState
  import Hash

  const INITIAL_SIZE: nat := 32

  /** HAND_KEY: data, type and parent. */
  function Words(k: Key): Hash.Key {
    [k.data, k.typ, k.parent]
  }

  /** The table holds exactly the entries of the index. */
  ghost predicate Same(index: map<Key, nat>, entries: map<Hash.Key, nat>) {
    && (forall k :: k in index ==> Words(k) in entries && entries[Words(k)] == index[k])
    && (forall w :: w in entries ==> |w| == 3 && Key(w[0], w[1], w[2]) in index)
  }

  lemma WordsBack(w: Hash.Key)
    requires |w| == 3
    ensures Words(Key(w[0], w[1], w[2])) == w
  {
  }

  lemma SameWith(index: map<Key, nat>, entries: map<Hash.Key, nat>, k: Key, h: nat)
    requires Same(index, entries)
    ensures Same(index[k := h], entries[Words(k) := h])
  {
    forall j | j in index && j != k
      ensures Words(j) != Words(k)
    {
      assert Words(j)[0] == j.data && Words(j)[1] == j.typ && Words(j)[2] == j.parent;
    }
  }

  lemma SameWithout(index: map<Key, nat>, entries: map<Hash.Key, nat>, k: Key)
    requires Same(index, entries)
    ensures Same(index - {k}, entries - {Words(k)})
  {
    forall j | j in index && j != k
      ensures Words(j) != Words(k)
    {
      assert Words(j)[0] == j.data && Words(j)[1] == j.typ && Words(j)[2] == j.parent;
    }
    forall w | w in entries && w != Words(k)
      ensures |w| == 3 && Key(w[0], w[1], w[2]) != k
    {
      WordsBack(w);
    }
  }

  lemma SameHas(index: map<Key, nat>, entries: map<Hash.Key, nat>, k: Key)
    requires Same(index, entries)
    ensures k in index <==> Words(k) in entries
    ensures k in index ==> entries[Words(k)] == index[k]
  {
    if Words(k) in entries {
      assert Key(Words(k)[0], Words(k)[1], Words(k)[2]) == k;
    }
  }

  lemma NoEmptyTable(t: Hash.HashTable)
    requires t.Valid()
    ensures t.size == 0 <==> t.minimumSize == 0
  {
  }

  class Index {
    const table: Hash.HashTable
    ghost var index: map<Key, nat>

    ghost predicate Valid()
      reads this, table, table.table, table.nodes
    {
      && table.Valid() && table.size != 0 && Hash.UniqueKeys(table.nodes)
      && Same(index, Hash.MapOf(table.nodes))
    }

    /** The part of PVRSRVAllocHandleBase that makes the table. */
    constructor (hash: Hash.Key -> nat)
      ensures Valid() && index == map[] && fresh(table) && fresh(table.table) && table.nodes == {}
    {
      table := new Hash.HashTable(INITIAL_SIZE, hash);
      index := map[];
    }

    /** FindHandle: 0 for a key that is not there. */
    method Find(k: Key) returns (h: nat)
      requires Valid()
      ensures h == if k in index then index[k] else 0
    {
      hide Hash.UniqueKeys, Hash.MapOf, Same;
      SameHas(index, Hash.MapOf(table.nodes), k);
      ghost var found;
      h, found := table.Retrieve(Words(k));
    }

    /** The entry that AllocHandle makes for a key it has just not found. */
    method Enter(k: Key, h: nat, bucketOk: bool, tableOk: bool) returns (ok: bool)
      requires Valid() && k !in index
      modifies this, table, table.table, table.nodes
      ensures Valid() && ok == bucketOk && index == if ok then old(index)[k := h] else old(index)
      ensures table.table == old(table.table) || fresh(table.table)
      ensures fresh(table.nodes - old(table.nodes))
    {
      hide Hash.HashTable.Valid, Hash.UniqueKeys, Hash.MapOf, Same, Hash.SizeAfterInsert, Hash.Lawful, Words;
      SameHas(index, Hash.MapOf(table.nodes), k);
      SameWith(index, Hash.MapOf(table.nodes), k, h);
      ok := table.Insert(Words(k), h, bucketOk, tableOk);
      if ok {
        index := index[k := h];
      }
    }

    /** The removal in FreeHandle, which checks that the handle is the one that went. */
    method Leave(k: Key, tableOk: bool) returns (h: nat)
      requires Valid() && k in index
      modifies this, table, table.table, table.nodes
      ensures Valid() && h == old(index)[k] && index == old(index) - {k}
      ensures table.table == old(table.table) || fresh(table.table)
      ensures fresh(table.nodes - old(table.nodes))
    {
      hide Hash.HashTable.Valid, Hash.UniqueKeys, Hash.MapOf, Same, Hash.SizeAfterRemove, Hash.Lawful, Words;
      SameHas(index, Hash.MapOf(table.nodes), k);
      SameWithout(index, Hash.MapOf(table.nodes), k);
      NoEmptyTable(table);
      ghost var gone;
      h, gone := table.Remove(Words(k), tableOk);
      NoEmptyTable(table);
      index := index - {k};
    }
  }

  // ---------- runs ----------

  /** What a handle base does to its index, with the results of the allocations. */
  datatype Op = Seek(k: Key) | Add(k: Key, h: nat, bucketOk: bool, tableOk: bool) | Drop(k: Key, tableOk: bool)

  /** The map after an operation, and the answer to it. */
  ghost function After(index: map<Key, nat>, op: Op): map<Key, nat> {
    match op
    case Seek(_) => index
    case Add(k, h, bucketOk, _) => if bucketOk then index[k := h] else index
    case Drop(k, _) => index - {k}
  }

  ghost function Answer(index: map<Key, nat>, op: Op): nat {
    match op
    case Add(_, _, bucketOk, _) => if bucketOk then 1 else 0
    case _ => if op.k in index then index[op.k] else 0
  }

  /** AllocHandle adds a key it has just not found, FreeHandle drops one that is there. */
  ghost predicate Fits(index: map<Key, nat>, op: Op) {
    (op.Add? ==> op.k !in index) && (op.Drop? ==> op.k in index)
  }

  ghost function IndexAfter(ops: seq<Op>): map<Key, nat> {
    if ops == [] then map[] else After(IndexAfter(ops[..|ops| - 1]), ops[|ops| - 1])
  }

  ghost predicate AllFit(ops: seq<Op>) {
    forall n :: 0 <= n < |ops| ==> Fits(IndexAfter(ops[..n]), ops[n])
  }

  /** The answers of the map to the first operations of a run. */
  ghost predicate Answered(ops: seq<Op>, answers: seq<nat>) {
    |answers| <= |ops| && forall n :: 0 <= n < |answers| ==> answers[n] == Answer(IndexAfter(ops[..n]), ops[n])
  }

  lemma OneMore(ops: seq<Op>, n: nat)
    requires n < |ops|
    ensures IndexAfter(ops[..n + 1]) == After(IndexAfter(ops[..n]), ops[n])
    ensures AllFit(ops) ==> Fits(IndexAfter(ops[..n]), ops[n])
  {
    assert ops[..n + 1][..n] == ops[..n];
  }

  lemma OneAnswer(ops: seq<Op>, answers: seq<nat>, a: nat)
    requires Answered(ops, answers) && |answers| < |ops| && a == Answer(IndexAfter(ops[..|answers|]), ops[|answers|])
    ensures Answered(ops, answers + [a])
  {
  }

  /** Over every run of such operations the table gives the answers of the map, whichever
      allocations fail, and holds what the map holds. */
  method Replay(ops: seq<Op>, hash: Hash.Key -> nat) returns (t: Index, answers: seq<nat>)
    requires AllFit(ops)
    ensures t.Valid() && t.index == IndexAfter(ops) && |answers| == |ops| && Answered(ops, answers)
  {
    hide Hash.HashTable.Valid, Hash.UniqueKeys, Hash.MapOf, Same, Answered, AllFit, Fits, After, Answer, IndexAfter;
    NoOps(ops);
    t := new Index(hash);
    answers := [];
    for n := 0 to |ops|
      invariant t.Valid() && t.index == IndexAfter(ops[..n]) && fresh(t) && fresh(t.table) && fresh(t.table.table) && fresh(t.table.nodes)
      invariant |answers| == n && Answered(ops, answers)
    {
      OneMore(ops, n);
      var a := Perform(t, ops[n]);
      OneAnswer(ops, answers, a);
      answers := answers + [a];
    }
    assert ops[..|ops|] == ops;
  }

  lemma NoOps(ops: seq<Op>)
    ensures IndexAfter(ops[..0]) == map[] && Answered(ops, [])
  {
  }

  method Perform(t: Index, op: Op) returns (a: nat)
    requires t.Valid() && Fits(t.index, op)
    modifies t, t.table, t.table.table, t.table.nodes
    ensures t.Valid() && t.index == After(old(t.index), op) && a == Answer(old(t.index), op)
    ensures t.table.table == old(t.table.table) || fresh(t.table.table)
    ensures fresh(t.table.nodes - old(t.table.nodes))
  {
    hide Hash.HashTable.Valid, Hash.UniqueKeys, Hash.MapOf, Same;
    match op
    case Seek(k) =>
      a := t.Find(k);
    case Add(k, h, bucketOk, tableOk) =>
      var ok := t.Enter(k, h, bucketOk, tableOk);
      a := if ok then 1 else 0;
    case Drop(k, tableOk) =>
      a := t.Leave(k, tableOk);
  }
}
