/** The counters of one piece of device memory over a run
    (src/services4/srvkm/common/devicemem.c and src/services4/srvkm/common/buffer_manager.c). */
module LifeSpec {
  /** What can happen to one source: it is mapped, one mapping goes, or its allocator frees it. */
  datatype Step = Map | Unmap | Free

  /** The counters of one source, its buffer and its sync object, and how often each was freed. */
  datatype Life = Life(held: bool, maps: nat, refs: int, bufRefs: int, exports: int, hasSync: bool, syncRefs: int,
                       memFreed: nat, bufFreed: nat, syncFreed: nat)

  function Start(hasSync: bool): Life {
    Life(true, 0, 1, 1, 0, hasSync, if hasSync then 1 else 0, 0, 0, 0)
  }

  predicate Enabled(l: Life, s: Step) {
    match s
    case Map => l.held || l.maps > 0
    case Unmap => l.maps > 0
    case Free => l.held
  }

  /** One reference to the sync object goes; the last one frees it. */
  function DropSync(l: Life): Life {
    if !l.hasSync then l
    else l.(syncRefs := l.syncRefs - 1, syncFreed := l.syncFreed + if l.syncRefs == 1 then 1 else 0)
  }

  /** One reference to the mem-info goes, and with it one to the buffer; the last one to the
      mem-info takes its own hold on the sync object with it. The buffer is looked at for
      freeing by counts of its own. */
  function DropInfo(l: Life, fromAllocator: bool): Life {
    var refs := l.refs - 1;
    var bufRefs := if fromAllocator then l.bufRefs - 1 else l.bufRefs;
    var exports := if fromAllocator then l.exports else l.exports - 1;
    var synced := if refs == 0 then DropSync(l) else l;
    Life(l.held, l.maps, refs, bufRefs, exports, l.hasSync, synced.syncRefs,
         if refs == 0 then l.memFreed + 1 else l.memFreed,
         if bufRefs == 0 && exports == 0 then l.bufFreed + 1 else l.bufFreed,
         synced.syncFreed)
  }

  function Next(l: Life, s: Step): Life
    requires Enabled(l, s)
  {
    match s
    case Map => l.(maps := l.maps + 1, refs := l.refs + 1, exports := l.exports + 1,
                   syncRefs := l.syncRefs + if l.hasSync then 1 else 0)
    case Unmap => DropInfo(DropSync(l.(maps := l.maps - 1)), false)
    case Free => DropInfo(l.(held := false), true)
  }

  ghost predicate Runs(l: Life, run: seq<Step>)
    decreases |run|
  {
    run == [] || (Enabled(l, run[0]) && Runs(Next(l, run[0]), run[1..]))
  }

  ghost function After(l: Life, run: seq<Step>): Life
    requires Runs(l, run)
    decreases |run|
  {
    if run == [] then l else After(Next(l, run[0]), run[1..])
  }

  /** The counts are the holders: the allocator and the mappings. */
  ghost predicate Balanced(l: Life) {
    var h := if l.held then 1 else 0;
    var gone := if !l.held && l.maps == 0 then 1 else 0;
    && l.bufRefs == h && l.exports == l.maps && l.refs == l.bufRefs + l.exports
    && l.syncRefs == (if !l.hasSync || gone == 1 then 0 else 1 + l.maps)
    && l.memFreed == l.bufFreed == gone
    && l.syncFreed == (if l.hasSync then gone else 0)
  }

  /** A balanced life, written out from its holders. */
  function Even(held: bool, maps: nat, hasSync: bool): (l: Life)
    ensures Balanced(l)
  {
    var h := if held then 1 else 0;
    var gone := if !held && maps == 0 then 1 else 0;
    Life(held, maps, h + maps, h, maps, hasSync, if !hasSync || gone == 1 then 0 else 1 + maps, gone, gone, if hasSync then gone else 0)
  }

  lemma BalancedIsEven(l: Life)
    requires Balanced(l)
    ensures l == Even(l.held, l.maps, l.hasSync)
  {
  }

  lemma StartEven(hasSync: bool)
    ensures Start(hasSync) == Even(true, 0, hasSync)
  {
  }

  lemma MapEven(held: bool, maps: nat, hasSync: bool)
    requires held || maps > 0
    ensures Next(Even(held, maps, hasSync), Map) == Even(held, maps + 1, hasSync)
  {
  }

  lemma UnmapEven(held: bool, maps: nat, hasSync: bool)
    requires maps > 0
    ensures Next(Even(held, maps, hasSync), Unmap) == Even(held, maps - 1, hasSync)
  {
  }

  lemma FreeEven(maps: nat, hasSync: bool)
    ensures Next(Even(true, maps, hasSync), Free) == Even(false, maps, hasSync)
  {
    hide Balanced;
    var l := Even(true, maps, hasSync).(held := false);
    var n := DropInfo(l, true);
    if maps == 0 {
      var d := DropSync(l);
      assert d.syncRefs == 0 && d.syncFreed == if hasSync then 1 else 0;
      assert n == Even(false, 0, hasSync);
    } else {
      assert n.syncRefs == l.syncRefs && n.syncFreed == l.syncFreed && n.bufFreed == 0;
    }
  }

  lemma StepKeepsBalance(l: Life, s: Step)
    requires Balanced(l) && Enabled(l, s)
    ensures Balanced(Next(l, s)) && Next(l, s).hasSync == l.hasSync
  {
    hide DropInfo, DropSync, Balanced;
    BalancedIsEven(l);
    match s
    case Map => MapEven(l.held, l.maps, l.hasSync);
    case Unmap => UnmapEven(l.held, l.maps, l.hasSync);
    case Free => FreeEven(l.maps, l.hasSync);
  }

  lemma {:induction false} RunKeepsBalance(l: Life, run: seq<Step>)
    requires Balanced(l) && Runs(l, run)
    ensures Balanced(After(l, run)) && After(l, run).hasSync == l.hasSync
    decreases |run|
  {
    hide Balanced, Next, Enabled;
    if run != [] {
      StepKeepsBalance(l, run[0]);
      RunKeepsBalance(Next(l, run[0]), run[1..]);
    }
  }

  function Count(run: seq<Step>, s: Step): (n: nat) {
    if run == [] then 0 else (if run[0] == s then 1 else 0) + Count(run[1..], s)
  }

  lemma {:induction false} HoldersOfRun(l: Life, run: seq<Step>)
    requires Runs(l, run)
    ensures After(l, run).maps == l.maps + Count(run, Map) - Count(run, Unmap)
    ensures Count(run, Free) == (if l.held then 1 else 0) - (if After(l, run).held then 1 else 0)
    decreases |run|
  {
    if run != [] {
      HoldersOfRun(Next(l, run[0]), run[1..]);
    }
  }

  lemma StartBalanced(hasSync: bool)
    ensures Balanced(Start(hasSync))
  {
  }

  lemma BalancedMeans(l: Life)
    requires Balanced(l)
    ensures var gone := !l.held && l.maps == 0;
            && l.memFreed == l.bufFreed == (if gone then 1 else 0)
            && l.syncFreed == (if gone && l.hasSync then 1 else 0)
            && (gone <==> forall s :: !Enabled(l, s))
            && l.refs == (if l.held then 1 else 0) + l.maps
  {
    assert !Enabled(l, Free) <==> !l.held;
    assert !Enabled(l, Unmap) <==> l.maps == 0;
  }

  /** In whatever order the allocator frees and the mappings go, the mem-info, its buffer and its
      sync object are each freed once, at the step after which no holder is left and never
      before; nothing can be done with them after it. */
  lemma FreedOnceInAnyOrder(hasSync: bool, run: seq<Step>)
    requires Runs(Start(hasSync), run)
    ensures var l := After(Start(hasSync), run);
            var gone := Count(run, Free) == 1 && Count(run, Map) == Count(run, Unmap);
            && l.memFreed == l.bufFreed == (if gone then 1 else 0)
            && l.syncFreed == (if gone && hasSync then 1 else 0)
            && (gone <==> forall s :: !Enabled(l, s))
            && Count(run, Free) <= 1 && Count(run, Unmap) <= Count(run, Map)
            && l.refs == (1 - Count(run, Free)) + (Count(run, Map) - Count(run, Unmap))
  {
    hide Next, Runs, After, Count, Balanced, Enabled;
    StartBalanced(hasSync);
    RunKeepsBalance(Start(hasSync), run);
    HoldersOfRun(Start(hasSync), run);
    BalancedMeans(After(Start(hasSync), run));
  }
}
