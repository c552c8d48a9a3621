/** What a handle base has besides its slots: the limits, the open batch, and the outcomes of its operations. */
module HandleConfig {
  import opened Machine
  import opened Forests
  import opened HandleState
  import opened HandleInvariant
  import opened HandleGrow
  import opened HandleAlloc
  import opened HandleContents

  datatype Error = Ok | IndexOutOfRange | NotAllocated | TypeMismatch | NotFound | NotShareable | OutOfMemory
                 | UnableToAdd | InvalidParams | BatchInUse | InvalidSubHandle | NotSupported | NoHashTable

  /** HANDLE_TO_INDEX, in 32-bit arithmetic: the null handle becomes the largest index. */
  function HandleToIndex(h: nat): nat
    requires h < TWO_32
  {
    if h == 0 then TWO_32 - 1 else h - 1
  }

  /** Which of the allocations that ReallocHandleArray makes succeed. */
  datatype Heap = Heap(index: bool, block: nat -> bool)

  ghost predicate Sized(v: View) {
    |v.f.kids| == |v.f.up| == |v.f.born| == |v.slots|
  }

  ghost predicate Steady(v: View) {
    Inv(v, {}, {}) && Sized(v) && v.f.clock > 0 && Batches(v.f, v.batchQ)
  }

  /** The settings next to the view: the size limit and the state of the open batch. */
  datatype Settings = Settings(max: nat, batchSize: nat, front: nat, failures: nat, purging: bool)

  /** What the invariant says beyond the view: the open batch and the size limits. */
  ghost predicate OuterOf(v: View, c: Settings, held: int) {
    && v.f.clock > 0 && |v.f.up| == |v.f.born| && Batches(v.f, v.batchQ)
    && c.front == Front(v.batchQ)
    && (c.batchSize == 0 ==> v.batchQ == [] && c.failures == 0)
    && (c.batchSize != 0 ==> v.slots != [])
    && |v.slots| <= c.max <= MAX_INDEX_PLUS_ONE && c.max % BLOCK_SIZE == 0
    && (v.purging ==> c.batchSize == 0 && v.firstFree == 0)
    && held == |v.blockFree|
  }

  /** There are n free handles, or memory and room below the limit for them. */
  ghost predicate Roomy(v: View, n: nat, max: nat, heap: Heap) {
    n <= v.freeCount || (heap.index && (forall b :: heap.block(b)) && n - v.freeCount <= max - |v.slots|)
  }

  lemma EmptyBase()
    ensures Inv(EMPTY, {}, {}) && Sized(EMPTY) && Handles(EMPTY) == map[]
    ensures OuterOf(EMPTY, Settings(MAX_INDEX_PLUS_ONE, 0, 0, 0, false), 0)
  {
    hide Inv;
    EmptyHolds();
  }

  /** A base whose fields are all empty. */
  lemma EmptyFields(v: View)
    requires v.slots == [] && v.blockFree == [] && v.index == map[] && v.freeCount == v.firstFree == v.lastFreePlusOne == 0 && !v.purging
    requires v.f == Forest([], [], [], 1) && v.freeQ == [] && v.batchQ == []
    ensures Inv(v, {}, {}) && Sized(v) && Handles(v) == map[]
    ensures OuterOf(v, Settings(MAX_INDEX_PLUS_ONE, 0, 0, 0, false), 0)
  {
    hide Inv, OuterOf, Handles, Sized;
    EmptyBase();
    assert v == EMPTY;
  }

  lemma OuterSize(v: View, c: Settings, held: int)
    requires OuterOf(v, c, held)
    ensures |v.slots| < TWO_32
  {
  }

  lemma SizedPrune(f: Forest, u: set<nat>)
    requires |f.kids| == |f.up|
    ensures |Prune(f, u).born| == |f.born| && |Prune(f, u).kids| == |Prune(f, u).up| == |f.kids|
    ensures Prune(f, u).clock == f.clock
  {
  }
}
