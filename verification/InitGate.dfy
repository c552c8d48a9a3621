/** The init-server gate of src/services4/srvkm/bridged/bridged_pvr_bridge.c and the handle
    batches that its handlers open and close. */
module InitGate {
  import opened Machine
  import opened HandleState
  import opened HandleConfig
  import opened HandleBatch
  import opened HandleTable

  // ---------- the gate as a state machine ----------

  datatype Call = ConnectServices | DisconnectServices | InitConnect | InitDisconnect | Ordinary

  /** The init-server flags and the processes that are marked as the init process. */
  datatype State = State(running: bool, ran: bool, successful: bool, inits: set<nat>)

  const START: State := State(false, false, false, {})

  /** The test in BridgedDispatchKM before a handler is called. */
  function Admitted(s: State, p: nat, call: Call): bool {
    if p in s.inits then true
    else if s.ran then s.successful
    else if s.running then false
    else call != Ordinary
  }

  /** PVRSRVInitSrvConnectBW. */
  function Connected(s: State, p: nat, privileged: bool): State {
    if !privileged || s.running || s.ran then s else s.(running := true, inits := s.inits + {p})
  }

  /** PVRSRVInitSrvDisconnectBW; `finalised` is the result of PVRSRVFinaliseSystem. */
  function Disconnected(s: State, p: nat, success: bool, finalised: bool): State {
    if p !in s.inits then s
    else State(false, true, finalised && success, s.inits - {p})
  }

  datatype Step = Dispatch(p: nat, call: Call, privileged: bool, success: bool, finalised: bool) | Exit(p: nat)

  function Handled(s: State, step: Step): State
    requires step.Dispatch?
  {
    match step.call
    case InitConnect => Connected(s, step.p, step.privileged)
    case InitDisconnect => Disconnected(s, step.p, step.success, step.finalised)
    case _ => s
  }

  function Next(s: State, step: Step): State {
    match step
    case Dispatch(p, call, _, _, _) => if Admitted(s, p, call) then Handled(s, step) else s
    case Exit(p) => s.(inits := s.inits - {p})
  }

  function Run(steps: seq<Step>): State {
    if steps == [] then START else Next(Run(steps[..|steps| - 1]), steps[|steps| - 1])
  }

  /** Running excludes having run; at most one process is the init process, none unless running. */
  ghost predicate Sound(s: State) {
    && (s.running ==> !s.ran) && (s.successful ==> s.ran)
    && (!s.running ==> s.inits == {})
    && |s.inits| <= 1
  }

  /** not run, running, ran */
  function Phase(s: State): nat {
    if s.ran then 2 else if s.running then 1 else 0
  }

  lemma OneLess(a: set<nat>, p: nat)
    ensures |a - {p}| <= |a|
    ensures p in a ==> |a - {p}| == |a| - 1
  {
    if p in a {
      assert a == (a - {p}) + {p};
    } else {
      assert a - {p} == a;
    }
  }

  lemma NextSound(s: State, step: Step)
    requires Sound(s)
    ensures Sound(Next(s, step)) && Phase(s) <= Phase(Next(s, step)) <= Phase(s) + 1
    ensures Phase(Next(s, step)) != Phase(s) ==> step.Dispatch?
  {
    OneLess(s.inits, step.p);
    assert |{step.p}| == 1 && {} + {step.p} == {step.p};
  }

  lemma {:induction false} RunSound(steps: seq<Step>)
    ensures Sound(Run(steps))
  {
    if steps != [] {
      RunSound(steps[..|steps| - 1]);
      NextSound(Run(steps[..|steps| - 1]), steps[|steps| - 1]);
    }
  }

  /** Over every run the init server never goes back a phase. */
  lemma {:induction false} PhaseOnlyRises(steps: seq<Step>, n: nat)
    requires n <= |steps|
    ensures Phase(Run(steps[..n])) <= Phase(Run(steps))
    decreases |steps|
  {
    if n == |steps| {
      assert steps[..n] == steps;
    } else {
      var front := steps[..|steps| - 1];
      PhaseOnlyRises(front, n);
      assert front[..n] == steps[..n];
      RunSound(front);
      NextSound(Run(front), steps[|steps| - 1]);
    }
  }

  /** Somebody connects as init server at most once in a run. */
  lemma ConnectsOnce(steps: seq<Step>, m: nat, n: nat)
    requires m < n < |steps|
    requires Phase(Run(steps[..m])) == 0 && Phase(Run(steps[..m + 1])) == 1
    ensures Phase(Run(steps[..n])) >= 1
  {
    PhaseOnlyRises(steps[..n], m + 1);
    assert steps[..n][..m + 1] == steps[..m + 1];
  }

  /** The driver waits for an init process that is gone. */
  ghost predicate Orphaned(s: State) {
    s.running && s.inits == {}
  }

  lemma NextOrphaned(s: State, step: Step)
    requires Sound(s)
    ensures Orphaned(Next(s, step)) <==> Orphaned(s) || (step.Exit? && step.p in s.inits)
  {
    OneLess(s.inits, step.p);
    if step.Exit? && step.p in s.inits {
      assert |s.inits - {step.p}| == 0;
    }
  }

  /** The init process went away at step k without disconnecting. */
  ghost predicate Deserted(steps: seq<Step>, k: nat)
    requires k < |steps|
  {
    steps[k].Exit? && steps[k].p in Run(steps[..k]).inits
  }

  /** While running there is exactly one init process, unless it exited: no step resets the
      running flag for it. */
  lemma {:induction false} OrphanedIff(steps: seq<Step>)
    ensures Run(steps).running && Run(steps).inits == {} <==> exists k :: 0 <= k < |steps| && Deserted(steps, k)
    ensures Run(steps).running ==> |Run(steps).inits| == 1 || Run(steps).inits == {}
  {
    RunSound(steps);
    if steps != [] {
      var front, last, n := steps[..|steps| - 1], steps[|steps| - 1], |steps| - 1;
      OrphanedIff(front);
      RunSound(front);
      NextOrphaned(Run(front), last);
      hide Run;
      forall k | 0 <= k < n
        ensures Deserted(front, k) <==> Deserted(steps, k)
      {
        assert front[..k] == steps[..k];
      }
      assert Deserted(steps, n) <==> last.Exit? && last.p in Run(front).inits;
    }
  }

  /** An init process connects and exits: from then on no process gets any call through. */
  lemma OrphanedRun()
    ensures var s := Run([Dispatch(1, InitConnect, true, true, true), Exit(1)]);
            s.running && s.inits == {} && forall p, call :: !Admitted(s, p, call)
  {
    var connect, exit := Dispatch(1, InitConnect, true, true, true), Exit(1);
    assert [connect, exit][..1] == [connect] && [connect][..0] == [];
    assert Run([connect]) == Next(START, connect);
    assert Run([connect, exit]) == Next(Run([connect]), exit);
  }

  /** Before successful initialisation an ordinary call gets through only from the init process. */
  lemma OnlyInitProcessBefore(s: State, p: nat, call: Call)
    requires Sound(s) && call == Ordinary && !(s.ran && s.successful)
    ensures Admitted(s, p, call) <==> p in s.inits
    ensures Admitted(s, p, call) ==> s.running && s.inits == {p}
  {
    if p in s.inits {
      OneLess(s.inits, p);
      assert s.inits - {p} == {};
    }
  }

  /** When the init process is gone before it disconnected, nothing gets through any more. */
  lemma {:induction false} OrphanedForever(s: State, steps: seq<Step>)
    requires s.running && !s.ran && s.inits == {}
    ensures RunFrom(s, steps) == s
    ensures forall p, call :: !Admitted(RunFrom(s, steps), p, call)
  {
    if steps != [] {
      OrphanedForever(s, steps[..|steps| - 1]);
    }
  }

  function RunFrom(s: State, steps: seq<Step>): State {
    if steps == [] then s else Next(RunFrom(s, steps[..|steps| - 1]), steps[|steps| - 1])
  }

  // ---------- the gate told from the calls alone ----------

  /** A call that makes its caller the init process, when it is the first of its kind. */
  predicate Connects(step: Step) {
    step.Dispatch? && step.call == InitConnect && step.privileged
  }

  /** The process exits, or calls the disconnect of the init server. */
  predicate Leaves(step: Step, p: nat) {
    step.p == p && (step.Exit? || step.call == InitDisconnect)
  }

  ghost predicate NoConnect(steps: seq<Step>, n: nat) {
    n <= |steps| && forall j :: 0 <= j < n ==> !Connects(steps[j])
  }

  /** Step k is the first that connects. */
  ghost predicate FirstConnect(steps: seq<Step>, k: nat) {
    k < |steps| && Connects(steps[k]) && NoConnect(steps, k)
  }

  /** The caller of step k has not left again before step n. */
  ghost predicate Stayed(steps: seq<Step>, k: nat, n: nat)
    requires k < |steps|
  {
    n <= |steps| && forall j :: k < j < n ==> !Leaves(steps[j], steps[k].p)
  }

  /** Step m is the first after k with which its caller leaves. */
  ghost predicate FirstLeave(steps: seq<Step>, k: nat, m: nat) {
    k < m < |steps| && Stayed(steps, k, m) && Leaves(steps[m], steps[k].p)
  }

  /** The first process that connected is p, and it is still there. */
  ghost predicate IsInit(steps: seq<Step>, p: nat) {
    exists k: nat :: FirstConnect(steps, k) && steps[k].p == p && Stayed(steps, k, |steps|)
  }

  /** The first process that connected left by a disconnect with success. */
  ghost predicate Initialised(steps: seq<Step>) {
    exists k: nat, m: nat :: FirstConnect(steps, k) && FirstLeave(steps, k, m) && steps[m].Dispatch? && steps[m].success && steps[m].finalised
  }

  lemma {:induction false} RunBefore(steps: seq<Step>)
    requires NoConnect(steps, |steps|)
    ensures Run(steps) == START
  {
    if steps != [] {
      RunBefore(steps[..|steps| - 1]);
    }
  }

  lemma {:induction false} RunDuring(steps: seq<Step>, k: nat)
    requires FirstConnect(steps, k) && Stayed(steps, k, |steps|)
    ensures Run(steps) == State(true, false, false, {steps[k].p})
  {
    var front := steps[..|steps| - 1];
    if k + 1 == |steps| {
      RunBefore(front);
      assert START.inits + {steps[k].p} == {steps[k].p};
    } else {
      RunDuring(front, k);
    }
  }

  lemma {:induction false} RunAfter(steps: seq<Step>, k: nat, m: nat)
    requires FirstConnect(steps, k) && FirstLeave(steps, k, m)
    ensures steps[m].Exit? ==> Run(steps) == State(true, false, false, {})
    ensures steps[m].Dispatch? ==> Run(steps) == State(false, true, steps[m].finalised && steps[m].success, {})
  {
    var front := steps[..|steps| - 1];
    if m + 1 == |steps| {
      RunDuring(front, k);
      assert {steps[k].p} - {steps[k].p} == {};
    } else {
      RunAfter(front, k, m);
    }
  }

  lemma {:induction false} FindConnect(steps: seq<Step>, n: nat) returns (k: nat)
    requires n <= |steps|
    ensures k < n ==> FirstConnect(steps, k)
    ensures k >= n ==> NoConnect(steps, n)
  {
    k := n;
    if n > 0 {
      k := FindConnect(steps, n - 1);
      if k >= n - 1 {
        k := if Connects(steps[n - 1]) then n - 1 else n;
      }
    }
  }

  lemma {:induction false} FindLeave(steps: seq<Step>, k: nat, n: nat) returns (m: nat)
    requires k < n <= |steps|
    ensures m < n ==> FirstLeave(steps, k, m)
    ensures m >= n ==> Stayed(steps, k, n)
  {
    m := n;
    if n > k + 1 {
      m := FindLeave(steps, k, n - 1);
      if m >= n - 1 {
        m := if Leaves(steps[n - 1], steps[k].p) then n - 1 else n;
      }
    }
  }

  /** Over every run: an ordinary call gets through exactly from the first process that connected
      with privilege, as long as it has neither exited nor disconnected, and from everybody once it
      has disconnected with success. Other calls get through besides before anybody connected. */
  lemma AdmittedWhen(steps: seq<Step>, p: nat, call: Call)
    ensures Admitted(Run(steps), p, call) <==>
              IsInit(steps, p) || Initialised(steps) || (call != Ordinary && NoConnect(steps, |steps|))
  {
    hide Run;
    var k := FindConnect(steps, |steps|);
    if k >= |steps| {
      RunBefore(steps);
    } else {
      var m := FindLeave(steps, k, |steps|);
      if m >= |steps| {
        RunDuring(steps, k);
      } else {
        RunAfter(steps, k, m);
        assert forall j: nat :: FirstConnect(steps, j) ==> j == k;
        assert forall n: nat :: FirstLeave(steps, k, n) ==> n == m;
        assert Leaves(steps[m], steps[k].p) && !Stayed(steps, k, |steps|);
      }
    }
  }

  // ---------- handlers and their batches ----------

  /** What a handler may do to the handle base of its process, besides looking handles up. */
  datatype Act = OpenBatch(n: nat, heap: Heap, junk: nat -> Slot)
               | MakeHandle(data: nat, typ: nat, flags: Flags, heap: Heap, junk: nat -> Slot, hashOk: bool)
               | MakeSubHandle(data: nat, typ: nat, flags: Flags, parent: nat, heap: Heap, junk: nat -> Slot, hashOk: bool)
               | DropHandle(h: nat, typ: nat)
               | TakeHandle(h: nat, typ: nat)
               | CommitBatch

  predicate Callable(act: Act) {
    match act
    case OpenBatch(n, _, _) => n < TWO_32
    case MakeHandle(_, typ, _, _, _, _) => typ != NO_TYPE
    case MakeSubHandle(_, typ, _, parent, _, _, _) => typ != NO_TYPE && parent < TWO_32
    case DropHandle(h, typ) => h < TWO_32 && typ != NO_TYPE
    case TakeHandle(h, typ) => h < TWO_32 && typ != NO_TYPE
    case CommitBatch => true
  }

  /** PVRSRV_PER_PROCESS_DATA, as far as dispatch uses it. */
  class PerProc {
    const id: nat
    var bInitProcess: bool
    var bHandlesBatched: bool
    const handles: HandleBase

    ghost predicate Valid()
      reads this, handles
    {
      handles.Valid() && !handles.purging && (bHandlesBatched <==> handles.batchSize != 0)
    }

    constructor (id: nat)
      ensures Valid() && this.id == id && !bInitProcess && !bHandlesBatched && fresh(handles)
    {
      hide HandleBase.Valid, HandleBase.V, HandleBase.Contents;
      this.id, bInitProcess, bHandlesBatched := id, false, false;
      handles := new HandleBase();
    }

    /** The assertion at handle.c:664 would fail in NewHandleBatch. */
    predicate Stuck(n: nat)
      reads this, handles
    {
      handles.batchSize == 0 && n > handles.freeCount && handles.firstFree == 0 && handles.freeCount != 0
    }

    /** NewHandleBatch. */
    method NewBatch(n: nat, heap: Heap, junk: nat -> Slot) returns (e: Error)
      requires Valid() && n < TWO_32 && !Stuck(n)
      modifies `bHandlesBatched, handles
      ensures Valid()
    {
      hide HandleBase.Valid;
      ghost var added;
      e, added := handles.NewHandleBatch(n, heap, junk);
      if e == Ok {
        bHandlesBatched := true;
      }
    }

    /** CommitHandleBatch. */
    method Commit() returns (e: Error)
      requires Valid()
      modifies `bHandlesBatched, handles
      ensures Valid() && !bHandlesBatched
    {
      hide HandleBase.Valid;
      bHandlesBatched := false;
      e := handles.EndHandleBatch(true);
    }

    /** ReleaseHandleBatch: afterwards no batch is open, and no handle belongs to one. */
    method ReleaseBatch()
      requires Valid()
      modifies `bHandlesBatched, handles
      ensures Valid() && !bHandlesBatched && handles.batchSize == 0
      ensures !old(bHandlesBatched) ==> handles.V() == old(handles.V())
      ensures old(bHandlesBatched) ==> BatchEnded(old(handles.V()), handles.V(), false)
    {
      hide HandleBase.Valid;
      if bHandlesBatched {
        bHandlesBatched := false;
        var e := handles.EndHandleBatch(false);
      }
    }

    /** A handler: whatever it does, and wherever it returns. `fault` is its own result when it
        gets to the end; `halted` says that it ran into the assertion at handle.c:664. */
    method RunHandler(acts: seq<Act>, fault: bool) returns (err: bool, halted: bool)
      requires Valid() && forall k :: 0 <= k < |acts| ==> Callable(acts[k])
      modifies `bHandlesBatched, handles
      ensures Valid() && (halted ==> exists k :: 0 <= k < |acts| && acts[k].OpenBatch?)
    {
      hide HandleBase.Valid;
      for k := 0 to |acts|
        invariant Valid()
      {
        assert Callable(acts[k]);
        if acts[k].OpenBatch? && Stuck(acts[k].n) {
          return true, true;
        }
        var ok := Perform(acts[k]);
        if !ok {
          return false, false;
        }
      }
      return fault, false;
    }

    /** One act; a batch that cannot be opened or committed ends the handler. */
    method Perform(act: Act) returns (ok: bool)
      requires Valid() && Callable(act) && (act.OpenBatch? ==> !Stuck(act.n))
      modifies `bHandlesBatched, handles
      ensures Valid()
    {
      hide HandleBase.Valid;
      ok := true;
      match act
      case OpenBatch(n, heap, junk) =>
        var e := NewBatch(n, heap, junk);
        ok := e == Ok;
      case MakeHandle(data, typ, flags, heap, junk, hashOk) =>
        var e, h := handles.AllocRootHandle(data, typ, flags, heap, junk, hashOk);
      case MakeSubHandle(data, typ, flags, parent, heap, junk, hashOk) =>
        var e, h := handles.AllocSubHandle(data, typ, flags, parent, heap, junk, hashOk);
      case DropHandle(h, typ) =>
        var e := handles.ReleaseHandle(h, typ);
      case TakeHandle(h, typ) =>
        var e, data := handles.LookupAndReleaseHandle(h, typ);
      case CommitBatch =>
        var e := Commit();
        ok := e == Ok;
    }
  }

  /** The flags of pvrsrv and the dispatch entry. */
  class Driver {
    var running: bool
    var ran: bool
    var successful: bool
    ghost var inits: set<nat>

    ghost function S(): State
      reads this
    {
      State(running, ran, successful, inits)
    }

    ghost predicate Valid()
      reads this
    {
      Sound(S())
    }

    constructor ()
      ensures Valid() && S() == START
    {
      running, ran, successful, inits := false, false, false, {};
    }

    /** The gate in BridgedDispatchKM. */
    method Gate(proc: PerProc, call: Call) returns (ok: bool)
      requires proc.bInitProcess == (proc.id in inits)
      ensures ok == Admitted(S(), proc.id, call)
    {
      if !proc.bInitProcess {
        if ran {
          return successful;
        } else if running {
          return false;
        }
        return call != Ordinary;
      }
      return true;
    }

    /** BridgedDispatchKM: `sizesOk` and `copiedIn` stand for the checks before the handler,
        `copiedOut` for the copy after it. However it ends, no handle batch stays open. */
    method BridgedDispatch(proc: PerProc, call: Call, privileged: bool, success: bool, finalised: bool,
                           sizesOk: bool, copiedIn: bool, copiedOut: bool, acts: seq<Act>, fault: bool)
      returns (err: bool, halted: bool, ghost called: bool)
      requires Valid() && proc.Valid() && !proc.bHandlesBatched && proc.bInitProcess == (proc.id in inits)
      requires forall k :: 0 <= k < |acts| ==> Callable(acts[k])
      modifies this, proc, proc.handles
      ensures Valid() && proc.Valid() && proc.bInitProcess == (proc.id in inits)
      ensures !halted ==> !proc.bHandlesBatched && proc.handles.batchSize == 0 && proc.handles.batchQ == []
      ensures halted ==> called && exists k :: 0 <= k < |acts| && acts[k].OpenBatch?
      ensures called <==> sizesOk && Admitted(old(S()), proc.id, call) && copiedIn
      ensures !called ==> err && S() == old(S()) && proc.handles.V() == old(proc.handles.V())
      ensures called ==> S() == Next(old(S()), Dispatch(proc.id, call, privileged, success, finalised))
      ensures called && call == Ordinary && !(old(ran) && old(successful)) ==> old(running) && old(inits) == {proc.id}
      ensures forall p :: p != proc.id ==> (p in inits <==> p in old(inits))
    {
      hide HandleBase.Valid;
      err, halted, called := true, false, false;
      ghost var s := S();
      NextSound(s, Dispatch(proc.id, call, privileged, success, finalised));
      if sizesOk {
        var ok := Gate(proc, call);
        if ok && copiedIn {
          called := true;
          if call == Ordinary && !(ran && successful) {
            OnlyInitProcessBefore(s, proc.id, call);
          }
          err, halted := CallHandler(proc, call, privileged, success, finalised, acts, fault);
          if halted {
            return;
          }
          if !err {
            err := !copiedOut;
          }
        }
      }
      proc.ReleaseBatch();
      NoBatchOpen(proc);
    }

    lemma NoBatchOpen(proc: PerProc)
      requires proc.Valid() && proc.handles.batchSize == 0
      ensures proc.handles.batchQ == []
    {
    }

    method CallHandler(proc: PerProc, call: Call, privileged: bool, success: bool, finalised: bool, acts: seq<Act>, fault: bool)
      returns (err: bool, halted: bool)
      requires proc.Valid() && proc.bInitProcess == (proc.id in inits) && Sound(S())
      requires forall k :: 0 <= k < |acts| ==> Callable(acts[k])
      modifies this, proc, proc.handles
      ensures proc.Valid() && proc.bInitProcess == (proc.id in inits)
      ensures halted ==> exists k :: 0 <= k < |acts| && acts[k].OpenBatch?
      ensures S() == Handled(old(S()), Dispatch(proc.id, call, privileged, success, finalised))
      ensures forall p :: p != proc.id ==> (p in inits <==> p in old(inits))
    {
      hide HandleBase.Valid;
      err, halted := false, false;
      match call
      case InitConnect =>
        // PVRSRVInitSrvConnectBW
        if privileged && !running && !ran {
          running, proc.bInitProcess := true, true;
          inits := inits + {proc.id};
        }
      case InitDisconnect =>
        // PVRSRVInitSrvDisconnectBW
        if proc.bInitProcess {
          proc.bInitProcess := false;
          inits := inits - {proc.id};
          running, ran, successful := false, true, finalised && success;
        }
      case _ =>
        err, halted := proc.RunHandler(acts, fault);
    }
  }
}
