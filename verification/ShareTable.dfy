/** The cross-process share table of src/services4/srvkm/common/buffer_manager.c. */
module ShareTable {
  const NUM_SHAREABLES: nat := 4096
  const BAD_SHARE_INDEX: nat := 0x7EE_0FDC
  const SINGLE_PROCESS: nat := 1

  /** Allocation flags: the sharing flag, the mapping type, and the rest. */
  datatype Flags = Flags(xproc: bool, mapType: nat, rest: nat)

  /** The flags with the mapping type forced to single process. */
  function Single(f: Flags): Flags {
    f.(mapType := SINGLE_PROCESS)
  }

  datatype Error = Ok | InvalidParams | OutOfMemory

  /** One table entry; arena 0 means the pages came from the OS. */
  datatype Share = Share(refCount: nat, flags: Flags, size: nat, pageSize: nat, cpuVAddr: nat, handle: nat, arena: nat)

  const EMPTY: Share := Share(0, Flags(false, 0, 0), 0, 0, 0, 0, 0)

  // ---------- counting ----------

  ghost function InUse(s: seq<Share>): (n: nat)
    ensures n <= |s|
  {
    if s == [] then 0 else InUse(s[..|s| - 1]) + (if s[|s| - 1].refCount > 0 then 1 else 0)
  }

  lemma {:induction false} InUseUpdate(s: seq<Share>, i: nat, x: Share)
    requires i < |s|
    ensures InUse(s[i := x]) == InUse(s) - (if s[i].refCount > 0 then 1 else 0) + (if x.refCount > 0 then 1 else 0)
  {
    var n := |s| - 1;
    if i < n {
      InUseUpdate(s[..n], i, x);
      assert s[i := x][..n] == s[..n][i := x];
    } else {
      assert s[i := x][..n] == s[..n];
    }
  }

  lemma {:induction false} InUseConcat(s: seq<Share>, more: seq<Share>)
    requires forall k :: 0 <= k < |more| ==> more[k].refCount == 0
    ensures InUse(s + more) == InUse(s)
  {
    if more == [] {
      assert s + more == s;
    } else {
      InUseConcat(s, more[..|more| - 1]);
      assert (s + more)[..|s + more| - 1] == s + more[..|more| - 1];
    }
  }

  lemma {:induction false} AllInUse(s: seq<Share>)
    ensures InUse(s) == |s| <==> forall k :: 0 <= k < |s| ==> s[k].refCount > 0
  {
    if s != [] {
      AllInUse(s[..|s| - 1]);
      if forall k :: 0 <= k < |s| ==> s[k].refCount > 0 {
        assert s[|s| - 1].refCount > 0;
      }
    }
  }

  /** No two entries in use have the same memory. */
  ghost predicate Distinct(s: seq<Share>) {
    forall i, j :: 0 <= i < j < |s| && s[i].refCount > 0 && s[j].refCount > 0 ==> s[i].handle != s[j].handle
  }

  /** The memory behind the entries in use. */
  ghost function Held(s: seq<Share>): set<nat> {
    set k | 0 <= k < |s| && s[k].refCount > 0 :: s[k].handle
  }

  lemma HeldUpdate(s: seq<Share>, i: nat, x: Share)
    requires i < |s| && Distinct(s) && (x.refCount > 0 && s[i].refCount > 0 ==> x.handle == s[i].handle)
    requires x.refCount > 0 && s[i].refCount == 0 ==> x.handle !in Held(s)
    ensures Distinct(s[i := x])
    ensures Held(s[i := x]) ==
            if x.refCount > 0 then Held(s) + {x.handle} else if s[i].refCount > 0 then Held(s) - {s[i].handle} else Held(s)
  {
    var t := s[i := x];
    forall h | h in Held(s) && (s[i].refCount == 0 || h != s[i].handle)
      ensures h in Held(t)
    {
      var k :| 0 <= k < |s| && s[k].refCount > 0 && s[k].handle == h;
      assert t[k] == s[k];
    }
    forall h | h in Held(t) && h != x.handle
      ensures h in Held(s)
    {
      var k :| 0 <= k < |t| && t[k].refCount > 0 && t[k].handle == h;
      assert t[k] == s[k];
    }
    if x.refCount > 0 {
      assert t[i].handle in Held(t);
    }
    if s[i].refCount > 0 {
      assert s[i].handle in Held(s);
    }
  }

  lemma HeldConcat(s: seq<Share>, more: seq<Share>)
    requires Distinct(s) && forall k :: 0 <= k < |more| ==> more[k].refCount == 0
    ensures Distinct(s + more) && Held(s + more) == Held(s)
  {
    forall h | h in Held(s)
      ensures h in Held(s + more)
    {
      var k :| 0 <= k < |s| && s[k].refCount > 0 && s[k].handle == h;
      assert (s + more)[k] == s[k];
    }
  }

  /** What the table and the memory behind it agree on: the count is the number of entries in
      use, and exactly their memory is allocated. */
  ghost predicate Agrees(s: seq<Share>, count: nat, memory: set<nat>) {
    count == InUse(s) && Distinct(s) && memory == Held(s)
  }

  /** Entries not in use can be added at the end. */
  lemma AgreesConcat(s: seq<Share>, more: seq<Share>, count: nat, memory: set<nat>)
    requires Agrees(s, count, memory) && forall k :: 0 <= k < |more| ==> more[k].refCount == 0
    ensures Agrees(s + more, count, memory)
  {
    InUseConcat(s, more);
    HeldConcat(s, more);
  }

  /** The entry that sharing gives out again: flags are compared after they have been forced
      to single process. */
  predicate MayShare(was: Share, flags: Flags, size: nat, pageSize: nat) {
    Single(flags) == was.flags && size == was.size && pageSize == was.pageSize
  }

  /** Sharing is refused without the sharing flag, and for an entry in use that does not match. */
  predicate Refused(was: Share, flags: Flags, size: nat, pageSize: nat) {
    !flags.xproc || (was.refCount > 0 && !MayShare(was, flags, size, pageSize))
  }

  /** One reference to the entry at `i` goes; with the last one go its memory and its place in
      the count. */
  ghost predicate Unshared(was: seq<Share>, now: seq<Share>, i: int, count: nat, count2: int, memory: set<nat>, memory2: set<nat>) {
    && 0 <= i < |was| && was[i].refCount > 0
    && now == was[i := was[i].(refCount := was[i].refCount - 1)]
    && memory2 == (if was[i].refCount == 1 then memory - {was[i].handle} else memory)
    && count2 == (if was[i].refCount == 1 then count - 1 else count)
  }

  class Table {
    var data: array<Share>
    var size: nat
    var count: nat
    var shareIndex: nat
    ghost var memory: set<nat>  // allocated pages or regions that back an entry
    ghost var lost: nat         // regions taken from an arena and never given back

    ghost predicate Valid()
      reads this, data
    {
      data.Length == size >= NUM_SHAREABLES && Agrees(data[..], count, memory)
    }

    /** BM_XProcWorkaroundShareInit, with the counts of the new table at zero. */
    constructor ()
      ensures Valid() && size == NUM_SHAREABLES && count == 0 && memory == {} && lost == 0 && fresh(data)
      ensures shareIndex == BAD_SHARE_INDEX
    {
      data := new Share[NUM_SHAREABLES](_ => EMPTY);
      size, count, shareIndex, memory, lost := NUM_SHAREABLES, 0, BAD_SHARE_INDEX, {}, 0;
      new;
      InUseConcat([], data[..]);
      assert [] + data[..] == data[..];
      HeldConcat([], data[..]);
    }

    /** XProcWorkaroundShareCheck: a full table grows by half. */
    method ShareCheck(memOk: bool)
      requires Valid()
      modifies this
      ensures Valid() && count == old(count) && memory == old(memory) && lost == old(lost) && shareIndex == old(shareIndex)
      ensures data == old(data) || fresh(data)
      ensures size == if memOk && count == old(size) then old(size) + old(size) / 2 else old(size)
      ensures data[..old(size)] == old(data[..]) && forall k :: old(size) <= k < size ==> data[k].refCount == 0
    {
      hide Agrees;
      if count == size && memOk {
        var newSize := size + size / 2;
        var p := new Share[newSize](_ => EMPTY);
        ghost var was := data[..];
        for k := 0 to size
          modifies p
          invariant p[..k] == was[..k] && forall j :: k <= j < newSize ==> p[j] == EMPTY
        {
          p[k] := data[k];
        }
        ghost var more := p[size..];
        assert p[..] == was + more by { assert p[..] == p[..size] + p[size..]; }
        AgreesConcat(was, more, count, memory);
        data, size := p, newSize;
        assert data[..] == was + more;
        assert data[..|was|] == was;
      }
    }

    method SetShareIndex(index: nat) returns (e: Error)
      requires Valid()
      modifies `shareIndex
      ensures Valid() && (e == Ok <==> old(shareIndex) == BAD_SHARE_INDEX)
      ensures shareIndex == if e == Ok then index else old(shareIndex)
    {
      if shareIndex != BAD_SHARE_INDEX {
        return InvalidParams;
      }
      shareIndex := index;
      return Ok;
    }

    method UnsetShareIndex(index: nat) returns (e: Error)
      requires Valid()
      modifies `shareIndex
      ensures Valid() && (e == Ok <==> old(shareIndex) == index && index != BAD_SHARE_INDEX)
      ensures shareIndex == if e == Ok then BAD_SHARE_INDEX else old(shareIndex)
    {
      if shareIndex == BAD_SHARE_INDEX || shareIndex != index {
        return InvalidParams;
      }
      shareIndex := BAD_SHARE_INDEX;
      return Ok;
    }

    /** BM_XProcWorkaroundFindNewBufferAndSetShareIndex: the first entry not in use; there is
        one exactly when the count is below the size. */
    method FindNewBuffer() returns (e: Error, index: nat)
      requires Valid()
      modifies `shareIndex
      ensures Valid()
      ensures e == InvalidParams <==> old(shareIndex) != BAD_SHARE_INDEX
      ensures old(shareIndex) == BAD_SHARE_INDEX ==> (e == Ok <==> count < size)
      ensures e == Ok ==> index < size && data[index].refCount == 0 && shareIndex == index
                          && forall k :: 0 <= k < index ==> data[k].refCount > 0
      ensures e != Ok ==> shareIndex == old(shareIndex)
    {
      index := 0;
      if shareIndex != BAD_SHARE_INDEX {
        return InvalidParams, 0;
      }
      AllInUse(data[..]);
      while index < size
        invariant index <= size && forall k :: 0 <= k < index ==> data[k].refCount > 0
      {
        if data[index].refCount == 0 {
          shareIndex := index;
          assert data[..][index].refCount == 0;
          return Ok, index;
        }
        index := index + 1;
      }
      assert forall k :: 0 <= k < size ==> data[..][k].refCount > 0;
      return OutOfMemory, index;
    }

    /** The sharing half of XProcWorkaroundAllocShareable: one more reference. */
    method Retain()
      requires Valid() && shareIndex < size && data[shareIndex].refCount > 0
      modifies data
      ensures Valid() && data[..] == old(data[..])[shareIndex := old(data[shareIndex]).(refCount := old(data[shareIndex].refCount) + 1)]
      ensures data[shareIndex].handle in memory
    {
      ghost var was, i := data[..], shareIndex;
      var x := data[shareIndex];
      var y := x.(refCount := x.refCount + 1);
      InUseUpdate(was, i, y);
      HeldUpdate(was, i, y);
      assert was[i].handle in Held(was);
      data[shareIndex] := y;
      assert data[..] == was[i := y] && Held(was) + {y.handle} == Held(was);
    }

    /** The filling half: the entry is written, counted, and the table checked for growth. */
    method Fill(y: Share, memOk: bool)
      requires Valid() && shareIndex < size && data[shareIndex].refCount == 0 && y.refCount == 1 && y.handle !in memory
      modifies this, data
      ensures Valid() && shareIndex == old(shareIndex) && lost == old(lost) && (data == old(data) || fresh(data))
      ensures count == old(count) + 1 && memory == old(memory) + {y.handle}
      ensures old(size) <= size && data[..old(size)] == old(data[..])[shareIndex := y]
      ensures memOk ==> count < size
    {
      ghost var was, i := data[..], shareIndex;
      InUseUpdate(was, i, y);
      HeldUpdate(was, i, y);
      data[shareIndex] := y;
      assert data[..] == was[i := y];
      memory, count := memory + {y.handle}, count + 1;
      ShareCheck(memOk);
    }

    /** OSReservePhys and OSAllocPages get the addresses of these fields of the entry, which is
        not in use yet. */
    method WriteAddresses(cpu: nat, handle: nat)
      requires Valid() && shareIndex < size && data[shareIndex].refCount == 0
      modifies data
      ensures Valid() && data[..] == old(data[..])[shareIndex := old(data[shareIndex]).(cpuVAddr := cpu, handle := handle)]
    {
      ghost var was, i := data[..], shareIndex;
      var y := data[shareIndex].(cpuVAddr := cpu, handle := handle);
      InUseUpdate(was, i, y);
      HeldUpdate(was, i, y);
      data[shareIndex] := y;
      assert data[..] == was[i := y];
    }

    /** XProcWorkaroundAllocShareable: shares the entry at the share index, or fills it.
        `gotPages` and `gotRegion` are the results of OSAllocPages or OSReservePhys, and of
        RA_Alloc; `handle` and `cpu` are what they leave in the entry, also when they fail. */
    method AllocShareable(arena: nat, flags: Flags, sz: nat, pageSize: nat, gotRegion: bool, gotPages: bool, handle: nat, cpu: nat,
                          memOk: bool)
      returns (e: Error, outCpu: nat, outHandle: nat)
      requires Valid() && shareIndex < size && handle !in memory
      modifies this, data
      ensures Valid() && shareIndex == old(shareIndex) && (data == old(data) || fresh(data)) && old(size) <= size
      ensures e == InvalidParams <==> Refused(old(data[shareIndex]), flags, sz, pageSize)
      ensures e == OutOfMemory <==> !Refused(old(data[shareIndex]), flags, sz, pageSize) && old(data[shareIndex].refCount) == 0
                                    && (!gotPages || (arena != 0 && !gotRegion))
      ensures e != Ok ==> memory == old(memory) && count == old(count)
                          && data[..] == if e == OutOfMemory && (arena == 0 || gotRegion)
                                         then old(data[..])[shareIndex := old(data[shareIndex]).(cpuVAddr := cpu, handle := handle)]
                                         else old(data[..])
      ensures e == Ok ==> outHandle == data[shareIndex].handle && outHandle in memory && outCpu == data[shareIndex].cpuVAddr
      ensures e == Ok ==> data[..old(size)] == old(data[..])[shareIndex :=
        if old(data[shareIndex].refCount) > 0 then old(data[shareIndex]).(refCount := old(data[shareIndex].refCount) + 1)
        else Share(1, if arena == 0 then Single(flags) else flags, sz, pageSize, cpu, handle, arena)]
      ensures e == Ok && old(data[shareIndex].refCount) > 0 ==> memory == old(memory) && count == old(count)
      ensures e == Ok && old(data[shareIndex].refCount) == 0 ==>
                memory == old(memory) + {handle} && count == old(count) + 1
                && (memOk ==> count < size)
      ensures lost == old(lost) + if e == OutOfMemory && arena != 0 && gotRegion then 1 else 0
    {
      outCpu, outHandle := 0, 0;
      if !flags.xproc {
        return InvalidParams, 0, 0;
      }
      var x := data[shareIndex];
      if x.refCount > 0 {
        if Single(flags) != x.flags || sz != x.size || pageSize != x.pageSize {
          return InvalidParams, 0, 0;
        }
        Retain();
        return Ok, x.cpuVAddr, x.handle;
      }
      if arena != 0 && !gotRegion {
        return OutOfMemory, 0, 0;
      }
      ghost var n := size;
      WriteAddresses(cpu, handle);
      if !gotPages {
        lost := lost + if arena != 0 then 1 else 0;
        return OutOfMemory, 0, 0;
      }
      Fill(Share(1, if arena == 0 then Single(flags) else flags, sz, pageSize, cpu, handle, arena), memOk);
      assert data[..n][shareIndex].handle == handle;
      return Ok, cpu, handle;
    }

    /** XProcWorkaroundHandleToSI. */
    method HandleToIndex(handle: nat) returns (found: bool, index: nat)
      requires Valid()
      ensures found <==> handle in memory
      ensures found ==> index < size && data[index].refCount > 0 && data[index].handle == handle
    {
      found, index := false, 0;
      var dups := false;
      var k := 0;
      assert forall i, j :: 0 <= i < j < size && data[i].refCount > 0 && data[j].refCount > 0 ==> data[i].handle != data[j].handle by {
        ghost var s := data[..];
        assert forall i :: 0 <= i < size ==> s[i] == data[i];
      }
      while k < size
        invariant k <= size && !dups
        invariant found ==> index < k && data[index].refCount > 0 && data[index].handle == handle
        invariant !found ==> forall j :: 0 <= j < k ==> !(data[j].refCount > 0 && data[j].handle == handle)
      {
        if data[k].refCount > 0 && data[k].handle == handle {
          if found {
            dups := true;
          } else {
            index, found := k, true;
          }
        }
        k := k + 1;
      }
      if found {
        assert data[..][index].handle in Held(data[..]);
      }
      found := found && !dups;
    }

    /** XProcWorkaroundFreeShareable: the memory goes exactly when the last reference does. */
    method FreeShareable(handle: nat)
      requires Valid()
      modifies `count, `memory, data
      ensures Valid()
      ensures handle !in old(memory) ==> data[..] == old(data[..]) && count == old(count) && memory == old(memory)
      ensures handle in old(memory) ==> exists i ::
        Unshared(old(data[..]), data[..], i, old(count), count, old(memory), memory) && old(data[..])[i].handle == handle
    {
      var found, i := HandleToIndex(handle);
      if !found {
        return;
      }
      ghost var was := data[..];
      var x := data[i].(refCount := data[i].refCount - 1);
      InUseUpdate(was, i, x);
      HeldUpdate(was, i, x);
      data[i] := x;
      assert data[..] == was[i := x];
      if x.refCount == 0 {
        memory, count := memory - {handle}, count - 1;
      } else {
        assert Held(was) + {x.handle} == Held(was);
      }
    }
  }

  /** Pages from the OS can be shared by anyone who asks with the same flags; a region from an
      arena can be shared again only when its flags said single process already. */
  lemma SharedAgain(flags: Flags, size: nat, pageSize: nat, cpu: nat, handle: nat, arena: nat)
    ensures MayShare(Share(1, if arena == 0 then Single(flags) else flags, size, pageSize, cpu, handle, arena), flags, size, pageSize)
            <==> arena == 0 || flags.mapType == SINGLE_PROCESS
  {
  }

  /** The first call fills an entry from an arena; the second asks for the same with the same
      flags, and is refused. */
  method ShareTwice(cpu: nat, handle: nat) returns (table: Table, first: Error, second: Error)
    ensures fresh(table) && first == Ok && second == InvalidParams
  {
    hide Agrees, Refused;
    var flags, i := Flags(true, 0, 0), 0;
    table, i := NewEntry();
    var cpu1, handle1, cpu2, handle2;
    NotInUse(table.data[i], flags, 4096, 4096);
    first, cpu1, handle1 := table.AllocShareable(1, flags, 4096, 4096, true, true, handle, cpu, true);
    assert table.data[i] == Share(1, flags, 4096, 4096, cpu, handle, 1) by {
      assert table.data[..NUM_SHAREABLES][i] == table.data[i];
    }
    ArenaRefused(table.data[i], flags);
    second, cpu2, handle2 := table.AllocShareable(1, flags, 4096, 4096, true, true, handle + 1, cpu, true);
  }

  lemma NotInUse(x: Share, flags: Flags, size: nat, pageSize: nat)
    requires x.refCount == 0 && flags.xproc
    ensures !Refused(x, flags, size, pageSize)
  {
  }

  lemma ArenaRefused(x: Share, flags: Flags)
    requires x.refCount > 0 && x.arena != 0 && x.flags == flags && flags.mapType != SINGLE_PROCESS
    ensures Refused(x, flags, x.size, x.pageSize)
  {
  }

  /** A new table whose share index names an entry. */
  method NewEntry() returns (table: Table, i: nat)
    ensures fresh(table) && fresh(table.data) && table.Valid() && i == table.shareIndex < table.size == NUM_SHAREABLES
    ensures table.data[i].refCount == 0 && table.memory == {} && table.lost == 0
  {
    table := new Table();
    var e;
    e, i := table.FindNewBuffer();
  }

  /** A failure of OSReservePhys behind a successful RA_Alloc: the region is not given back. */
  method LoseRegion(cpu: nat, handle: nat) returns (table: Table, e: Error)
    ensures fresh(table) && table.Valid() && e == OutOfMemory && table.lost == 1 && table.memory == {}
  {
    var i;
    table, i := NewEntry();
    var cpu1, handle1;
    e, cpu1, handle1 := table.AllocShareable(1, Flags(true, 0, 0), 4096, 4096, true, false, handle, cpu, true);
  }
}
