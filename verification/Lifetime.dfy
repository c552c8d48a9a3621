/** Device memory shared between processes: allocation, mapping, export and freeing
    (src/services4/srvkm/common/devicemem.c and src/services4/srvkm/common/buffer_manager.c). */
module Lifetime {
  import opened LifeSpec
  import opened LifeObjects

  class DeviceMemory {
    ghost var live: set<object>    // everything allocated and not yet freed
    ghost var w: Shape
    var handles: set<MemInfo>      // the mem-infos with a handle in the kernel's handle base

    /** The counters of a source. */
    ghost function LifeOf(m: MemInfo): Life
      reads this, m, m.sync, m.buffer
    {
      Life(m in w.held, |MapsOf(w.maps, m)|, m.refCount, m.buffer.refCount, m.buffer.exportCount, m.sync != null, SyncRefs(m),
           if m in live then 0 else 1, if m.buffer in live then 0 else 1, if m.sync != null && m.sync !in live then 1 else 0)
    }

    ghost predicate States()
      requires live == Objects(w) && Separate(w)
      reads this, live
    {
      Allocated(w);
      && (forall m :: m in w.sources ==> (m.sync == null || m.sync in w.syncs) && SourceOk(w, handles, m))
      && (forall d :: d in w.maps ==> MapOk(d))
      && (forall s :: s in w.syncs ==> SyncOk(s))
    }

    ghost predicate Valid()
      reads this, live
    {
      live == Objects(w) && Separate(w) && handles <= w.sources && States()
    }

    lemma StatesOthers(x: MemInfo?)
      requires Valid()
      ensures OthersOk(w, handles, x)
    {
      hide Objects, Separate, SourceOk, MapOk, SyncOk;
    }

    lemma OthersStates(x: MemInfo)
      requires live == Objects(w) && Separate(w) && handles <= w.sources && OthersOk(w, handles, x)
      requires x in w.sources ==> SourceOk(w, handles, x)
      requires forall s :: s in w.syncs && s.owner == x ==> SyncOk(s)
      ensures Valid()
    {
      hide Objects, Separate, MapOk, SyncOk, Counts;
    }

    constructor ()
      ensures Valid() && live == {} && w == Shape({}, {}, {}, {}, {}) && handles == {}
    {
      live, w, handles := {}, Shape({}, {}, {}, {}, {}), {};
    }

    /** Frees an object, which must not have been freed before. */
    ghost method Discard(o: object)
      requires o in live
      modifies `live
      ensures live == old(live) - {o}
    {
      live := live - {o};
    }

    /** FreeBuf: a RAM-backed buffer gives its region back when nobody refers to it; the device
        range of another one goes when its allocator frees it. */
    method FreeBuf(b: Buffer, fromAllocator: bool)
      requires b in live && b.mapping in live && b.mapping !in Range(b) && (fromAllocator ==> Range(b) <= live)
      modifies `live
      ensures live == old(live) - (if fromAllocator then Range(b) else {})
                      - (if b.refCount == 0 && b.exportCount == 0 then {b, b.mapping} else {})
    {
      if b.range == null {
        if b.exportCount == 0 && b.refCount == 0 {
          Discard(b.mapping);
        }
      } else {
        if fromAllocator {
          Discard(b.range);
        }
        if b.exportCount == 0 && b.refCount == 0 {
          Discard(b.mapping);
        }
      }
      if b.exportCount == 0 && b.refCount == 0 {
        Discard(b);
      }
    }

    /** BM_Free. */
    method BufferFree(b: Buffer)
      requires b.refCount > 0 && b in live && b.mapping in live && b.mapping !in Range(b) && Range(b) <= live
      modifies `live, b
      ensures b.refCount == old(b.refCount) - 1 && b.exportCount == old(b.exportCount)
      ensures live == old(live) - (if b.refCount == 0 then Range(b) else {})
                      - (if b.refCount == 0 && b.exportCount == 0 then {b, b.mapping} else {})
    {
      b.refCount := b.refCount - 1;
      if b.refCount == 0 {
        FreeBuf(b, true);
      }
    }

    /** BM_FreeExport. */
    method BufferFreeExport(b: Buffer)
      requires b.exportCount > 0 && b in live && b.mapping in live && b.mapping !in Range(b)
      modifies `live, b
      ensures b.refCount == old(b.refCount) && b.exportCount == old(b.exportCount) - 1
      ensures live == old(live) - (if b.refCount == 0 && b.exportCount == 0 then {b, b.mapping} else {})
    {
      b.exportCount := b.exportCount - 1;
      FreeBuf(b, false);
    }

    /** FreeDeviceMem: the mem-info goes, whatever its own count. */
    method FreeDeviceMem(m: MemInfo)
      requires Alone(m) && Whole(m) - Pages(m) <= live && Apart(m)
      modifies `live, m.buffer
      ensures live == old(live) - (Whole(m) - Pages(m))
    {
      BufferFree(m.buffer);
      Discard(m);
    }

    /** PVRSRVFreeSyncInfoKM. */
    method FreeSyncInfo(s: SyncInfo) returns (e: Error)
      requires s.refCount == 0 ==> Alone(s.data) && SyncObjects(s) <= live && Apart(s.data) && s.data.pages == null
      modifies `live, s.data.buffer
      ensures e == if s.refCount == 0 then Ok else OutOfMemory
      ensures live == if s.refCount == 0 then old(live) - SyncObjects(s) else old(live)
      ensures s.refCount != 0 ==> unchanged(s.data.buffer)
    {
      if s.refCount != 0 {
        return OutOfMemory;
      }
      FreeDeviceMem(s.data);
      Discard(s);
      return Ok;
    }

    /** One reference to a sync object goes; the last one frees it. */
    method ReleaseSync(s: SyncInfo) returns (e: Error)
      requires s.refCount > 0
      requires s.refCount == 1 ==> Alone(s.data) && SyncObjects(s) <= live && Apart(s.data) && s.data.pages == null
      modifies `live, s, s.data.buffer
      ensures e == Ok && s.refCount == old(s.refCount) - 1
      ensures live == if s.refCount == 0 then old(live) - SyncObjects(s) else old(live)
      ensures s.refCount != 0 ==> unchanged(s.data.buffer)
    {
      s.refCount := s.refCount - 1;
      e := Ok;
      if s.refCount == 0 {
        e := FreeSyncInfo(s);
      }
    }

    /** FreeDeviceMem2: the buffer loses a reference or an export, and the mem-info goes when its
        own count is zero. */
    method FreeDeviceMem2(m: MemInfo, fromAllocator: bool)
      requires {m, m.buffer, m.buffer.mapping} <= live && Apart(m)
      requires if fromAllocator then m.buffer.refCount == 1 && Range(m.buffer) <= live else m.buffer.exportCount > 0
      modifies `live, m.buffer
      ensures m.buffer.refCount == old(m.buffer.refCount) - (if fromAllocator then 1 else 0)
      ensures m.buffer.exportCount == old(m.buffer.exportCount) - (if fromAllocator then 0 else 1)
      ensures live == old(live) - (if fromAllocator then Range(m.buffer) else {})
                      - (if m.buffer.refCount == 0 && m.buffer.exportCount == 0 then {m.buffer, m.buffer.mapping} else {})
                      - (if m.refCount == 0 then {m} else {})
    {
      if fromAllocator {
        BufferFree(m.buffer);
      } else {
        BufferFreeExport(m.buffer);
      }
      if m.refCount == 0 {
        Discard(m);
      }
    }

    /** The kernel's handle for an exported mem-info goes with it. */
    method ReleaseExported(m: MemInfo) returns (e: Error)
      modifies `handles
      ensures e == if m.exported && m !in old(handles) then HandleNotFound else Ok
      ensures handles == if m.exported then old(handles) - {m} else old(handles)
    {
      if m.exported {
        if m !in handles {
          return HandleNotFound;
        }
        handles := handles - {m};
      }
      return Ok;
    }

    /** What a mem-info lets go of by its type: the pages of a wrapped one, the sync object of a
        wrapped or an allocated one. */
    method ReleaseByType(m: MemInfo) returns (e: Error)
      requires m.memType == Wrapped ==> Pages(m) <= live
      requires m.sync != null ==> m.sync.refCount == 1 && Alone(m.sync.data) && SyncObjects(m.sync) <= live && Apart(m.sync.data)
                                  && m.sync.data.pages == null && SyncObjects(m.sync) !! Pages(m)
      modifies `live, SyncFrame(m.sync)
      ensures e == if m.memType == Mapped then InvalidMemInfo else Ok
      ensures live == old(live) - (if m.memType == Wrapped then Pages(m) else {})
                      - (if m.memType == Wrapped || m.memType == Device then SyncObjects(m.sync) else {})
      ensures m.sync != null ==>
                m.sync.refCount == if m.memType == Wrapped || m.memType == Device then 0 else 1
    {
      e := Ok;
      match m.memType
      case Wrapped =>
        if m.pages != null {
          Discard(m.pages);
        }
        if m.sync != null {
          e := ReleaseSync(m.sync);
        }
      case Device =>
        if m.sync != null {
          e := ReleaseSync(m.sync);
        }
      case DeviceClass =>
      case Mapped =>
        e := InvalidMemInfo;
    }

    /** What FreeMemCallBackCommon finds at a source: counts that agree, and the hold on its
        buffer that is about to go. */
    ghost predicate Releasable(m: MemInfo, fromAllocator: bool)
      reads this, m, m.buffer, SyncFrame(m.sync)
    {
      && m.refCount > 0 && m.refCount == m.buffer.refCount + m.buffer.exportCount
      && (m.memType == Device || m.memType == Wrapped) && (m.memType == Device ==> m.pages == null)
      && (m.exported <==> m in handles)
      && Parts(m) <= live && Apart(m)
      && (if fromAllocator then m.buffer.refCount == 1 && Range(m.buffer) <= live
          else m.buffer.refCount <= 1 && m.buffer.exportCount > 0)
      && (m.sync != null && m.refCount == 1 ==>
            m.sync.refCount == 1 && Alone(m.sync.data) && SyncObjects(m.sync) <= live && Apart(m.sync.data)
            && m.sync.data.pages == null && SyncObjects(m.sync) !! Whole(m))
    }

    /** What the last hold takes with it besides the buffer: the exported handle, the pages of
        wrapped memory, and the sync object. */
    method ReleaseLast(m: MemInfo) returns (e: Error)
      requires (m.memType == Device || m.memType == Wrapped) && (m.memType == Device ==> m.pages == null)
      requires (m.exported <==> m in handles) && Pages(m) <= live
      requires m.sync != null ==> m.sync.refCount == 1 && Alone(m.sync.data) && SyncObjects(m.sync) <= live && Apart(m.sync.data)
                                  && m.sync.data.pages == null && SyncObjects(m.sync) !! Pages(m)
      modifies `live, `handles, SyncFrame(m.sync)
      ensures e == Ok && live == old(live) - Pages(m) - SyncObjects(m.sync) && handles == old(handles) - {m}
      ensures m.sync != null ==> m.sync.refCount == 0
    {
      hide SyncObjects, Apart;
      e := ReleaseExported(m);
      if e == Ok {
        e := ReleaseByType(m);
      }
    }

    /** FreeMemCallBackCommon: one hold on a source goes, and with the last one everything that
        belongs to it. */
    method FreeMemCallBackCommon(m: MemInfo, fromAllocator: bool) returns (e: Error)
      requires Releasable(m, fromAllocator)
      modifies `live, `handles, m`refCount, m.buffer, SyncFrame(m.sync)
      ensures e == Ok && m.refCount == old(m.refCount) - 1
      ensures m.buffer.refCount == old(m.buffer.refCount) - (if fromAllocator then 1 else 0)
      ensures m.buffer.exportCount == old(m.buffer.exportCount) - (if fromAllocator then 0 else 1)
      ensures m.sync != null && m.refCount == 0 ==> m.sync.refCount == 0
      ensures m.sync != null && m.refCount != 0 ==> unchanged(m.sync) && (m.sync.data.buffer != m.buffer ==> unchanged(m.sync.data.buffer))
      ensures live == old(live) - (if fromAllocator then Range(m.buffer) else {})
                      - (if m.refCount == 0 then Parts(m) + SyncObjects(m.sync) else {})
      ensures handles == if m.refCount == 0 then old(handles) - {m} else old(handles)
    {
      e := Ok;
      m.refCount := m.refCount - 1;
      if m.refCount == 0 {
        e := ReleaseLast(m);
      }
      if e == Ok {
        FreeDeviceMem2(m, fromAllocator);
      }
    }

    /** FreeMemCallBackCommon leaves everything else in order. */
    method ReleaseHold(m: MemInfo, fromAllocator: bool) returns (e: Error)
      requires Releasable(m, fromAllocator) && OthersOk(w, handles, m) && Framed(w, m, m.sync) && (m.sync != null ==> m.sync.owner == m)
      modifies `live, `handles, m`refCount, m.buffer, SyncFrame(m.sync)
      ensures OthersOk(w, handles, m)
      ensures e == Ok && m.refCount == old(m.refCount) - 1
      ensures m.buffer.refCount == old(m.buffer.refCount) - (if fromAllocator then 1 else 0)
      ensures m.buffer.exportCount == old(m.buffer.exportCount) - (if fromAllocator then 0 else 1)
      ensures m.sync != null && m.refCount == 0 ==> m.sync.refCount == 0
      ensures m.sync != null && m.refCount != 0 ==> unchanged(m.sync) && (old(SyncOk(m.sync)) && m.sync in w.syncs ==> SyncOk(m.sync))
      ensures live == old(live) - (if fromAllocator then Range(m.buffer) else {})
                      - (if m.refCount == 0 then Parts(m) + SyncObjects(m.sync) else {})
      ensures handles == if m.refCount == 0 then old(handles) - {m} else old(handles)
    {
      hide Releasable, Counts, MapsOf, Parts, Range, SyncObjects;
      ghost var s := m.sync;
      e := FreeMemCallBackCommon(m, fromAllocator);
      forall n | n in w.sources && n != m
        ensures SourceOk(w, handles, n)
      {
        FramedAt(w, m, s, n);
      }
      forall d | d in w.maps
        ensures MapOk(d)
      {
        FramedMap(w, m, s, d);
      }
      forall t | t in w.syncs && t.owner != m
        ensures SyncOk(t)
      {
        FramedSync(w, m, s, t);
      }
    }

    // ---------- what a source says of itself ----------

    /** The counters of a source, alive or just gone, are those of its holders. */
    lemma LifeIsEven(m: MemInfo, held: bool, maps: nat, gone: nat)
      requires held == (m in w.held) && maps == |MapsOf(w.maps, m)| && gone == if held || maps > 0 then 0 else 1
      requires m.buffer.refCount == (if held then 1 else 0) && m.buffer.exportCount == maps
      requires m.refCount == m.buffer.refCount + maps
      requires m.sync != null ==> m.sync.refCount == if gone == 1 then 0 else 1 + maps
      requires (m in live <==> gone == 0) && (m.buffer in live <==> gone == 0)
      requires m.sync != null ==> (m.sync in live <==> gone == 0)
      ensures LifeOf(m) == Even(held, maps, m.sync != null)
    {
      hide MapsOf, Balanced;
    }

    /** What Valid says of one source. */
    lemma SourceIs(m: MemInfo)
      requires Valid() && m in w.sources
      ensures SourceOk(w, handles, m) && Framed(w, m, m.sync) && Parts(m) <= live && m in live && m.buffer in live
      ensures m.sync != null ==> m.sync in live && m.sync in w.syncs && m.sync.owner == m && SyncOk(m.sync)
      ensures forall t :: t in w.syncs && t.owner == m ==> t == m.sync
      ensures OthersOk(w, handles, m)
      ensures LifeOf(m) == Even(m in w.held, |MapsOf(w.maps, m)|, m.sync != null)
    {
      hide Objects, Counts, Apart, Alone, Disjoint, MapsOf, Even, Framed, LifeOf, MapOk, OthersOk, Parts;
      Allocated(w);
      CountersOf(w, handles, m);
      SourceFramed(w, m, m.sync);
      StatesOthers(m);
      LifeIsEven(m, m in w.held, |MapsOf(w.maps, m)|, 0);
    }

    lemma ReadyToFree(m: MemInfo)
      requires Valid() && m in w.held
      ensures m in w.sources && Releasable(m, true)
    {
      hide Objects, Disjoint, Parts, Range, Counts, Apart, Framed, OthersOk, LifeOf, Even, MapsOf;
      SourceIs(m);
      CountersOf(w, handles, m);
      Allocated(w);
      BuffersOf(w, m, m.sync);
    }

    ghost method Reshape(v: Shape, x: MemInfo)
      requires OthersOk(v, handles, x)
      modifies `w
      ensures w == v && OthersOk(w, handles, x) && (x in v.sources && old(SourceOk(v, handles, x)) ==> SourceOk(w, handles, x))
      ensures x.sync != null && old(SyncOk(x.sync)) ==> SyncOk(x.sync)
    {
      hide Counts, MapsOf;
      w := v;
    }

    /** What is left to say after a hold on `m` is gone: without a hold it is no source. */
    ghost method Settle(m: MemInfo)
      requires Separate(w) && m in w.sources && OthersOk(w, handles, m) && handles <= w.sources
      requires m.buffer.refCount == (if m in w.held then 1 else 0) && m.buffer.exportCount == |MapsOf(w.maps, m)|
      requires m.refCount == m.buffer.refCount + m.buffer.exportCount
      requires live == Objects(w) - (if m.refCount == 0 then Parts(m) + SyncObjects(m.sync) else {})
      requires m !in w.held ==> Range(m.buffer) !! Objects(w)
      requires if m.refCount == 0 then m !in handles else m.exported <==> m in handles
      requires (m.memType == Device || m.memType == Wrapped) && (m.memType == Device ==> m.pages == null)
      requires m.sync != null ==> m.sync in w.syncs && m.sync.owner == m
                                  && m.sync.refCount == if m.refCount == 0 then 0 else 1 + m.buffer.exportCount
      requires m.refCount != 0 && m.sync != null ==> SyncOk(m.sync)
      requires forall t :: t in w.syncs && t.owner == m ==> t == m.sync
      modifies `w
      ensures Valid()
      ensures w == if m.refCount == 0 then old(w).(sources := old(w.sources) - {m}, syncs := WithoutSync(old(w.syncs), m.sync)) else old(w)
      ensures LifeOf(m) == Even(m in old(w.held), |MapsOf(old(w.maps), m)|, m.sync != null)
    {
      hide Objects, Separate, Parts, Range, Apart, SyncObjects, MapsOf, Alone, Counts, Even, Whole, Pages, Balanced, Framed, LifeOf,
        Typed, Mems, Owners, SourceOk, MapOk, SyncOk, OthersOk, States, Valid;
      OwnParts(m, m.sync);
      if m.refCount == 0 {
        assert MapsOf(w.maps, m) == {};
        SourceGoneKeeps(w, m, m.sync);
        ghost var v := w.(sources := w.sources - {m}, syncs := WithoutSync(w.syncs, m.sync));
        OthersShape(w, v, handles, m);
        Reshape(v, m);
        LifeIsEven(m, false, 0, 1);
      } else {
        Allocated(w);
        CountersMake(w, handles, m);
        LifeIsEven(m, m in w.held, m.buffer.exportCount, 0);
      }
      OthersStates(m);
    }

    /** FreeDeviceMemCallBack and UnwrapExtMemoryCallBack: the allocator frees its memory. */
    method FreeCallBack(m: MemInfo) returns (e: Error)
      requires Valid() && m in w.held
      modifies `live, `handles, `w, m`refCount, m.buffer, SyncFrame(m.sync)
      ensures Valid() && e == Ok && w.maps == old(w.maps) && w.held == old(w.held) - {m} && w.leaked == old(w.leaked)
      ensures LifeOf(m) == Next(old(LifeOf(m)), Free)
    {
      hide Objects, Separate, Parts, Range, Apart, SyncObjects, Releasable, MapsOf, Alone, Counts, Next, Even, Whole, Pages, Balanced, Enabled,
        Framed, LifeOf, Typed, Mems, Owners, MapOk, OthersOk, States;
      ReadyToFree(m);
      SourceIs(m);
      CountersOf(w, handles, m);
      ghost var s, n := m.sync, |MapsOf(w.maps, m)|;
      FreeEven(n, s != null);
      UnholdKeeps(w, m);
      OwnParts(m, s);
      e := ReleaseHold(m, true);
      ghost var v := w.(held := w.held - {m});
      OthersShape(w, v, handles, m);
      Reshape(v, m);
      Settle(m);
    }

    // ---------- mapping ----------

    method NewToken() returns (t: Token)
      modifies `live
      ensures fresh(t) && t !in KnownIn(w) && live == old(live) + {t} && t !in old(live)
    {
      ghost var known := KnownIn(w);
      t := new Token();
      live := live + {t};
    }

    /** A mem-info with a buffer of its own; `range` is null for a RAM-backed one. */
    method NewMemInfo(mapping: Token, range: Token?, pages: Token?, memType: MemType) returns (m: MemInfo)
      requires mapping !in KnownIn(w) && range !in KnownIn(w) && pages !in KnownIn(w) && mapping != range && mapping != pages
      requires range != null ==> range != pages
      modifies `live
      ensures fresh(m) && fresh(m.buffer) && Alone(m) && m.refCount == 0 && m.sync == null && !m.exported && m.memType == memType
      ensures m.pages == pages && m.buffer.mapping == mapping && m.buffer.range == range
      ensures Apart(m) && Unused(Mems(w), w.leaked, m) && Whole(m) == {m, m.buffer, mapping} + Range(m.buffer) + Pages(m)
      ensures live == old(live) + {m, m.buffer}
    {
      ghost var known, v := KnownIn(w), w;
      var b := new Buffer(mapping, range);
      assert b !in known;
      m := new MemInfo(b, pages, memType);
      assert m !in known;
      live := live + {m, b};
      NewUnused(v, known, m);
    }

    /** The mem-info of a mapping with its page list. */
    method NewMapInfo(src: MemInfo) returns (info: MemInfo)
      modifies `live
      ensures fresh(info) && fresh(info.buffer) && Alone(info) && info.sync == src.sync && info.pages != null
      ensures Unused(Mems(w), w.leaked, info) && live == old(live) + Whole(info)
    {
      hide Mems, Unused, KnownIn, Apart;
      var pages := NewToken();
      var mapping := NewToken();
      var range := NewToken();
      info := NewMemInfo(mapping, range, pages, Mapped);
      info.sync := src.sync;
      info.refCount := info.refCount + 1;
    }

    /** Making it leaves everything else in order. */
    method MakeMapInfo(src: MemInfo) returns (info: MemInfo)
      requires OthersOk(w, handles, src)
      modifies `live
      ensures fresh(info) && fresh(info.buffer) && Alone(info) && info.sync == src.sync && info.pages != null
      ensures Unused(Mems(w), w.leaked, info) && live == old(live) + Whole(info) && OthersOk(w, handles, src)
    {
      hide Counts, MapsOf, Mems, Unused, Whole;
      info := NewMapInfo(src);
    }

    /** The counts a mapping raises at its source. */
    method RaiseCounts(src: MemInfo)
      requires OthersOk(w, handles, src) && Framed(w, src, src.sync) && (src.sync != null ==> src.sync.owner == src)
      modifies src`refCount, src.buffer, src.sync
      ensures src.refCount == old(src.refCount) + 1
      ensures src.buffer.exportCount == old(src.buffer.exportCount) + 1 && src.buffer.refCount == old(src.buffer.refCount)
      ensures src.sync != null ==> src.sync.refCount == old(src.sync.refCount) + 1
      ensures src.sync != null && src.sync in w.syncs && old(SyncOk(src.sync)) ==> SyncOk(src.sync)
      ensures OthersOk(w, handles, src)
    {
      hide Counts, MapsOf;
      if src.sync != null {
        src.sync.refCount := src.sync.refCount + 1;
      }
      src.refCount := src.refCount + 1;
      src.buffer.exportCount := src.buffer.exportCount + 1;
    }

    method NewMapData(info: MemInfo, src: MemInfo) returns (d: MapData)
      requires OthersOk(w, handles, src)
      modifies `live
      ensures fresh(d) && d.src == src && d.info == info && live == old(live) + {d} && OthersOk(w, handles, src)
    {
      hide Counts, MapsOf;
      d := new MapData(info, src);
      live := live + {d};
    }

    /** The mapping is made and counted. */
    method Attach(src: MemInfo) returns (d: MapData)
      requires Valid() && src in w.sources
      modifies `live, `w, src`refCount, src.buffer, src.sync
      ensures Valid() && fresh(d) && d.src == src && w == WithMap(old(w), d)
      ensures LifeOf(src) == Next(old(LifeOf(src)), Map)
    {
      hide Objects, Separate, Parts, Range, Apart, SyncObjects, MapsOf, Alone, Counts, Next, Even, Whole, Pages, Balanced, Enabled,
        Framed, LifeOf, Typed, Mems, Owners, OthersOk, States, AllParts, AllRanges, Unused, KnownIn;
      SourceIs(src);
      CountersOf(w, handles, src);
      ghost var s, n, h := src.sync, |MapsOf(w.maps, src)|, src in w.held;
      MapEven(h, n, s != null);
      var info := MakeMapInfo(src);
      RaiseCounts(src);
      d := NewMapData(info, src);
      AddMapKeeps(w, d);
      MapsOfMore(w.maps, d, src);
      OthersMap(w, handles, d);
      Reshape(WithMap(w, d), src);
      CountersMake(w, handles, src);
      LifeIsEven(src, h, n + 1, 0);
      OthersStates(src);
    }

    /** PVRSRVMapDeviceMemoryKM: a mapping holds its source by both counts and shares its sync
        object. The flags say whether the page list, the record and the mem-info, and BM_Wrap
        succeed; what was made before a failure is given back. */
    method MapDeviceMemory(src: MemInfo, pagesOk: bool, memOk: bool, wrapOk: bool) returns (e: Error, d: MapData?)
      requires Valid() && src in w.sources
      modifies `live, `w, src`refCount, src.buffer, src.sync
      ensures Valid() && (e == Ok <==> d != null)
      ensures e == if !pagesOk || !memOk then OutOfMemory else if !wrapOk then BadMapping else Ok
      ensures e != Ok ==> live == old(live) && w == old(w) && LifeOf(src) == old(LifeOf(src))
      ensures e == Ok ==> fresh(d) && d.src == src && w == WithMap(old(w), d)
      ensures e == Ok ==> LifeOf(src) == Next(old(LifeOf(src)), Map)
    {
      hide Objects, Separate, Alone, Next, LifeOf, States, KnownIn;
      if !pagesOk {
        return OutOfMemory, null;
      }
      if !memOk || !wrapOk {
        var pages := NewToken();
        Discard(pages);
        return if memOk then BadMapping else OutOfMemory, null;
      }
      d := Attach(src);
      return Ok, d;
    }

    /** The first half of UnmapDeviceMemoryCallBack: the mapping's pages, its reference to the sync
        object, and its mem-info go. */
    method DropMapping(d: MapData) returns (e: Error)
      requires Alone(d.info) && d.info.pages != null && Whole(d.info) <= live && Apart(d.info)
      requires d.info.sync != null ==> d.info.sync.refCount > 1
      modifies `live, d.info.buffer, SyncFrame(d.info.sync)
      ensures e == Ok && live == old(live) - Whole(d.info)
      ensures d.info.sync != null ==> d.info.sync.refCount == old(d.info.sync.refCount) - 1
      ensures d.info.sync != null && d.info.sync.data.buffer != d.info.buffer ==> unchanged(d.info.sync.data.buffer)
    {
      Discard(d.info.pages);
      e := Ok;
      if d.info.sync != null {
        e := ReleaseSync(d.info.sync);
      }
      if e == Ok {
        FreeDeviceMem(d.info);
      }
    }

    method DetachMapping(d: MapData) returns (e: Error)
      requires Alone(d.info) && d.info.pages != null && Whole(d.info) <= live && Apart(d.info) && d.info.sync == d.src.sync
      requires d.info !in w.sources
      requires d.info.sync != null ==> d.info.sync.refCount > 1 && d.info.sync.owner == d.src && d.info.sync in w.syncs
      requires OthersOk(w, handles, d.src) && Framed(w, d.info, null)
      modifies `live, d.info.buffer, SyncFrame(d.info.sync)
      ensures e == Ok && live == old(live) - Whole(d.info)
      ensures d.info.sync != null ==> d.info.sync.refCount == old(d.info.sync.refCount) - 1
      ensures d.info.sync != null ==> d.info.sync.data.buffer != d.info.buffer && unchanged(d.info.sync.data.buffer)
      ensures OthersOk(w, handles, d.src)
    {
      hide Counts, MapsOf, Whole, Pages;
      ghost var v := w;
      e := DropMapping(d);
      forall n | n in v.sources && n != d.src
        ensures SourceOk(v, handles, n)
      {
        FramedAt(v, d.info, null, n);
      }
      forall c | c in v.maps
        ensures MapOk(c)
      {
        FramedMap(v, d.info, null, c);
      }
      forall t | t in v.syncs && t.owner != d.src
        ensures SyncOk(t)
      {
        FramedSync(v, d.info, null, t);
      }
    }

    ghost method DiscardRecord(d: MapData)
      requires d in live && OthersOk(w, handles, d.src)
      modifies `live
      ensures live == old(live) - {d} && OthersOk(w, handles, d.src)
      ensures d.src.sync != null && old(SyncOk(d.src.sync)) ==> SyncOk(d.src.sync)
    {
      hide Counts, MapsOf;
      live := live - {d};
    }

    /** What Valid says of a mapping. */
    lemma MapIs(d: MapData)
      requires Valid() && d in w.maps
      ensures MapOk(d) && Whole(d.info) <= live && d in live
    {
      hide Objects, Separate, Alone, Counts, Whole;
      Allocated(w);
    }

    lemma ReadyToUnmap(m: MemInfo)
      requires m.refCount == m.buffer.refCount + m.buffer.exportCount && m.buffer.refCount <= 1 && m.buffer.exportCount > 0
      requires (m.memType == Device || m.memType == Wrapped) && (m.memType == Device ==> m.pages == null)
      requires (m.exported <==> m in handles) && Parts(m) <= live && Apart(m)
      requires m.sync != null ==> m.sync.refCount == m.refCount - m.buffer.refCount && SyncOk(m.sync) && SyncObjects(m.sync) <= live
                                  && Apart(m.sync.data) && SyncObjects(m.sync) !! Whole(m)
      ensures Releasable(m, false)
    {
      hide Parts, Apart, SyncObjects, Whole, Alone;
    }

    /** The second half of UnmapDeviceMemoryCallBack: the source loses the hold, and the record
        goes. */
    method FinishUnmap(d: MapData) returns (e: Error)
      requires Releasable(d.src, false) && live == Objects(w) + {d} && d !in Objects(w)
      requires Separate(w) && d.src in w.sources && OthersOk(w, handles, d.src) && handles <= w.sources && Framed(w, d.src, d.src.sync)
      requires d.src.buffer.refCount == (if d.src in w.held then 1 else 0) && d.src.buffer.exportCount == |MapsOf(w.maps, d.src)| + 1
      requires d.src !in w.held ==> Range(d.src.buffer) !! Objects(w)
      requires d !in Parts(d.src) && d !in SyncObjects(d.src.sync)
      requires d.src.sync != null ==> d.src.sync in w.syncs && d.src.sync.owner == d.src && SyncOk(d.src.sync)
                                      && d.src.sync.refCount == d.src.buffer.exportCount
      requires forall t :: t in w.syncs && t.owner == d.src ==> t == d.src.sync
      modifies `live, `handles, `w, d.src`refCount, d.src.buffer, SyncFrame(d.src.sync)
      ensures Valid() && e == Ok && w.maps == old(w.maps) && w.held == old(w.held) && w.leaked == old(w.leaked)
      ensures LifeOf(d.src) == Even(d.src in old(w.held), |MapsOf(old(w.maps), d.src)|, d.src.sync != null)
      ensures live <= old(live) - {d}
    {
      hide Objects, Separate, Parts, Range, Apart, SyncObjects, MapsOf, Even, Whole, Pages, Balanced, Framed, LifeOf, Typed, Mems, Owners,
        OthersOk, States, Alone;
      e := ReleaseHold(d.src, false);
      DiscardRecord(d);
      Settle(d.src);
    }

    /** What is true of the source once the shape has lost the mapping. */
    lemma WithoutMap(d: MapData)
      requires Valid() && d in w.maps
      ensures var v, m, s := w.(maps := w.maps - {d}), d.src, d.src.sync;
              && Separate(v) && Objects(v) == Objects(w) - Whole(d.info) - {d} && OthersOk(v, handles, m)
              && m in v.sources && d.info !in v.sources && d.info.buffer != m.buffer && d !in Whole(d.info)
              && Framed(v, m, s) && Framed(v, d.info, null) && Apart(d.info) && Apart(m)
              && (m !in v.held ==> Range(m.buffer) !! Objects(v))
              && |MapsOf(v.maps, m)| == |MapsOf(w.maps, m)| - 1
              && Parts(m) <= Objects(v) && d !in Parts(m) && d !in SyncObjects(s)
              && (s != null ==> Apart(s.data) && SyncObjects(s) <= Objects(v) && SyncObjects(s) !! Whole(m) && s.data.buffer != d.info.buffer)
    {
      hide Objects, Separate, Parts, Range, Apart, SyncObjects, MapsOf, Counts, Even, Whole, Balanced, Framed, LifeOf, Typed, Mems, Owners,
        OthersOk, States;
      var v, m, s := w.(maps := w.maps - {d}), d.src, d.src.sync;
      MapFramed(w, d);
      SourceIs(m);
      MapsOfLess(w.maps, d);
      RemoveMapKeeps(w, d);
      SourceFramed(v, m, s);
      BuffersOf(w, m, s);
      Allocated(v);
      OthersShape(w, v, handles, m);
      if m !in v.held {
        UnheldRange(v, m);
      }
    }

    /** UnmapDeviceMemoryCallBack: a mapping goes, and its hold on the source with it. */
    method UnmapCallBack(d: MapData) returns (e: Error)
      requires Valid() && d in w.maps
      modifies `live, `handles, `w, d.info.buffer, d.src`refCount, d.src.buffer, SyncFrame(d.src.sync)
      ensures Valid() && e == Ok && w.maps == old(w.maps) - {d} && w.held == old(w.held) && w.leaked == old(w.leaked)
      ensures |MapsOf(old(w.maps), d.src)| > 0 && LifeOf(d.src) == Next(old(LifeOf(d.src)), Unmap)
      ensures d !in live && Whole(d.info) !! live
    {
      hide Objects, Separate, Parts, Range, Apart, SyncObjects, MapsOf, Counts, Next, Even, Whole, Pages, Balanced, Enabled,
        Framed, LifeOf, Typed, Mems, Owners, OthersOk, States, Infos, Datas, Disjoint, AllParts, AllRanges;
      var src := d.src;
      ghost var v := w.(maps := w.maps - {d});
      WithoutMap(d);
      SourceIs(src);
      CountersOf(w, handles, src);
      ghost var s, n, h := src.sync, |MapsOf(w.maps, src)|, src in w.held;
      MapIs(d);
      UnmapEven(h, n, s != null);
      Reshape(v, src);
      e := DetachMapping(d);
      if e == Ok {
        ReadyToUnmap(src);
        e := FinishUnmap(d);
      }
    }

    // ---------- allocation ----------

    /** A source under construction: everything is in order but its own count. */
    ghost predicate Pending(m: MemInfo)
      reads *
    {
      && live == Objects(w) && Separate(w) && handles <= w.sources && OthersOk(w, handles, m)
      && m in w.sources && m in w.held && m !in handles && !m.exported && m.refCount == 0 && Alone(m) && MapsOf(w.maps, m) == {}
      && (m.memType == Device || m.memType == Wrapped) && (m.memType == Device ==> m.pages == null)
      && (m.sync != null ==> m.sync in w.syncs && m.sync.owner == m && m.sync.refCount == 1 && SyncOk(m.sync))
      && (forall t :: t in w.syncs && t.owner == m ==> t == m.sync)
    }

    /** AllocDeviceMem: a mem-info with a RAM-backed buffer. */
    method NewRamBacked() returns (m: MemInfo)
      modifies `live
      ensures fresh(m) && fresh(m.buffer) && Alone(m) && m.refCount == 0 && m.sync == null && !m.exported && m.memType == Device
      ensures m.pages == null && Apart(m) && Unused(Mems(w), w.leaked, m) && live == old(live) + Whole(m) && fresh(Whole(m))
    {
      hide Mems, AllParts, AllRanges;
      var mapping := NewToken();
      m := NewMemInfo(mapping, null, null, Device);
    }

    /** The mem-info and buffer of BM_Wrap; memory given by a linear address has its page list. */
    method NewWrapped(linear: bool) returns (m: MemInfo)
      modifies `live
      ensures fresh(m) && fresh(m.buffer) && Alone(m) && m.refCount == 0 && m.sync == null && !m.exported && m.memType == Wrapped
      ensures (m.pages != null <==> linear) && Apart(m) && Unused(Mems(w), w.leaked, m) && live == old(live) + Whole(m) && fresh(Whole(m))
    {
      hide Mems, AllParts, AllRanges;
      var pages: Token? := null;
      if linear {
        pages := NewToken();
      }
      var mapping := NewToken();
      var range := NewToken();
      m := NewMemInfo(mapping, range, pages, Wrapped);
    }

    /** Making either leaves everything else in order. */
    method MakeInfo(wrapped: bool, linear: bool) returns (m: MemInfo)
      requires OthersOk(w, handles, null)
      modifies `live
      ensures fresh(m) && fresh(m.buffer) && Alone(m) && m.refCount == 0 && m.sync == null && !m.exported
      ensures m.memType == (if wrapped then Wrapped else Device) && (m.pages != null <==> wrapped && linear)
      ensures Unused(Mems(w), w.leaked, m) && live == old(live) + Whole(m) && fresh(Whole(m)) && OthersOk(w, handles, m)
    {
      hide Counts, MapsOf, Mems, Unused, Whole, KnownIn, Apart;
      if wrapped {
        m := NewWrapped(linear);
      } else {
        m := NewRamBacked();
      }
      OthersLess(w, handles, m);
    }

    /** A source under construction: its mem-info and its buffer. */
    method StartSource(wrapped: bool, linear: bool) returns (m: MemInfo)
      requires Valid()
      modifies `live, `w
      ensures Pending(m) && fresh(m) && fresh(m.buffer) && m.sync == null && live == old(live) + Whole(m) && fresh(Whole(m))
      ensures m.memType == (if wrapped then Wrapped else Device) && (m.pages != null <==> wrapped && linear)
      ensures w == old(w).(sources := old(w.sources) + {m}, held := old(w.held) + {m})
    {
      hide Objects, Separate, Typed, Mems, Owners, MapsOf, Alone, Counts, OthersOk, Unused, KnownIn, AllParts, AllRanges, Whole, States;
      StatesOthers(null);
      m := MakeInfo(wrapped, linear);
      AddSourceKeeps(w, m);
      ghost var v := w.(sources := w.sources + {m}, held := w.held + {m});
      OthersShape(w, v, handles, m);
      NothingOf(w, m);
      Reshape(v, m);
    }

    /** PVRSRVAllocSyncInfoKM: a sync object and the memory of its counters. */
    method AllocSyncInfo(ghost owner: MemInfo) returns (s: SyncInfo)
      requires OthersOk(w, handles, owner)
      modifies `live
      ensures fresh(s) && s.owner == owner && s.refCount == 0 && Alone(s.data) && s.data.pages == null && fresh(s.data.buffer)
      ensures Unused(Mems(w), w.leaked, s.data) && live == old(live) + SyncObjects(s) && fresh(SyncObjects(s))
      ensures OthersOk(w, handles, owner)
    {
      hide Counts, MapsOf, Mems, Unused, Whole, KnownIn, Apart;
      var data := NewRamBacked();
      s := new SyncInfo(data, owner);
      live := live + {s};
    }

    /** The source gets its sync object, with one reference. */
    method GiveSync(m: MemInfo)
      requires Pending(m) && m.sync == null
      modifies `live, `w, m`sync
      ensures Pending(m) && fresh(m.sync) && w == old(w).(syncs := old(w.syncs) + {m.sync})
      ensures live == old(live) + SyncObjects(m.sync) && fresh(SyncObjects(m.sync))
    {
      hide Objects, Separate, Typed, Mems, Owners, MapsOf, Alone, Counts, OthersOk, Unused, KnownIn, AllParts, AllRanges, Whole, SyncObjects;
      var s := AllocSyncInfo(m);
      AddSyncKeeps(w, s);
      ghost var v := w.(syncs := w.syncs + {s});
      OthersShape(w, v, handles, m);
      NotMapped(w, m);
      SetSync(m, s, v);
    }

    method SetSync(m: MemInfo, s: SyncInfo, ghost v: Shape)
      requires OthersOk(v, handles, m) && Alone(s.data) && s.data.pages == null && s.owner == m && m in v.sources
      requires forall n :: n in v.sources && n != m && n.sync != null ==> n.sync != s
      requires forall d :: d in v.maps ==> d.src != m && d.info != m
      modifies m`sync, s`refCount, `w
      ensures w == v && OthersOk(w, handles, m) && m.sync == s && s.refCount == old(s.refCount) + 1 && SyncOk(s)
    {
      hide Counts, MapsOf;
      m.sync := s;
      s.refCount := s.refCount + 1;
      w := v;
    }

    lemma NotMapped(v: Shape, m: MemInfo)
      requires Separate(v) && m in v.sources && MapsOf(v.maps, m) == {}
      ensures forall d :: d in v.maps ==> d.src != m && d.info != m
    {
      hide Disjoint;
      forall d | d in v.maps
        ensures d.src != m && d.info != m
      {
        assert d.src == m ==> d in MapsOf(v.maps, m);
        assert d.info in Infos(v.maps);
      }
    }

    method SetCount(m: MemInfo)
      requires OthersOk(w, handles, m)
      modifies m`refCount
      ensures OthersOk(w, handles, m) && m.refCount == old(m.refCount) + 1
      ensures m.sync != null && old(SyncOk(m.sync)) ==> SyncOk(m.sync)
    {
      hide Counts, MapsOf;
      m.refCount := m.refCount + 1;
    }

    /** The count of the source itself comes last. */
    method FinishSource(m: MemInfo)
      requires Pending(m)
      modifies m`refCount
      ensures Valid() && LifeOf(m) == Start(m.sync != null)
    {
      hide Objects, Separate, Typed, Mems, Owners, MapsOf, Counts, OthersOk, LifeOf, Even, Balanced, States, SourceOk;
      SetCount(m);
      Allocated(w);
      CountersMake(w, handles, m);
      LifeIsEven(m, true, 0, 0);
      StartEven(m.sync != null);
      OthersStates(m);
    }

    ghost method ReleaseShape(m: MemInfo)
      requires Pending(m)
      modifies `w
      ensures OthersOk(w, handles, m) && Separate(w) && live == Objects(w) + Whole(m) && Whole(m) !! Objects(w)
      ensures Framed(w, m, null) && Apart(m)
      ensures w.sources == old(w.sources) - {m} && w.held == old(w.held) - {m} && w.maps == old(w.maps)
      ensures w.syncs == WithoutSync(old(w.syncs), m.sync) && w.leaked == old(w.leaked) + SyncObjects(m.sync)
    {
      hide Objects, Separate, Typed, Mems, Owners, MapsOf, Counts, OthersOk, Parts, Range, Alone;
      ghost var v := w;
      SourceFramed(v, m, null);
      BuffersOf(v, m, null);
      if m.sync != null {
        LeakSyncKeeps(v, m.sync);
        v := v.(syncs := v.syncs - {m.sync}, leaked := v.leaked + SyncObjects(m.sync));
      }
      Allocated(v);
      UnholdKeeps(v, m);
      v := v.(held := v.held - {m});
      RemoveSourceKeeps(v, m);
      v := v.(sources := v.sources - {m});
      OthersShape(w, v, handles, m);
      Reshape(v, m);
    }

    method FreeUndone(m: MemInfo)
      requires Alone(m) && Whole(m) <= live && Apart(m) && OthersOk(w, handles, m) && Framed(w, m, null) && m !in w.sources
      modifies `live, m.buffer
      ensures live == old(live) - Whole(m) && OthersOk(w, handles, m)
    {
      hide Counts, MapsOf, Whole, Apart;
      OwnWhole(m);
      FreeDeviceMem(m);
      if m.pages != null {
        Discard(m.pages);
      }
    }

    /** What was made so far goes again; a sync object stays behind, lost. */
    method UndoSource(m: MemInfo)
      requires Pending(m)
      modifies `live, `w, m.buffer
      ensures Valid() && w.sources == old(w.sources) - {m} && w.held == old(w.held) - {m} && w.maps == old(w.maps)
      ensures w.syncs == WithoutSync(old(w.syncs), m.sync) && w.leaked == old(w.leaked) + SyncObjects(m.sync)
      ensures live == old(live) - Whole(m)
    {
      hide Objects, Separate, Typed, Mems, Owners, MapsOf, Counts, OthersOk, Parts, Range;
      ReleaseShape(m);
      FreeUndone(m);
      OthersStates(m);
    }

    /** _PVRSRVAllocDeviceMemKM. When the resource manager refuses a source that has its sync
        object already, that object is lost. */
    method AllocDeviceMemory(heap: bool, cached: bool, size: nat, alignment: nat, pageSize: nat, noSync: bool, noResMan: bool, memOk: bool,
                             syncOk: bool, registerOk: bool)
      returns (e: Error, m: MemInfo?)
      requires Valid() && pageSize > 0
      modifies `live, `w
      ensures Valid() && (e == Ok <==> m != null) && w.maps == old(w.maps)
      ensures e == InvalidParams <==> !heap || size == 0 || (cached && (size % pageSize != 0 || alignment % pageSize != 0))
      ensures e == OutOfMemory <==> e != InvalidParams && !(memOk && (noSync || syncOk) && (noResMan || registerOk))
      ensures e == Ok ==> fresh(m) && AddedSource(old(w), w, m) && LifeOf(m) == Start(!noSync) && m.memType == Device
      ensures e != Ok ==> w.sources == old(w.sources) && w.held == old(w.held) && w.syncs == old(w.syncs)
      ensures e != Ok ==> live == old(live) + (w.leaked - old(w.leaked)) && old(w.leaked) <= w.leaked
      ensures w.leaked != old(w.leaked) <==> e == OutOfMemory && memOk && !noSync && syncOk
    {
      hide Objects, Separate, Typed, Mems, Owners, OthersOk, Unused, KnownIn, AllParts, AllRanges, Whole, States, Pending, LifeOf;
      if !heap || size == 0 {
        return InvalidParams, null;
      }
      if cached && (size % pageSize != 0 || alignment % pageSize != 0) {
        return InvalidParams, null;
      }
      if !memOk {
        return OutOfMemory, null;
      }
      m := StartSource(false, false);
      if !noSync {
        if !syncOk {
          UndoSource(m);
          return OutOfMemory, null;
        }
        GiveSync(m);
      }
      if !noResMan && !registerOk {
        UndoSource(m);
        return OutOfMemory, null;
      }
      FinishSource(m);
      return Ok, m;
    }

    /** PVRSRVWrapExtMemoryKM: memory of the caller, given by a linear address or by its pages. The
        flags say whether the device and its mapping heap exist and whether the page list, the
        pages, the mem-info, BM_Wrap and the sync object can be had. */
    method WrapExtMemory(device: bool, linear: bool, listOk: bool, pagesOk: bool, heapOk: bool, memOk: bool, wrapOk: bool, syncOk: bool)
      returns (e: Error, m: MemInfo?)
      requires Valid()
      modifies `live, `w
      ensures Valid() && (e == Ok <==> m != null)
      ensures e == if !device then InvalidParams
                   else if linear && !(listOk && pagesOk) then OutOfMemory
                   else if !heapOk then NoMappingHeap
                   else if !memOk then OutOfMemory
                   else if !wrapOk then BadMapping
                   else if !syncOk then OutOfMemory else Ok
      ensures e == Ok ==> fresh(m) && AddedSource(old(w), w, m) && LifeOf(m) == Start(true) && m.memType == Wrapped
                          && (m.pages != null <==> linear)
      ensures e != Ok ==> live == old(live) && w == old(w)
    {
      hide Objects, Separate, Typed, Mems, Owners, OthersOk, Unused, KnownIn, AllParts, AllRanges, Whole, States, Pending, LifeOf;
      if !device {
        return InvalidParams, null;
      }
      if linear && !(listOk && pagesOk) {
        return OutOfMemory, null;
      }
      if !heapOk {
        return NoMappingHeap, null;
      }
      if !memOk {
        return OutOfMemory, null;
      }
      if !wrapOk {
        return BadMapping, null;
      }
      m := StartSource(true, linear);
      if !syncOk {
        UndoSource(m);
        return OutOfMemory, null;
      }
      GiveSync(m);
      FinishSource(m);
      return Ok, m;
    }

    /** The export half of PVRSRVExportDeviceMemBW: a source gets one handle for all processes. */
    method ExportDeviceMem(m: MemInfo, handleOk: bool) returns (e: Error)
      requires Valid() && m in w.sources
      modifies `handles, m`exported
      ensures Valid() && LifeOf(m) == old(LifeOf(m))
      ensures e == if m in old(handles) || handleOk then Ok else OutOfMemory
      ensures handles == if e == Ok then old(handles) + {m} else old(handles)
    {
      hide Objects, Separate, Counts, MapsOf;
      if m in handles {
        return Ok;
      }
      if !handleOk {
        return OutOfMemory;
      }
      handles := handles + {m};
      m.exported := true;
      return Ok;
    }

    /** A source lives exactly as long as somebody holds it. */
    lemma SourceHeld(m: MemInfo)
      requires Valid() && m in w.sources
      ensures m in w.held || exists d :: d in w.maps && d.src == m
    {
      hide Objects, Separate, Counts;
      CountersOf(w, handles, m);
      if m !in w.held {
        var d :| d in MapsOf(w.maps, m);
      }
    }

    /** When no allocator and no mapping is left, nothing is left allocated but what was lost. */
    lemma NothingLeft()
      requires Valid() && w.held == {} && w.maps == {}
      ensures live == w.leaked && handles == {}
    {
      forall m | m in w.sources
        ensures false
      {
        SourceHeld(m);
      }
      assert w.sources == {};
      assert w.syncs == {} by {
        forall s | s in w.syncs
          ensures false
        {
          assert s.owner in w.sources;
        }
      }
      assert Mems(w) == {} && Owners(w) == {};
    }
  }

  /** An allocation with a sync object that the resource manager refuses: nothing has a holder
      any more, and the objects of the sync object are still there. */
  method LoseSync() returns (k: DeviceMemory, e: Error)
    ensures fresh(k) && k.Valid() && e == OutOfMemory
    ensures k.w.held == {} && k.w.maps == {} && k.live == k.w.leaked != {}
  {
    k := new DeviceMemory();
    var m;
    e, m := k.AllocDeviceMemory(true, false, 4096, 4096, 4096, false, false, true, true, false);
  }
}
