/** The objects of device memory: mem-infos, their buffers and their sync objects, and which of
    them are allocated (src/services4/srvkm/common/devicemem.c and
    src/services4/srvkm/common/buffer_manager.c). */
module LifeObjects {
  // ---------- the objects ----------

  datatype Error = Ok | InvalidParams | OutOfMemory | BadMapping | NoMappingHeap | InvalidMemInfo | HandleNotFound
  datatype MemType = Device | Wrapped | Mapped | DeviceClass

  /** A resource without state here: an arena region, a mapping structure, a device address
      range, a page list. */
  class Token {
    constructor () {}
  }

  /** A buffer is RAM-backed, with a region of its heap's arena, or has a mapping of its own with
      a device address range. */
  class Buffer {
    var refCount: nat
    var exportCount: nat
    const mapping: Token
    const range: Token?

    constructor (mapping: Token, range: Token?)
      ensures refCount == 1 && exportCount == 0 && this.mapping == mapping && this.range == range
    {
      this.mapping, this.range, refCount, exportCount := mapping, range, 1, 0;
    }
  }

  class MemInfo {
    var refCount: nat
    var exported: bool
    var memType: MemType
    var sync: SyncInfo?
    const buffer: Buffer
    const pages: Token?

    constructor (buffer: Buffer, pages: Token?, memType: MemType)
      ensures refCount == 0 && !exported && sync == null && this.buffer == buffer && this.pages == pages && this.memType == memType
    {
      this.buffer, this.pages, this.memType, refCount, exported, sync := buffer, pages, memType, 0, false, null;
    }
  }

  /** A sync object, made for one mem-info. */
  class SyncInfo {
    var refCount: nat
    const data: MemInfo
    ghost const owner: MemInfo

    constructor (data: MemInfo, ghost owner: MemInfo)
      ensures refCount == 0 && this.data == data && this.owner == owner
    {
      this.data, this.owner, refCount := data, owner, 0;
    }
  }

  class MapData {
    const info: MemInfo
    const src: MemInfo

    constructor (info: MemInfo, src: MemInfo)
      ensures this.info == info && this.src == src
    {
      this.info, this.src := info, src;
    }
  }

  // ---------- what is allocated ----------

  /** What lives as long as the mem-info; the device range goes with the allocator. */
  ghost function Parts(m: MemInfo): set<object> {
    {m, m.buffer, m.buffer.mapping} + Pages(m)
  }

  ghost function Pages(m: MemInfo): set<object> {
    if m.pages == null then {} else {m.pages}
  }

  ghost function Range(b: Buffer): set<object> {
    if b.range == null then {} else {b.range}
  }

  ghost function Whole(m: MemInfo): set<object> {
    Parts(m) + Range(m.buffer)
  }

  ghost predicate Apart(m: MemInfo) {
    m.buffer.mapping !in Pages(m) && Range(m.buffer) !! Pages(m) && m.buffer.mapping !in Range(m.buffer)
  }

  ghost function AllParts(ms: set<MemInfo>): set<object> {
    set m, o | m in ms && o in Parts(m) :: o
  }

  ghost function AllRanges(ms: set<MemInfo>): set<object> {
    set m, o | m in ms && o in Range(m.buffer) :: o
  }

  /** The sources not yet freed, those their allocator still holds, the mappings, the sync object
      of each source, and what was lost. */
  datatype Shape = Shape(sources: set<MemInfo>, held: set<MemInfo>, maps: set<MapData>, syncs: set<SyncInfo>,
                         leaked: set<object>)

  ghost function Infos(maps: set<MapData>): set<MemInfo> {
    set d | d in maps :: d.info
  }

  ghost function Datas(syncs: set<SyncInfo>): set<MemInfo> {
    set s | s in syncs :: s.data
  }

  ghost function Mems(w: Shape): set<MemInfo> {
    w.sources + Infos(w.maps) + Datas(w.syncs)
  }

  ghost function Owners(w: Shape): set<MemInfo> {
    w.held + Infos(w.maps) + Datas(w.syncs)
  }

  ghost function Objects(w: Shape): set<object> {
    AllParts(Mems(w)) + AllRanges(Owners(w)) + w.syncs + w.maps + w.leaked
  }

  ghost function WithMap(w: Shape, d: MapData): Shape {
    w.(maps := w.maps + {d})
  }

  /** `v` has the new source `m` with its sync object, and nothing else new. */
  ghost predicate AddedSource(v: Shape, w: Shape, m: MemInfo)
    reads m
  {
    && w.sources == v.sources + {m} && w.held == v.held + {m} && w.maps == v.maps && w.leaked == v.leaked
    && w.syncs == if m.sync == null then v.syncs else v.syncs + {m.sync}
  }

  ghost function MapsOf(maps: set<MapData>, m: MemInfo): set<MapData> {
    set d | d in maps && d.src == m
  }

  /** No object belongs to two mem-infos, or is lost while it belongs to one. */
  ghost predicate Disjoint(ms: set<MemInfo>, leaked: set<object>) {
    && (forall m :: m in ms ==> Apart(m) && Whole(m) !! leaked)
    && (forall m, n :: m in ms && n in ms && m != n ==> Whole(m) !! Whole(n))
  }

  ghost predicate Typed(w: Shape) {
    && w.held <= w.sources
    && w.sources !! Infos(w.maps) && w.sources !! Datas(w.syncs) && Infos(w.maps) !! Datas(w.syncs)
    && (forall d, e :: d in w.maps && e in w.maps && d.info == e.info ==> d == e)
    && (forall s, t :: s in w.syncs && t in w.syncs && (s.data == t.data || s.owner == t.owner) ==> s == t)
    && w.leaked !! w.syncs && w.leaked !! w.maps
    && (forall d :: d in w.maps ==> d.src in w.sources)
    && (forall s :: s in w.syncs ==> s.owner in w.sources)
  }

  ghost predicate Separate(w: Shape) {
    Typed(w) && Disjoint(Mems(w), w.leaked)
  }

  /** The whole of a sync object: the object and the memory of its counters. */
  ghost function SyncObjects(s: SyncInfo?): set<object> {
    if s == null then {} else {s} + Whole(s.data)
  }

  /** The mutable objects of a sync object. */
  ghost function SyncFrame(s: SyncInfo?): set<object> {
    if s == null then {} else {s, s.data.buffer}
  }

  lemma PartsUnion(a: set<MemInfo>, b: set<MemInfo>)
    ensures AllParts(a + b) == AllParts(a) + AllParts(b) && AllRanges(a + b) == AllRanges(a) + AllRanges(b)
  {
  }

  lemma PartsOfOne(m: MemInfo)
    ensures AllParts({m}) == Parts(m) && AllRanges({m}) == Range(m.buffer)
  {
    assert m in {m};
    forall o | o in Parts(m) || o in Range(m.buffer)
      ensures (o in Parts(m) ==> o in AllParts({m})) && (o in Range(m.buffer) ==> o in AllRanges({m}))
    {
    }
  }

  /** What belongs to a mem-info does not belong to the others. */
  lemma OthersApart(ms: set<MemInfo>, leaked: set<object>, m: MemInfo)
    requires Disjoint(ms + {m}, leaked)
    ensures AllParts(ms - {m}) !! Whole(m) && AllRanges(ms - {m}) !! Whole(m)
    ensures Parts(m) !! Range(m.buffer) && Whole(m) !! leaked
  {
    assert m in ms + {m};
    forall n | n in ms - {m}
      ensures Parts(n) !! Whole(m) && Range(n.buffer) !! Whole(m)
    {
      assert n in ms + {m};
      assert Whole(n) !! Whole(m);
    }
  }

  /** Sync objects and mapping records are no part of a mem-info. */
  lemma KindsApart(m: MemInfo, syncs: set<SyncInfo>, maps: set<MapData>)
    ensures Whole(m) !! syncs && Whole(m) !! maps
  {
  }

  lemma RangesGrow(a: set<MemInfo>, b: set<MemInfo>)
    requires a <= b
    ensures AllRanges(a) <= AllRanges(b)
  {
  }

  lemma DisjointPart(ms: set<MemInfo>, ns: set<MemInfo>, leaked: set<object>)
    requires Disjoint(ns, leaked) && ms <= ns
    ensures Disjoint(ms, leaked)
  {
    hide Apart, Whole;
  }

  lemma DisjointMore(ms: set<MemInfo>, leaked: set<object>, m: MemInfo)
    requires Disjoint(ms, leaked) && Unused(ms, leaked, m)
    ensures Disjoint(ms + {m}, leaked)
  {
    hide Apart, Whole;
  }

  /** Taking one mem-info out takes out exactly what is its own. */
  lemma ObjectsWithout(w: Shape, v: Shape, m: MemInfo)
    requires Disjoint(Mems(w), w.leaked) && m in Mems(w) && Owners(w) <= Mems(w)
    requires Mems(v) == Mems(w) - {m} && Owners(v) == Owners(w) - {m}
    requires v.syncs <= w.syncs && v.maps <= w.maps && v.leaked == w.leaked
    requires w.leaked !! w.syncs && w.leaked !! w.maps
    ensures Disjoint(Mems(v), v.leaked)
    ensures Objects(v) == Objects(w) - Whole(m) - (w.syncs - v.syncs) - (w.maps - v.maps)
  {
    hide Disjoint, Mems, Owners, Parts, Range, AllParts, AllRanges;
    var ms, os := Mems(w), Owners(w);
    DisjointPart(ms - {m}, ms, w.leaked);
    assert ms + {m} == ms;
    OthersApart(ms, w.leaked, m);
    assert ms - {m} + {m} == ms && os - {m} <= ms - {m};
    PartsUnion(ms - {m}, {m});
    PartsOfOne(m);
    RangesGrow(os - {m}, ms - {m});
    if m in os {
      PartsUnion(os - {m}, {m});
      assert os - {m} + {m} == os;
    } else {
      assert os - {m} == os;
    }
    assert AllRanges(os) - Whole(m) == AllRanges(os - {m});
    assert AllParts(ms) - Whole(m) == AllParts(ms - {m});
    KindsApart(m, w.syncs, w.maps);
    OtherKinds(ms, w.syncs, w.maps);
    RangesGrow(os, ms);
  }

  lemma OtherKinds(ms: set<MemInfo>, syncs: set<SyncInfo>, maps: set<MapData>)
    ensures AllParts(ms) !! syncs && AllParts(ms) !! maps && AllRanges(ms) !! syncs && AllRanges(ms) !! maps
  {
  }

  /** Nothing of the mem-info is in use already. */
  ghost predicate Unused(ms: set<MemInfo>, leaked: set<object>, m: MemInfo) {
    m !in ms && Apart(m) && Whole(m) !! leaked && (forall n :: n in ms ==> Whole(m) !! Whole(n))
  }

  lemma ObjectsWith(w: Shape, v: Shape, m: MemInfo)
    requires Disjoint(Mems(w), w.leaked) && Unused(Mems(w), w.leaked, m)
    requires Mems(v) == Mems(w) + {m} && Owners(v) == Owners(w) + {m}
    requires w.syncs <= v.syncs && w.maps <= v.maps && v.leaked == w.leaked
    ensures Disjoint(Mems(v), v.leaked)
    ensures Objects(v) == Objects(w) + Whole(m) + (v.syncs - w.syncs) + (v.maps - w.maps)
  {
    hide Disjoint, Mems, Owners, Parts, Range, AllParts, AllRanges;
    DisjointMore(Mems(w), w.leaked, m);
    PartsUnion(Mems(w), {m});
    PartsUnion(Owners(w), {m});
    PartsOfOne(m);
  }

  // ---------- steps of the shape ----------

  lemma UnholdKeeps(w: Shape, m: MemInfo)
    requires Separate(w) && m in w.held
    ensures var v := w.(held := w.held - {m}); Separate(v) && Objects(v) == Objects(w) - Range(m.buffer)
    ensures Parts(m) + Range(m.buffer) <= Objects(w)
  {
    hide Disjoint, Parts, Range, AllParts, AllRanges;
    var v := w.(held := w.held - {m});
    var ms, os := Mems(w), Owners(w);
    assert ms + {m} == ms && ms - {m} + {m} == ms && os - {m} + {m} == os && os - {m} <= ms - {m};
    assert Owners(v) == os - {m} && Mems(v) == ms;
    OthersApart(ms, w.leaked, m);
    PartsUnion(ms - {m}, {m});
    PartsUnion(os - {m}, {m});
    PartsOfOne(m);
    RangesGrow(os - {m}, ms - {m});
    assert AllRanges(os) - Range(m.buffer) == AllRanges(os - {m});
    assert AllParts(ms) !! Range(m.buffer);
    KindsApart(m, w.syncs, w.maps);
  }

  ghost function WithoutSync(syncs: set<SyncInfo>, s: SyncInfo?): set<SyncInfo> {
    if s == null then syncs else syncs - {s}
  }

  lemma InfosWithout(w: Shape, d: MapData)
    requires Typed(w) && d in w.maps
    ensures Infos(w.maps - {d}) == Infos(w.maps) - {d.info} && d.info in Infos(w.maps)
  {
    forall m | m in Infos(w.maps) && m != d.info
      ensures m in Infos(w.maps - {d})
    {
      var e :| e in w.maps && e.info == m;
      assert e in w.maps - {d};
    }
  }

  lemma DatasWithout(w: Shape, s: SyncInfo)
    requires Typed(w) && s in w.syncs
    ensures Datas(w.syncs - {s}) == Datas(w.syncs) - {s.data} && s.data in Datas(w.syncs)
  {
    forall m | m in Datas(w.syncs) && m != s.data
      ensures m in Datas(w.syncs - {s})
    {
      var t :| t in w.syncs && t.data == m;
      assert t in w.syncs - {s};
    }
  }

  lemma RemoveMapKeeps(w: Shape, d: MapData)
    requires Separate(w) && d in w.maps
    ensures var v := w.(maps := w.maps - {d}); Separate(v) && Objects(v) == Objects(w) - Whole(d.info) - {d}
  {
    hide Disjoint, Whole, Objects;
    var v := w.(maps := w.maps - {d});
    InfosWithout(w, d);
    ObjectsWithout(w, v, d.info);
  }

  lemma RemoveSyncKeeps(w: Shape, s: SyncInfo)
    requires Separate(w) && s in w.syncs
    ensures var v := w.(syncs := w.syncs - {s}); Separate(v) && Objects(v) == Objects(w) - SyncObjects(s)
  {
    hide Disjoint, Whole, Objects;
    var v := w.(syncs := w.syncs - {s});
    DatasWithout(w, s);
    ObjectsWithout(w, v, s.data);
  }

  lemma RemoveSourceKeeps(w: Shape, m: MemInfo)
    requires Separate(w) && m in w.sources && m !in w.held && MapsOf(w.maps, m) == {} 
    requires forall s :: s in w.syncs ==> s.owner != m
    ensures var v := w.(sources := w.sources - {m}); Separate(v) && Objects(v) == Objects(w) - Whole(m)
  {
    hide Disjoint, Whole, Objects;
    var v := w.(sources := w.sources - {m});
    forall d | d in w.maps
      ensures d.src != m
    {
      assert d.src == m ==> d in MapsOf(w.maps, m);
    }
    ObjectsWithout(w, v, m);
  }

  lemma AddSourceKeeps(w: Shape, m: MemInfo)
    requires Separate(w) && Unused(Mems(w), w.leaked, m)
    ensures var v := w.(sources := w.sources + {m}, held := w.held + {m}); Separate(v) && Objects(v) == Objects(w) + Whole(m)
  {
    hide Disjoint, Whole, Objects;
    var v := w.(sources := w.sources + {m}, held := w.held + {m});
    assert Owners(v) == Owners(w) + {m} && Mems(v) == Mems(w) + {m};
    ObjectsWith(w, v, m);
  }

  lemma AddSyncKeeps(w: Shape, s: SyncInfo)
    requires Separate(w) && Unused(Mems(w), w.leaked, s.data) && s.owner in w.sources && s !in w.syncs && s !in w.leaked
    requires forall t :: t in w.syncs ==> t.owner != s.owner
    ensures var v := w.(syncs := w.syncs + {s}); Separate(v) && Objects(v) == Objects(w) + SyncObjects(s)
  {
    hide Disjoint, Whole, Objects;
    var v := w.(syncs := w.syncs + {s});
    assert Datas(v.syncs) == Datas(w.syncs) + {s.data} by { assert s in v.syncs; }
    assert Owners(v) == Owners(w) + {s.data} && Mems(v) == Mems(w) + {s.data};
    ObjectsWith(w, v, s.data);
  }

  lemma AddMapKeeps(w: Shape, d: MapData)
    requires Separate(w) && Unused(Mems(w), w.leaked, d.info) && d.src in w.sources && d !in w.maps && d !in w.leaked
    ensures var v := w.(maps := w.maps + {d}); Separate(v) && Objects(v) == Objects(w) + {d} + Whole(d.info)
  {
    hide Disjoint, Whole, Objects;
    var v := w.(maps := w.maps + {d});
    assert Infos(v.maps) == Infos(w.maps) + {d.info} by { assert d in v.maps; }
    assert Owners(v) == Owners(w) + {d.info} && Mems(v) == Mems(w) + {d.info};
    ObjectsWith(w, v, d.info);
  }

  /** A source that nobody holds goes with its sync object. */
  lemma SourceGoneKeeps(w: Shape, m: MemInfo, s: SyncInfo?)
    requires Separate(w) && m in w.sources && m !in w.held && MapsOf(w.maps, m) == {} && Range(m.buffer) !! Objects(w)
    requires s != null ==> s in w.syncs
    requires forall t :: t in w.syncs && t.owner == m ==> t == s
    ensures var v := w.(sources := w.sources - {m}, syncs := WithoutSync(w.syncs, s));
            Separate(v) && Objects(v) == Objects(w) - (Parts(m) + SyncObjects(s))
  {
    hide Separate, Parts, Range, Objects;
    var u := w.(syncs := WithoutSync(w.syncs, s));
    if s != null {
      RemoveSyncKeeps(w, s);
    }
    RemoveSourceKeeps(u, m);
  }

  /** The counters of a source that is held by its allocator or by one of `maps` mappings. */
  ghost predicate Counts(held: bool, maps: nat, refs: nat, bufRefs: nat, exports: nat, hasSync: bool, syncRefs: int) {
    && bufRefs == (if held then 1 else 0) && exports == maps && refs == bufRefs + exports > 0
    && syncRefs == if hasSync then 1 + maps else 0
  }

  // ---------- what is not touched ----------

  /** The counters of `m` and of the sync object `s` are nobody else's. */
  ghost predicate Framed(w: Shape, m: MemInfo, s: SyncInfo?) {
    && (forall n :: n in w.sources && n != m ==> n.buffer != m.buffer && (s == null || n.buffer != s.data.buffer))
    && (forall d :: d in w.maps ==> d.info != m && d.info.buffer != m.buffer && (s == null || d.info.buffer != s.data.buffer))
    && (forall t :: t in w.syncs ==> t.data != m && t.data.buffer != m.buffer
                                     && (s == null || t == s || t.data.buffer != s.data.buffer))
  }

  lemma BuffersApart(ms: set<MemInfo>, leaked: set<object>, m: MemInfo, n: MemInfo)
    requires Disjoint(ms, leaked) && m in ms && n in ms && m != n
    ensures m.buffer != n.buffer && m !in Whole(n) && n !in Whole(m)
  {
    assert m in Whole(m) && n in Whole(n) && m.buffer in Whole(m) && n.buffer in Whole(n);
  }

  lemma SourceFramed(w: Shape, m: MemInfo, s: SyncInfo?)
    requires Separate(w) && m in w.sources && (s != null ==> s in w.syncs)
    ensures Framed(w, m, s)
  {
    hide Disjoint, Whole;
    forall n | n in Mems(w) && n != m
      ensures n.buffer != m.buffer
    {
      BuffersApart(Mems(w), w.leaked, n, m);
    }
    if s != null {
      assert s.data in Datas(w.syncs);
      forall n | n in Mems(w) && n != s.data
        ensures n.buffer != s.data.buffer
      {
        BuffersApart(Mems(w), w.leaked, n, s.data);
      }
    }
    assert forall d :: d in w.maps ==> d.info in Infos(w.maps);
    assert forall t :: t in w.syncs ==> t.data in Datas(w.syncs);
  }

  lemma FramedAt(w: Shape, m: MemInfo, s: SyncInfo?, n: MemInfo)
    requires Framed(w, m, s) && n in w.sources && n != m
    ensures n.buffer != m.buffer && (s == null || n.buffer != s.data.buffer)
  {
  }

  lemma FramedMap(w: Shape, m: MemInfo, s: SyncInfo?, d: MapData)
    requires Framed(w, m, s) && d in w.maps
    ensures d.info != m && d.info.buffer != m.buffer && (s == null || d.info.buffer != s.data.buffer)
  {
  }

  lemma FramedSync(w: Shape, m: MemInfo, s: SyncInfo?, t: SyncInfo)
    requires Framed(w, m, s) && t in w.syncs
    ensures t.data != m && t.data.buffer != m.buffer && (s == null || t == s || t.data.buffer != s.data.buffer)
  {
  }

  lemma OwnParts(m: MemInfo, s: SyncInfo?)
    ensures m in Parts(m) && m.buffer in Parts(m) && (s != null ==> s in SyncObjects(s))
  {
  }

  lemma BuffersOf(w: Shape, m: MemInfo, s: SyncInfo?)
    requires Separate(w) && m in w.sources && (s != null ==> s in w.syncs)
    ensures Apart(m) && (s != null ==> Apart(s.data) && SyncObjects(s) !! Whole(m))
  {
    assert m in Mems(w);
    if s != null {
      assert s.data in Datas(w.syncs);
    }
  }

  /** What belongs to a mem-info or is a sync object or a mapping is allocated. */
  lemma Allocated(w: Shape)
    ensures forall m :: m in Mems(w) ==> Parts(m) <= Objects(w) && m in Objects(w) && m.buffer in Objects(w)
    ensures forall m :: m in w.sources ==> Parts(m) <= Objects(w) && m in Objects(w) && m.buffer in Objects(w)
    ensures forall m :: m in Owners(w) && m in Mems(w) ==> Whole(m) <= Objects(w)
    ensures forall d :: d in w.maps ==> d in Objects(w) && d.info in Objects(w) && d.info.buffer in Objects(w) && Whole(d.info) <= Objects(w)
    ensures forall s :: s in w.syncs ==> s in Objects(w) && s.data.buffer in Objects(w) && SyncObjects(s) <= Objects(w)
  {
    forall m | m in Mems(w)
      ensures Parts(m) <= Objects(w) && m in Objects(w) && m.buffer in Objects(w) && (m in Owners(w) ==> Whole(m) <= Objects(w))
    {
      assert m in Parts(m) && m.buffer in Parts(m);
      assert forall o :: o in Parts(m) ==> o in AllParts(Mems(w));
      assert m in Owners(w) ==> forall o :: o in Range(m.buffer) ==> o in AllRanges(Owners(w));
    }
    assert forall d :: d in w.maps ==> d.info in Infos(w.maps);
    assert forall t :: t in w.syncs ==> t.data in Datas(w.syncs);
  }

  lemma MapsOfMore(maps: set<MapData>, d: MapData, n: MemInfo)
    requires d !in maps
    ensures MapsOf(maps + {d}, n) == MapsOf(maps, n) + (if d.src == n then {d} else {})
    ensures |MapsOf(maps + {d}, n)| == |MapsOf(maps, n)| + (if d.src == n then 1 else 0)
  {
    assert MapsOf(maps + {d}, n) == MapsOf(maps, n) + (if d.src == n then {d} else {});
  }

  lemma MapsOfLess(maps: set<MapData>, d: MapData)
    requires d in maps
    ensures |MapsOf(maps - {d}, d.src)| == |MapsOf(maps, d.src)| - 1
  {
    assert MapsOf(maps - {d}, d.src) == MapsOf(maps, d.src) - {d};
  }

  /** The range of a source its allocator has freed is not allocated. */
  lemma UnheldRange(w: Shape, m: MemInfo)
    requires Separate(w) && m in w.sources && m !in w.held
    ensures Range(m.buffer) !! Objects(w)
  {
    hide Disjoint, Parts, Range, AllParts, AllRanges;
    var ms, os := Mems(w), Owners(w);
    assert ms + {m} == ms && ms - {m} + {m} == ms && os <= ms - {m};
    OthersApart(ms, w.leaked, m);
    PartsUnion(ms - {m}, {m});
    PartsOfOne(m);
    RangesGrow(os, ms - {m});
    KindsApart(m, w.syncs, w.maps);
  }

  /** A mapping's mem-info is its own. */
  lemma MapFramed(w: Shape, d: MapData)
    requires Separate(w) && d in w.maps
    ensures d.src in w.sources && d.info !in w.sources && Apart(d.info) && Parts(d.src) !! Whole(d.info)
    ensures d.info.buffer != d.src.buffer && Framed(w.(maps := w.maps - {d}), d.info, null)
    ensures forall s :: s in w.syncs ==> SyncObjects(s) !! Whole(d.info) && s.data.buffer != d.info.buffer
    ensures d !in Whole(d.info) && d !in Parts(d.src) && d !in SyncObjects(null) && forall s :: s in w.syncs ==> d !in SyncObjects(s)
  {
    hide Parts, Range, Pages;
    var ms := Mems(w);
    assert d.info in Infos(w.maps) && d.info in ms && d.src in ms && d.src != d.info;
    assert Parts(d.src) <= Whole(d.src) && Whole(d.src) !! Whole(d.info);
    OwnWhole(d.info);
    OwnWhole(d.src);
    forall n | n in ms && n != d.info
      ensures n.buffer != d.info.buffer
    {
      BuffersApart(ms, w.leaked, n, d.info);
    }
    forall c | c in w.maps - {d}
      ensures c.info != d.info && c.info in ms
    {
      assert c.info in Infos(w.maps);
    }
    forall s | s in w.syncs
      ensures s.data in ms && s.data != d.info && SyncObjects(s) !! Whole(d.info) && d !in SyncObjects(s)
    {
      assert s.data in Datas(w.syncs);
      assert Whole(s.data) !! Whole(d.info);
      KindsApart(d.info, {s}, {d});
      KindsApart(s.data, {}, {d});
    }
    KindsApart(d.info, {}, {d});
    KindsApart(d.src, {}, {d});
  }

  lemma OwnWhole(m: MemInfo)
    ensures m in Whole(m) && m.buffer in Whole(m) && Pages(m) <= Whole(m)
  {
  }

  /** Everything that ever belonged to a mem-info still in the shape. */
  ghost function KnownIn(w: Shape): set<object> {
    AllParts(Mems(w)) + AllRanges(Mems(w)) + w.leaked
  }

  /** A mem-info made of new objects is unused. */
  lemma NewUnused(w: Shape, known: set<object>, m: MemInfo)
    requires known == KnownIn(w) && Apart(m) && Whole(m) !! known
    ensures Unused(Mems(w), w.leaked, m)
  {
    hide Mems;
    var ms := Mems(w);
    assert m in Whole(m);
    forall n | n in ms
      ensures n != m && Whole(m) !! Whole(n)
    {
      assert n in Parts(n);
      assert Parts(n) <= AllParts(ms) && Range(n.buffer) <= AllRanges(ms);
    }
  }

  lemma DisjointLeak(ms: set<MemInfo>, leaked: set<object>, more: set<object>)
    requires Disjoint(ms, leaked) && forall m :: m in ms ==> Whole(m) !! more
    ensures Disjoint(ms, leaked + more)
  {
    hide Apart, Whole;
  }

  /** A sync object may be lost: it stays allocated, and nobody's. */
  lemma LeakSyncKeeps(w: Shape, s: SyncInfo)
    requires Separate(w) && s in w.syncs
    ensures var v := w.(syncs := w.syncs - {s}, leaked := w.leaked + SyncObjects(s)); Separate(v) && Objects(v) == Objects(w)
  {
    hide Parts, Range, Whole, AllParts, AllRanges, Disjoint;
    var u := w.(syncs := w.syncs - {s});
    RemoveSyncKeeps(w, s);
    Allocated(w);
    DatasWithout(w, s);
    KindsApart(s.data, u.syncs, w.maps);
    forall m | m in Mems(u)
      ensures Whole(m) !! SyncObjects(s)
    {
      WholeApart(Mems(w), w.leaked, m, s.data);
      KindsApart(m, {s}, {});
    }
    DisjointLeak(Mems(u), w.leaked, SyncObjects(s));
    var v := w.(syncs := w.syncs - {s}, leaked := w.leaked + SyncObjects(s));
    assert Mems(v) == Mems(u) && Owners(v) == Owners(u);
    assert Objects(v) == Objects(u) + SyncObjects(s);
  }

  lemma WholeApart(ms: set<MemInfo>, leaked: set<object>, m: MemInfo, n: MemInfo)
    requires Disjoint(ms, leaked) && m in ms && n in ms && m != n
    ensures Whole(m) !! Whole(n)
  {
  }

  // ---------- what the counters say ----------

  ghost function SyncRefs(m: MemInfo): int
    reads m, m.sync
  {
    if m.sync == null then 0 else m.sync.refCount
  }

  ghost predicate SourceOk(w: Shape, handles: set<MemInfo>, m: MemInfo)
    reads m, m.sync, m.buffer
  {
    && Counts(m in w.held, |MapsOf(w.maps, m)|, m.refCount, m.buffer.refCount, m.buffer.exportCount, m.sync != null, SyncRefs(m))
    && (m.exported <==> m in handles)
    && (m.memType == Device || m.memType == Wrapped) && (m.memType == Device ==> m.pages == null)
    && (m.sync != null ==> m.sync in w.syncs && m.sync.owner == m)
  }

  /** A mem-info with a buffer nobody shares. */
  ghost predicate Alone(m: MemInfo)
    reads m.buffer
  {
    m.buffer.refCount == 1 && m.buffer.exportCount == 0
  }

  ghost predicate MapOk(d: MapData)
    reads d.info, d.info.buffer, d.src
  {
    Alone(d.info) && d.info.sync == d.src.sync && d.info.pages != null
  }

  ghost predicate SyncOk(s: SyncInfo)
    reads s.data.buffer, s.owner
  {
    Alone(s.data) && s.data.pages == null && s.owner.sync != null
  }

  /** Every source but `x`, every mapping, and every sync object but that of `x` is in order. */
  ghost predicate OthersOk(w: Shape, handles: set<MemInfo>, x: MemInfo?)
    reads *
  {
    && (forall n :: n in w.sources && n != x ==> SourceOk(w, handles, n))
    && (forall d :: d in w.maps ==> MapOk(d))
    && (forall s :: s in w.syncs && s.owner != x ==> SyncOk(s))
  }

  /** What the counters of a source say. */
  lemma CountersOf(w: Shape, handles: set<MemInfo>, m: MemInfo)
    requires SourceOk(w, handles, m)
    ensures m.buffer.refCount == (if m in w.held then 1 else 0) && m.buffer.exportCount == |MapsOf(w.maps, m)|
    ensures m.refCount == m.buffer.refCount + m.buffer.exportCount > 0
    ensures m.sync != null ==> m.sync.refCount == 1 + m.buffer.exportCount
  {
    hide MapsOf;
  }

  lemma CountersMake(w: Shape, handles: set<MemInfo>, m: MemInfo)
    requires m.buffer.refCount == (if m in w.held then 1 else 0) && m.buffer.exportCount == |MapsOf(w.maps, m)|
    requires m.refCount == m.buffer.refCount + m.buffer.exportCount > 0
    requires m.sync != null ==> m.sync.refCount == 1 + m.buffer.exportCount && m.sync in w.syncs && m.sync.owner == m
    requires (m.exported <==> m in handles) && (m.memType == Device || m.memType == Wrapped) && (m.memType == Device ==> m.pages == null)
    ensures SourceOk(w, handles, m)
  {
    hide MapsOf;
  }

  lemma NothingOf(w: Shape, m: MemInfo)
    requires Separate(w) && m !in w.sources
    ensures MapsOf(w.maps, m) == {} && forall t :: t in w.syncs ==> t.owner != m
  {
    hide Disjoint;
  }

  lemma OthersLess(w: Shape, handles: set<MemInfo>, x: MemInfo)
    requires OthersOk(w, handles, null)
    ensures OthersOk(w, handles, x)
  {
    hide SourceOk, MapOk, SyncOk;
  }

  /** The shape may change where `x` is concerned. */
  lemma OthersShape(v: Shape, w: Shape, handles: set<MemInfo>, x: MemInfo)
    requires OthersOk(v, handles, x)
    requires w.sources - {x} <= v.sources && w.maps <= v.maps && forall s :: s in w.syncs && s.owner != x ==> s in v.syncs
    requires forall s :: s in v.syncs && s.owner != x ==> s in w.syncs
    requires w.held - {x} == v.held - {x}
    requires forall d :: d in v.maps && d.src != x ==> d in w.maps
    ensures OthersOk(w, handles, x)
  {
    forall n | n in w.sources && n != x
      ensures SourceOk(w, handles, n)
    {
      assert n in w.held <==> n in w.held - {x};
      assert n in v.held <==> n in v.held - {x};
      assert MapsOf(w.maps, n) == MapsOf(v.maps, n);
      assert SourceOk(v, handles, n);
    }
  }

  /** The shape may gain a mapping of `d.src`. */
  lemma OthersMap(v: Shape, handles: set<MemInfo>, d: MapData)
    requires OthersOk(v, handles, d.src) && MapOk(d) && d !in v.maps
    ensures OthersOk(v.(maps := v.maps + {d}), handles, d.src)
  {
    var w := v.(maps := v.maps + {d});
    forall n | n in w.sources && n != d.src
      ensures SourceOk(w, handles, n)
    {
      assert MapsOf(w.maps, n) == MapsOf(v.maps, n);
      assert SourceOk(v, handles, n);
    }
  }
}
