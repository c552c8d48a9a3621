/** Sync-op modification objects in src/services4/srvkm/bridged/bridged_pvr_bridge.c: 32-bit
    pending and complete counters, and objects that stand for one outstanding operation. */
module SyncOps {
  import opened Machine

  datatype Error = Ok | Retry | InvalidParams | BadSyncState | Timeout | DissociateFailed

  function Wrap(x: int): (r: nat)
    ensures r < TWO_32
  {
    x % TWO_32
  }

  // ---------- the flush query under wrap-around ----------

  /** One half of the test in DoQuerySyncOpsSatisfied: subtraction wraps. */
  predicate Passed(pending: nat, snapshot: nat, complete: nat) {
    Wrap(pending - snapshot) >= Wrap(pending - complete)
  }

  lemma WrapDistance(a: nat, b: nat)
    requires b <= a < b + TWO_32
    ensures Wrap(Wrap(a) - Wrap(b)) == a - b
  {
    var d := Wrap(a) - Wrap(b) - (a - b);
    assert a == TWO_32 * (a / TWO_32) + Wrap(a) && b == TWO_32 * (b / TWO_32) + Wrap(b);
    assert d == TWO_32 * (b / TWO_32 - a / TWO_32);
    WrapShift(a - b, b / TWO_32 - a / TWO_32);
  }

  lemma WrapShift(x: nat, k: int)
    requires x < TWO_32
    ensures Wrap(x + TWO_32 * k) == x
  {
  }

  /** While the true counts are at most pending and less than 2^32 behind it, the wrapped test
      says whether the operations of the snapshot have completed. */
  lemma PassedIff(pending: nat, snapshot: nat, complete: nat)
    requires snapshot <= pending < snapshot + TWO_32 && complete <= pending < complete + TWO_32
    ensures Passed(Wrap(pending), Wrap(snapshot), Wrap(complete)) <==> complete >= snapshot
  {
    WrapDistance(pending, snapshot);
    WrapDistance(pending, complete);
  }

  /** Once the query succeeds it keeps succeeding as operations are added and completed,
      until the snapshot is 2^32 operations old. */
  lemma PassedStays(pending: nat, snapshot: nat, complete: nat, pending': nat, complete': nat)
    requires snapshot <= pending < snapshot + TWO_32 && complete <= pending < complete + TWO_32
    requires Passed(Wrap(pending), Wrap(snapshot), Wrap(complete))
    requires pending <= pending' < snapshot + TWO_32 && complete <= complete' <= pending' < complete' + TWO_32
    ensures Passed(Wrap(pending'), Wrap(snapshot), Wrap(complete'))
  {
    PassedIff(pending, snapshot, complete);
    PassedIff(pending', snapshot, complete');
  }

  lemma WrapDifference(a: nat, b: nat)
    ensures Wrap(Wrap(a) - Wrap(b)) == Wrap(a - b)
  {
    var d, k := Wrap(a) - Wrap(b), b / TWO_32 - a / TWO_32;
    assert a == TWO_32 * (a / TWO_32) + Wrap(a) && b == TWO_32 * (b / TWO_32) + Wrap(b);
    assert d == a - b + TWO_32 * k;
    assert a - b == TWO_32 * ((a - b) / TWO_32) + Wrap(a - b);
    WrapShift(Wrap(a - b), (a - b) / TWO_32 + k);
    assert d == Wrap(a - b) + TWO_32 * ((a - b) / TWO_32 + k);
  }

  /** The snapshot is less than 2^32 operations old, or old by so much more than a multiple of
      2^32 that the excess is at least what is outstanding. */
  predicate InWindow(pending: nat, snapshot: nat, complete: nat) {
    pending - snapshot < TWO_32 || Wrap(pending - snapshot) >= pending - complete
  }

  /** Exactly then the test answers rightly for a snapshot of any age. */
  lemma FlushQueryExact(pending: nat, snapshot: nat, complete: nat)
    requires snapshot <= pending && complete <= pending < complete + TWO_32
    ensures (Passed(Wrap(pending), Wrap(snapshot), Wrap(complete)) <==> complete >= snapshot)
            <==> InWindow(pending, snapshot, complete)
  {
    WrapDifference(pending, snapshot);
    WrapDistance(pending, complete);
  }

  /** The test never takes outstanding operations for completed ones. */
  lemma PassedSound(pending: nat, snapshot: nat, complete: nat)
    requires snapshot <= pending && complete <= pending < complete + TWO_32
    requires Passed(Wrap(pending), Wrap(snapshot), Wrap(complete))
    ensures complete >= snapshot
  {
    WrapDistance(pending, complete);
    if complete < snapshot {
      WrapDistance(pending, snapshot);
    }
  }

  /** A snapshot 2^32 operations old is taken for a new one. */
  lemma OldSnapshotFails()
    ensures !Passed(Wrap(TWO_32), Wrap(0), Wrap(1)) && !InWindow(TWO_32, 0, 1)
  {
  }

  // ---------- outstanding operations ----------

  /** An outstanding operation with at least one increment. */
  datatype Issue = Issue(obj: nat, w: bool, r: bool)

  ghost function Writes(q: seq<Issue>): (n: nat)
    ensures n <= |q|
  {
    if q == [] then 0 else Writes(q[..|q| - 1]) + (if q[|q| - 1].w then 1 else 0)
  }

  ghost function Reads(q: seq<Issue>): (n: nat)
    ensures n <= |q|
  {
    if q == [] then 0 else Reads(q[..|q| - 1]) + (if q[|q| - 1].r then 1 else 0)
  }

  ghost predicate Flagged(q: seq<Issue>) {
    forall k :: 0 <= k < |q| ==> q[k].w || q[k].r
  }

  lemma {:induction false} SomeCount(q: seq<Issue>)
    requires q != [] && Flagged(q)
    ensures Writes(q) > 0 || Reads(q) > 0
  {
  }

  lemma {:induction false} CountFirst(q: seq<Issue>)
    requires q != []
    ensures Writes(q) == Writes(q[1..]) + (if q[0].w then 1 else 0)
    ensures Reads(q) == Reads(q[1..]) + (if q[0].r then 1 else 0)
  {
    if |q| > 1 {
      var front := q[..|q| - 1];
      CountFirst(front);
      assert q[1..][..|q| - 2] == front[1..];
    } else {
      assert q[1..] == [] && q[..0] == [];
    }
  }

  /** MODIFY_SYNC_OP_INFO: attached to the sync info, or empty. */
  datatype ModObj = ModObj(attached: bool, w: bool, r: bool, ws: nat, rs: nat)

  /** The counters when an object was attached, unbounded. */
  datatype Snap = Snap(w: nat, r: nat)

  /** The unbounded counters and the outstanding operations, oldest first. */
  datatype Counts = Counts(wp: nat, wc: nat, rp: nat, rc: nat, queue: seq<Issue>)

  ghost function SnapAt(c: Counts, k: nat): Snap
    requires k <= |c.queue|
  {
    Snap(c.wc + Writes(c.queue[..k]), c.rc + Reads(c.queue[..k]))
  }

  ghost predicate QueueHeld(c: Counts, objs: map<nat, ModObj>, snaps: map<nat, Snap>, k: nat)
    requires k < |c.queue|
  {
    var i := c.queue[k];
    && i.obj in objs && objs[i.obj].attached && objs[i.obj].w == i.w && objs[i.obj].r == i.r
    && i.obj in snaps && snaps[i.obj] == SnapAt(c, k)
  }

  ghost predicate Once(q: seq<Issue>) {
    forall a, b :: 0 <= a < b < |q| ==> q[a].obj != q[b].obj
  }

  ghost predicate Queued(q: seq<Issue>, o: nat) {
    exists k :: 0 <= k < |q| && q[k].obj == o
  }

  /** Pending minus complete is the number of outstanding increments, and each outstanding
      object remembers the counters it will find when its turn comes. */
  ghost predicate Consistent(c: Counts, objs: map<nat, ModObj>, snaps: map<nat, Snap>) {
    && c.wp == c.wc + Writes(c.queue) && c.rp == c.rc + Reads(c.queue)
    && |c.queue| < TWO_32 && Flagged(c.queue) && Once(c.queue)
    && (forall k :: 0 <= k < |c.queue| ==> QueueHeld(c, objs, snaps, k))
    && (forall o :: o in objs && objs[o].attached ==>
          && o in snaps && objs[o].ws == Wrap(snaps[o].w) && objs[o].rs == Wrap(snaps[o].r)
          && snaps[o].w <= c.wp && snaps[o].r <= c.rp)
    && (forall o :: o in objs && objs[o].attached && (objs[o].w || objs[o].r) ==> Queued(c.queue, o))
  }

  /** What DoModifyCompleteSyncOps tests. */
  ghost predicate CanComplete(c: Counts, o: ModObj) {
    o.ws == Wrap(c.wc) && o.rs == Wrap(c.rc)
  }

  lemma {:induction false} WrapDiffers(a: nat, d: nat)
    requires 0 < d < TWO_32
    ensures Wrap(a + d) != Wrap(a)
  {
    if Wrap(a + d) == Wrap(a) {
      WrapDistance(a + d, a);
    }
  }

  /** Where an outstanding object stands. */
  lemma Turn(c: Counts, objs: map<nat, ModObj>, snaps: map<nat, Snap>, o: nat) returns (k: nat)
    requires Consistent(c, objs, snaps) && o in objs && objs[o].attached && (objs[o].w || objs[o].r)
    ensures k < |c.queue| < TWO_32 && c.queue[k].obj == o && o in snaps && snaps[o] == SnapAt(c, k)
    ensures objs[o].ws == Wrap(snaps[o].w) && objs[o].rs == Wrap(snaps[o].r) && snaps[o].w <= c.wp && snaps[o].r <= c.rp
    ensures c.queue[0].obj == o ==> k == 0
    ensures c.wp == c.wc + Writes(c.queue) && c.rp == c.rc + Reads(c.queue)
    ensures k > 0 ==> Writes(c.queue[..k]) > 0 || Reads(c.queue[..k]) > 0
  {
    hide Once, Wrap, SnapAt;
    assert Queued(c.queue, o);
    k :| 0 <= k < |c.queue| && c.queue[k].obj == o && (c.queue[0].obj == o ==> k == 0);
    assert QueueHeld(c, objs, snaps, k);
    if k > 0 {
      SomeCount(c.queue[..k]);
    }
  }

  /** Of the outstanding objects with an increment flag, the oldest can complete and no other. */
  lemma OnlyOldestCompletes(c: Counts, objs: map<nat, ModObj>, snaps: map<nat, Snap>, o: nat)
    requires Consistent(c, objs, snaps) && o in objs && objs[o].attached && (objs[o].w || objs[o].r)
    ensures c.queue != []
    ensures CanComplete(c, objs[o]) <==> o == c.queue[0].obj
  {
    hide Consistent, Wrap;
    var k := Turn(c, objs, snaps, o);
    if k > 0 {
      if Writes(c.queue[..k]) > 0 {
        WrapDiffers(c.wc, Writes(c.queue[..k]));
      } else {
        WrapDiffers(c.rc, Reads(c.queue[..k]));
      }
    }
  }

  /** The query that the release callback polls succeeds for such an object exactly when it can
      complete, so the completion the callback does next cannot fail. */
  lemma QueryFindsOldest(c: Counts, objs: map<nat, ModObj>, snaps: map<nat, Snap>, o: nat)
    requires Consistent(c, objs, snaps) && o in objs && objs[o].attached && (objs[o].w || objs[o].r)
    ensures Passed(Wrap(c.wp), objs[o].ws, Wrap(c.wc)) && Passed(Wrap(c.rp), objs[o].rs, Wrap(c.rc))
            <==> CanComplete(c, objs[o])
  {
    hide Consistent, Wrap, Passed;
    var k := Turn(c, objs, snaps, o);
    OnlyOldestCompletes(c, objs, snaps, o);
    PassedIff(c.wp, snaps[o].w, c.wc);
    PassedIff(c.rp, snaps[o].r, c.rc);
    if k == 0 {
      assert c.queue[..0] == [];
    }
  }

  /** For an attached object without flags the callback hides an error exactly when the counters
      have gone past its snapshot. */
  lemma NoFlagsHidesError(c: Counts, objs: map<nat, ModObj>, snaps: map<nat, Snap>, o: nat)
    requires Consistent(c, objs, snaps) && o in objs && objs[o].attached && o in snaps
    requires c.wp < snaps[o].w + TWO_32 && c.rp < snaps[o].r + TWO_32
    ensures Passed(Wrap(c.wp), objs[o].ws, Wrap(c.wc)) && Passed(Wrap(c.rp), objs[o].rs, Wrap(c.rc)) && !CanComplete(c, objs[o])
            <==> snaps[o].w <= c.wc && snaps[o].r <= c.rc && (snaps[o].w < c.wc || snaps[o].r < c.rc)
  {
    PassedIff(c.wp, snaps[o].w, c.wc);
    PassedIff(c.rp, snaps[o].r, c.rc);
    if snaps[o].w < c.wc {
      WrapDiffers(snaps[o].w, c.wc - snaps[o].w);
    }
    if snaps[o].r < c.rc {
      WrapDiffers(snaps[o].r, c.rc - snaps[o].r);
    }
  }

  const NOTHING: Counts := Counts(0, 0, 0, 0, [])

  /** Object 2 is attached without flags, then object 1 issues and completes a write: the query
      for object 2 succeeds, and its completion fails with an error nobody sees. */
  lemma CallbackHidesError()
    ensures var two, one := ModObj(true, false, false, 0, 0), ModObj(true, true, false, 0, 0);
            var c := Completed(Attached(Attached(NOTHING, 2, false, false), 1, true, false), one);
            && Consistent(c, map[1 := one.(attached := false), 2 := two], map[1 := Snap(0, 0), 2 := Snap(0, 0)])
            && Passed(Wrap(c.wp), two.ws, Wrap(c.wc)) && Passed(Wrap(c.rp), two.rs, Wrap(c.rc)) && !CanComplete(c, two)
  {
    assert Attached(Attached(NOTHING, 2, false, false), 1, true, false).queue[1..] == [];
  }

  // ---------- steps ----------

  ghost function Attached(c: Counts, o: nat, w: bool, r: bool): Counts {
    Counts(c.wp + (if w then 1 else 0), c.wc, c.rp + (if r then 1 else 0), c.rc,
           if w || r then c.queue + [Issue(o, w, r)] else c.queue)
  }

  lemma AttachedFields(c: Counts, o: nat, w: bool, r: bool)
    ensures var d := Attached(c, o, w, r);
            d.wp == c.wp + (if w then 1 else 0) && d.wc == c.wc && d.rp == c.rp + (if r then 1 else 0) && d.rc == c.rc
  {
  }

  lemma AttachKeeps(c: Counts, objs: map<nat, ModObj>, snaps: map<nat, Snap>, o: nat, w: bool, r: bool)
    requires Consistent(c, objs, snaps) && |c.queue| + 1 < TWO_32 && (o in objs ==> !objs[o].attached)
    ensures Consistent(Attached(c, o, w, r), objs[o := ModObj(true, w, r, Wrap(c.wp), Wrap(c.rp))], snaps[o := Snap(c.wp, c.rp)])
  {
    var d := Attached(c, o, w, r);
    var objs', snaps' := objs[o := ModObj(true, w, r, Wrap(c.wp), Wrap(c.rp))], snaps[o := Snap(c.wp, c.rp)];
    hide Consistent, Wrap;
    AttachCounts(c, objs, snaps, o, w, r);
    forall k | 0 <= k < |d.queue|
      ensures QueueHeld(d, objs', snaps', k)
    {
      AttachHeld(c, objs, snaps, o, w, r, k);
    }
    forall x | x in objs' && objs'[x].attached
      ensures x in snaps' && objs'[x].ws == Wrap(snaps'[x].w) && objs'[x].rs == Wrap(snaps'[x].r)
      ensures snaps'[x].w <= d.wp && snaps'[x].r <= d.rp
      ensures objs'[x].w || objs'[x].r ==> Queued(d.queue, x)
    {
      AttachObject(c, objs, snaps, o, w, r, x);
    }
    Assembled(d, objs', snaps');
  }

  lemma Assembled(c: Counts, objs: map<nat, ModObj>, snaps: map<nat, Snap>)
    requires c.wp == c.wc + Writes(c.queue) && c.rp == c.rc + Reads(c.queue)
    requires |c.queue| < TWO_32 && Flagged(c.queue) && Once(c.queue)
    requires forall k :: 0 <= k < |c.queue| ==> QueueHeld(c, objs, snaps, k)
    requires forall o :: o in objs && objs[o].attached ==>
      && o in snaps && objs[o].ws == Wrap(snaps[o].w) && objs[o].rs == Wrap(snaps[o].r)
      && snaps[o].w <= c.wp && snaps[o].r <= c.rp && (objs[o].w || objs[o].r ==> Queued(c.queue, o))
    ensures Consistent(c, objs, snaps)
  {
  }

  lemma AttachCounts(c: Counts, objs: map<nat, ModObj>, snaps: map<nat, Snap>, o: nat, w: bool, r: bool)
    requires Consistent(c, objs, snaps) && |c.queue| + 1 < TWO_32 && (o in objs ==> !objs[o].attached)
    ensures var d := Attached(c, o, w, r);
            && d.wp == d.wc + Writes(d.queue) && d.rp == d.rc + Reads(d.queue)
            && |d.queue| < TWO_32 && Flagged(d.queue) && Once(d.queue)
  {
    var d := Attached(c, o, w, r);
    assert d.queue[..|c.queue|] == c.queue;
    forall k | 0 <= k < |c.queue|
      ensures c.queue[k].obj != o
    {
      assert QueueHeld(c, objs, snaps, k);
    }
  }

  lemma AttachHeld(c: Counts, objs: map<nat, ModObj>, snaps: map<nat, Snap>, o: nat, w: bool, r: bool, k: nat)
    requires Consistent(c, objs, snaps) && (o in objs ==> !objs[o].attached) && k < |Attached(c, o, w, r).queue|
    ensures QueueHeld(Attached(c, o, w, r), objs[o := ModObj(true, w, r, Wrap(c.wp), Wrap(c.rp))], snaps[o := Snap(c.wp, c.rp)], k)
  {
    var d := Attached(c, o, w, r);
    assert d.queue[..k] == c.queue[..k];
    if k < |c.queue| {
      assert QueueHeld(c, objs, snaps, k);
    } else {
      assert c.queue[..k] == c.queue;
    }
  }

  lemma AttachObject(c: Counts, objs: map<nat, ModObj>, snaps: map<nat, Snap>, o: nat, w: bool, r: bool, x: nat)
    requires Consistent(c, objs, snaps)
    requires var m := objs[o := ModObj(true, w, r, Wrap(c.wp), Wrap(c.rp))]; x in m && m[x].attached
    ensures var d, objs', snaps' := Attached(c, o, w, r), objs[o := ModObj(true, w, r, Wrap(c.wp), Wrap(c.rp))], snaps[o := Snap(c.wp, c.rp)];
            && x in snaps' && objs'[x].ws == Wrap(snaps'[x].w) && objs'[x].rs == Wrap(snaps'[x].r)
            && snaps'[x].w <= d.wp && snaps'[x].r <= d.rp
            && (objs'[x].w || objs'[x].r ==> Queued(d.queue, x))
  {
    var d := Attached(c, o, w, r);
    if x == o {
      if w || r {
        assert d.queue[|c.queue|].obj == o;
      }
    } else if objs[x].w || objs[x].r {
      assert Queued(c.queue, x);
      var k :| 0 <= k < |c.queue| && c.queue[k].obj == x;
      assert d.queue[k].obj == x;
    }
  }

  ghost function Completed(c: Counts, o: ModObj): Counts {
    Counts(c.wp, c.wc + (if o.w then 1 else 0), c.rp, c.rc + (if o.r then 1 else 0),
           if (o.w || o.r) && c.queue != [] then c.queue[1..] else c.queue)
  }

  lemma CompleteKeeps(c: Counts, objs: map<nat, ModObj>, snaps: map<nat, Snap>, o: nat)
    requires Consistent(c, objs, snaps) && o in objs && objs[o].attached && CanComplete(c, objs[o])
    ensures Consistent(Completed(c, objs[o]), objs[o := objs[o].(attached := false)], snaps)
    ensures objs[o].w || objs[o].r ==> c.queue != [] && c.queue[0].obj == o
  {
    if objs[o].w || objs[o].r {
      OnlyOldestCompletes(c, objs, snaps, o);
      CompleteOldest(c, objs, snaps, o);
    } else {
      DetachIdle(c, objs, snaps, o);
    }
  }

  lemma DetachIdle(c: Counts, objs: map<nat, ModObj>, snaps: map<nat, Snap>, o: nat)
    requires Consistent(c, objs, snaps) && o in objs && objs[o].attached && !objs[o].w && !objs[o].r
    ensures Consistent(c, objs[o := objs[o].(attached := false)], snaps)
  {
    var objs' := objs[o := objs[o].(attached := false)];
    forall k | 0 <= k < |c.queue|
      ensures QueueHeld(c, objs', snaps, k)
    {
      assert QueueHeld(c, objs, snaps, k);
    }
  }

  lemma CompleteOldest(c: Counts, objs: map<nat, ModObj>, snaps: map<nat, Snap>, o: nat)
    requires Consistent(c, objs, snaps) && o in objs && objs[o].attached && c.queue != [] && c.queue[0].obj == o
    ensures Consistent(Completed(c, objs[o]), objs[o := objs[o].(attached := false)], snaps)
  {
    hide Wrap, QueueHeld;
    var d := Completed(c, objs[o]);
    var objs' := objs[o := objs[o].(attached := false)];
    OldestIssue(c, objs, snaps, o);
    CountFirst(c.queue);
    forall k | 0 <= k < |d.queue|
      ensures QueueHeld(d, objs', snaps, k)
    {
      CompleteHeld(c, objs, snaps, o, k);
    }
    forall x | x in objs' && objs'[x].attached && (objs'[x].w || objs'[x].r)
      ensures Queued(d.queue, x)
    {
      assert Queued(c.queue, x);
      var k :| 0 <= k < |c.queue| && c.queue[k].obj == x;
      assert k > 0 && d.queue[k - 1].obj == x;
    }
  }

  lemma OldestIssue(c: Counts, objs: map<nat, ModObj>, snaps: map<nat, Snap>, o: nat)
    requires Consistent(c, objs, snaps) && o in objs && c.queue != [] && c.queue[0].obj == o
    ensures objs[o].w == c.queue[0].w && objs[o].r == c.queue[0].r && (objs[o].w || objs[o].r)
  {
    hide Wrap;
    assert QueueHeld(c, objs, snaps, 0);
  }

  lemma CompleteHeld(c: Counts, objs: map<nat, ModObj>, snaps: map<nat, Snap>, o: nat, k: nat)
    requires Consistent(c, objs, snaps) && o in objs && c.queue != [] && c.queue[0].obj == o && k + 1 < |c.queue|
    ensures k < |Completed(c, objs[o]).queue|
    ensures QueueHeld(Completed(c, objs[o]), objs[o := objs[o].(attached := false)], snaps, k)
  {
    hide Wrap;
    OldestIssue(c, objs, snaps, o);
    assert QueueHeld(c, objs, snaps, k + 1);
    assert c.queue[..k + 1][1..] == Completed(c, objs[o]).queue[..k];
    CountFirst(c.queue[..k + 1]);
  }

  lemma NewObject(c: Counts, objs: map<nat, ModObj>, snaps: map<nat, Snap>, o: nat)
    requires Consistent(c, objs, snaps) && o !in objs
    ensures Consistent(c, objs[o := ModObj(false, false, false, 0, 0)], snaps)
  {
    var objs' := objs[o := ModObj(false, false, false, 0, 0)];
    forall k | 0 <= k < |c.queue|
      ensures QueueHeld(c, objs', snaps, k)
    {
      assert QueueHeld(c, objs, snaps, k);
    }
  }

  lemma FreeKeeps(c: Counts, objs: map<nat, ModObj>, snaps: map<nat, Snap>, o: nat)
    requires Consistent(c, objs, snaps) && (o in objs ==> !objs[o].attached)
    ensures Consistent(c, objs - {o}, snaps)
  {
    forall k | 0 <= k < |c.queue|
      ensures QueueHeld(c, objs - {o}, snaps, k)
    {
      assert QueueHeld(c, objs, snaps, k);
    }
  }

  /** One sync info and the objects used with it. */
  class SyncInfo {
    var writeOpsPending: nat
    var writeOpsComplete: nat
    var readOpsPending: nat
    var readOpsComplete: nat
    var objs: map<nat, ModObj>
    ghost var counts: Counts
    ghost var snaps: map<nat, Snap>

    ghost predicate Valid()
      reads this
    {
      && writeOpsPending == Wrap(counts.wp) && writeOpsComplete == Wrap(counts.wc)
      && readOpsPending == Wrap(counts.rp) && readOpsComplete == Wrap(counts.rc)
      && Consistent(counts, objs, snaps)
    }

    constructor ()
      ensures Valid() && counts.queue == [] && objs == map[]
    {
      writeOpsPending, writeOpsComplete, readOpsPending, readOpsComplete := 0, 0, 0, 0;
      objs, snaps, counts := map[], map[], Counts(0, 0, 0, 0, []);
    }

    /** The object part of PVRSRVCreateSyncInfoModObjBW. */
    method CreateModObj(o: nat)
      requires Valid() && o !in objs
      modifies `objs
      ensures Valid() && objs == old(objs)[o := ModObj(false, false, false, 0, 0)]
    {
      NewObject(counts, objs, snaps, o);
      objs := objs[o := ModObj(false, false, false, 0, 0)];
    }

    /** DoQuerySyncOpsSatisfied. */
    method QuerySatisfied(readSnap: nat, writeSnap: nat) returns (e: Error)
      ensures e == Ok <==> Passed(writeOpsPending, writeSnap, writeOpsComplete) && Passed(readOpsPending, readSnap, readOpsComplete)
      ensures e == Ok || e == Retry
    {
      if Wrap(writeOpsPending - writeSnap) >= Wrap(writeOpsPending - writeOpsComplete) &&
         Wrap(readOpsPending - readSnap) >= Wrap(readOpsPending - readOpsComplete) {
        return Ok;
      }
      return Retry;
    }

    /** PVRSRVSyncOpsFlushToTokenBW on a snapshot taken earlier, of any age: it never reports
        completion too early, and it is right unless a count is outside the window when all
        has completed. */
    method FlushToToken(readSnap: nat, writeSnap: nat, ghost snap: Snap) returns (e: Error)
      requires Valid() && writeSnap == Wrap(snap.w) && readSnap == Wrap(snap.r)
      requires snap.w <= counts.wp && snap.r <= counts.rp
      ensures e == Ok ==> counts.wc >= snap.w && counts.rc >= snap.r
      ensures (e == Ok <==> counts.wc >= snap.w && counts.rc >= snap.r)
              <==> (InWindow(counts.wp, snap.w, counts.wc) && InWindow(counts.rp, snap.r, counts.rc))
                   || counts.wc < snap.w || counts.rc < snap.r
      ensures e == Ok || e == Retry
    {
      hide Wrap;
      FlushQueryExact(counts.wp, snap.w, counts.wc);
      FlushQueryExact(counts.rp, snap.r, counts.rc);
      e := QuerySatisfied(readSnap, writeSnap);
      if e == Ok {
        PassedSound(counts.wp, snap.w, counts.wc);
        PassedSound(counts.rp, snap.r, counts.rc);
      }
    }

    /** PVRSRVModifyPendingSyncOpsBW: one more operation is outstanding, even when the resource
        item of the object cannot be dissociated afterwards. */
    method ModifyPending(o: nat, w: bool, r: bool, dissociated: bool) returns (e: Error, readPending: nat, writePending: nat)
      requires Valid() && o in objs && |counts.queue| + 1 < TWO_32
      modifies this
      ensures Valid() && objs.Keys == old(objs).Keys
      ensures e == Retry <==> old(objs)[o].attached
      ensures e != Retry ==> e == if dissociated then Ok else DissociateFailed
      ensures e == Retry ==> counts == old(counts) && objs == old(objs)
      ensures e != Retry ==> counts == Attached(old(counts), o, w, r)
      ensures e != Retry ==> writePending == Wrap(old(counts).wp) && readPending == Wrap(old(counts).rp)
      ensures e != Retry ==> objs == old(objs)[o := ModObj(true, w, r, writePending, readPending)]
    {
      hide Consistent, Wrap, Attached;
      readPending, writePending := 0, 0;
      if objs[o].attached {
        return Retry, 0, 0;
      }
      AttachedFields(counts, o, w, r);
      AttachKeeps(counts, objs, snaps, o, w, r);
      objs := objs[o := ModObj(true, w, r, writeOpsPending, readOpsPending)];
      snaps := snaps[o := Snap(counts.wp, counts.rp)];
      readPending, writePending := readOpsPending, writeOpsPending;
      RaisePending(w, r);
      counts := Attached(counts, o, w, r);
      e := if dissociated then Ok else DissociateFailed;
    }

    method RaisePending(w: bool, r: bool)
      requires writeOpsPending == Wrap(counts.wp) && readOpsPending == Wrap(counts.rp)
      modifies `writeOpsPending, `readOpsPending
      ensures writeOpsPending == Wrap(counts.wp + if w then 1 else 0) && readOpsPending == Wrap(counts.rp + if r then 1 else 0)
    {
      hide Wrap;
      WrapNext(counts.wp);
      WrapNext(counts.rp);
      if w {
        writeOpsPending := Wrap(writeOpsPending + 1);
      }
      if r {
        readOpsPending := Wrap(readOpsPending + 1);
      }
    }

    /** DoModifyCompleteSyncOps. */
    method DoComplete(o: nat) returns (e: Error)
      requires Valid() && o in objs
      modifies `writeOpsComplete, `readOpsComplete
      ensures e == if !objs[o].attached then InvalidParams else if CanComplete(counts, objs[o]) then Ok else BadSyncState
      ensures writeOpsComplete == if e == Ok && objs[o].w then Wrap(old(writeOpsComplete) + 1) else old(writeOpsComplete)
      ensures readOpsComplete == if e == Ok && objs[o].r then Wrap(old(readOpsComplete) + 1) else old(readOpsComplete)
    {
      if !objs[o].attached {
        return InvalidParams;
      }
      if objs[o].ws != writeOpsComplete || objs[o].rs != readOpsComplete {
        return BadSyncState;
      }
      if objs[o].w {
        writeOpsComplete := Wrap(writeOpsComplete + 1);
      }
      if objs[o].r {
        readOpsComplete := Wrap(readOpsComplete + 1);
      }
      return Ok;
    }

    /** PVRSRVModifyCompleteSyncOpsBW: operations complete in the order in which they were issued. */
    method ModifyComplete(o: nat) returns (e: Error)
      requires Valid() && o in objs
      modifies this
      ensures Valid() && objs.Keys == old(objs).Keys
      ensures e == InvalidParams <==> !old(objs)[o].attached
      ensures e != Ok ==> counts == old(counts) && objs == old(objs)
      ensures old(objs)[o].attached && (old(objs)[o].w || old(objs)[o].r) ==>
        old(counts).queue != [] && (e == Ok <==> old(counts).queue[0].obj == o)
      ensures e == Ok ==> counts == Completed(old(counts), old(objs)[o]) && objs == old(objs)[o := old(objs)[o].(attached := false)]
    {
      hide Consistent;
      if !objs[o].attached {
        return InvalidParams;
      }
      ghost var c, m := counts, objs[o];
      if m.w || m.r {
        OnlyOldestCompletes(c, objs, snaps, o);
      }
      e := DoComplete(o);
      if e != Ok {
        return;
      }
      CompleteKeeps(c, objs, snaps, o);
      WrapNext(c.wc);
      WrapNext(c.rc);
      counts := Completed(c, m);
      objs := objs[o := objs[o].(attached := false)];
    }

    /** ModifyCompleteSyncOpsCallBack, polled up to `polls` times. An object with a flag is freed
        exactly when it is empty or the oldest one outstanding; then its operation completes. */
    method ReleaseCallback(o: nat, polls: nat) returns (e: Error)
      requires Valid() && o in objs
      modifies this
      ensures Valid() && (e == Ok || e == Timeout)
      ensures e == Ok ==> objs == old(objs) - {o}
      ensures e == Timeout ==> counts == old(counts) && objs == old(objs) && old(objs)[o].attached
      ensures !old(objs)[o].attached ==> e == Ok && counts == old(counts)
      ensures old(objs)[o].attached && (old(objs)[o].w || old(objs)[o].r) ==>
        && old(counts).queue != []
        && (e == Ok <==> polls > 0 && old(counts).queue[0].obj == o)
        && (e == Ok ==> counts == Completed(old(counts), old(objs)[o]))
    {
      hide Consistent, Wrap;
      ghost var c, m := counts, objs[o];
      if objs[o].attached {
        if m.w || m.r {
          OnlyOldestCompletes(c, objs, snaps, o);
          QueryFindsOldest(c, objs, snaps, o);
        }
        var tries, satisfied := 0, false;
        while tries < polls && !satisfied
          invariant tries <= polls
          invariant satisfied ==> Passed(writeOpsPending, objs[o].ws, writeOpsComplete) && Passed(readOpsPending, objs[o].rs, readOpsComplete)
          invariant !satisfied && tries > 0 ==>
            !(Passed(writeOpsPending, objs[o].ws, writeOpsComplete) && Passed(readOpsPending, objs[o].rs, readOpsComplete))
          invariant satisfied ==> tries > 0
          modifies {}
        {
          var q := QuerySatisfied(objs[o].rs, objs[o].ws);
          satisfied := q == Ok;
          tries := tries + 1;
        }
        if !satisfied {
          return Timeout;
        }
        var ignored := DoComplete(o);
        Ignored(c, objs, snaps, o);
        WrapNext(c.wc);
        WrapNext(c.rc);
        counts := if ignored == Ok then Completed(c, m) else c;
      } else {
        assert objs[o := objs[o].(attached := false)] == objs;
      }
      FreeKeeps(counts, objs[o := objs[o].(attached := false)], snaps, o);
      assert objs[o := objs[o].(attached := false)] - {o} == objs - {o};
      objs := objs - {o};
      return Ok;
    }
  }

  lemma WrapNext(x: nat)
    ensures Wrap(Wrap(x) + 1) == Wrap(x + 1)
  {
  }

  /** Whatever the ignored result was, the object is no longer counted. */
  lemma Ignored(c: Counts, objs: map<nat, ModObj>, snaps: map<nat, Snap>, o: nat)
    requires Consistent(c, objs, snaps) && o in objs && objs[o].attached
    requires objs[o].w || objs[o].r ==> CanComplete(c, objs[o])
    ensures Consistent(if CanComplete(c, objs[o]) then Completed(c, objs[o]) else c, objs[o := objs[o].(attached := false)], snaps)
  {
    if CanComplete(c, objs[o]) {
      CompleteKeeps(c, objs, snaps, o);
    } else {
      DetachIdle(c, objs, snaps, o);
    }
  }
}
