/** The swap-chain rings of src/services4/3rdparty/linux_framebuffer_mrst/mrstlfb_displayclass.c. */
module FlipRing {
  import opened FlipSpec

  const MAX_SWAPCHAINS: nat := 1

  datatype Error = Ok | InvalidParams | TooManyBuffers | OutOfMemory

  ghost predicate TableFull(ids: set<nat>) {
    forall id :: 0 < id <= MAX_SWAPCHAINS ==> id in ids
  }

  ghost predicate FirstVacant(ids: set<nat>, id: nat) {
    0 < id <= MAX_SWAPCHAINS && id !in ids && forall j :: 0 < j < id ==> j in ids
  }

  /** One ring item. */
  datatype Item = Item(valid: bool, flipped: bool, completed: bool, left: nat, cookie: nat, buffer: nat)

  /** The ring position k places after r. */
  function Pos(r: nat, k: nat, n: nat): (p: nat)
    requires r < n && k <= n
    ensures p < n
  {
    if r + k < n then r + k else r + k - n
  }

  function Next(r: nat, n: nat): nat
    requires r < n
  {
    if r + 1 > n - 1 then 0 else r + 1
  }

  ghost predicate HoldsFrame(item: Item, f: Frame) {
    item == Item(true, f.flipped, f.completed, f.left, f.cookie, f.buffer)
  }

  ghost predicate Vacant(item: Item) {
    !item.valid && !item.flipped && !item.completed
  }

  /** The valid items are one circular segment that starts at r and holds the frames q. */
  ghost predicate Segment(ring: seq<Item>, r: nat, q: seq<Frame>) {
    && r < |ring| && |q| <= |ring|
    && (forall k :: 0 <= k < |ring| ==> SlotAt(ring, r, q, k))
  }

  ghost predicate SlotAt(ring: seq<Item>, r: nat, q: seq<Frame>, k: nat)
    requires r < |ring| && k < |ring|
  {
    if k < |q| then HoldsFrame(ring[Pos(r, k, |ring|)], q[k]) else Vacant(ring[Pos(r, k, |ring|)])
  }

  lemma PosDistinct(r: nat, n: nat, j: nat, k: nat)
    requires r < n && j < n && k < n
    ensures Pos(r, j, n) == Pos(r, k, n) <==> j == k
  {
  }

  lemma HeadSlot(ring: seq<Item>, r: nat, q: seq<Frame>)
    requires Segment(ring, r, q)
    ensures ring[r].valid <==> q != []
    ensures q != [] ==> HoldsFrame(ring[r], q[0])
    ensures |q| < |ring| ==> Vacant(ring[Pos(r, |q|, |ring|)])
    ensures |q| == |ring| ==> Pos(r, |q|, |ring|) == r
  {
    assert SlotAt(ring, r, q, 0);
    assert |q| < |ring| ==> SlotAt(ring, r, q, |q|);
  }

  /** The head leaves the ring. */
  lemma DropHead(ring: seq<Item>, r: nat, q: seq<Frame>, item: Item)
    requires Segment(ring, r, q) && q != [] && Vacant(item)
    ensures Segment(ring[r := item], Next(r, |ring|), q[1..])
    ensures Pos(Next(r, |ring|), |q| - 1, |ring|) == Pos(r, |q|, |ring|)
  {
    var n := |ring|;
    var ring', r', q' := ring[r := item], Next(r, n), q[1..];
    forall k | 0 <= k < n
      ensures SlotAt(ring', r', q', k)
    {
      if k + 1 < n {
        assert SlotAt(ring, r, q, k + 1);
        assert Pos(r', k, n) == Pos(r, k + 1, n);
        PosDistinct(r, n, 0, k + 1);
      } else {
        assert Pos(r', k, n) == r;
      }
    }
  }

  /** The head changes in place. */
  lemma ChangeHead(ring: seq<Item>, r: nat, q: seq<Frame>, item: Item, f: Frame)
    requires Segment(ring, r, q) && q != [] && HoldsFrame(item, f)
    ensures Segment(ring[r := item], r, [f] + q[1..])
  {
    var ring', q' := ring[r := item], [f] + q[1..];
    forall k | 0 <= k < |ring|
      ensures SlotAt(ring', r, q', k)
    {
      assert SlotAt(ring, r, q, k);
      PosDistinct(r, |ring|, 0, k);
    }
  }

  /** A frame joins at the end. */
  lemma AddLast(ring: seq<Item>, r: nat, q: seq<Frame>, item: Item, f: Frame)
    requires Segment(ring, r, q) && |q| < |ring| && HoldsFrame(item, f)
    ensures var p := Pos(r, |q|, |ring|);
            && Segment(ring[p := item], r, q + [f])
            && Next(p, |ring|) == Pos(r, |q| + 1, |ring|)
  {
    var p := Pos(r, |q|, |ring|);
    var ring', q' := ring[p := item], q + [f];
    forall k | 0 <= k < |ring|
      ensures SlotAt(ring', r, q', k)
    {
      assert SlotAt(ring, r, q, k);
      PosDistinct(r, |ring|, |q|, k);
    }
  }

  /** An empty ring may be entered anywhere. */
  lemma EmptyAnywhere(ring: seq<Item>, r: nat, r': nat)
    requires Segment(ring, r, []) && r' < |ring|
    ensures Segment(ring, r', [])
  {
    forall k | 0 <= k < |ring|
      ensures SlotAt(ring, r', [], k)
    {
      var p := Pos(r', k, |ring|);
      var j := if p >= r then p - r else p + |ring| - r;
      assert SlotAt(ring, r, [], j);
    }
  }

  /** MRSTLFB_SWAPCHAIN, with the frames its ring holds. */
  class SwapChain {
    const id: nat
    const ring: array<Item>
    var insertIndex: nat
    var removeIndex: nat
    ghost var frames: seq<Frame>

    ghost predicate Valid()
      reads this, ring
    {
      && Segment(ring[..], removeIndex, frames)
      && insertIndex == Pos(removeIndex, |frames|, ring.Length)
    }

    /** The queue part of CreateDCSwapChain: one item more than there are buffers. */
    constructor (id: nat, bufferCount: nat)
      ensures Valid() && frames == [] && this.id == id && ring.Length == bufferCount + 1 && fresh(ring)
    {
      this.id := id;
      ring := new Item[bufferCount + 1](_ => Item(false, false, false, 0, 0, 0));
      insertIndex, removeIndex, frames := 0, 0, [];
    }

    /** FlushInternalVSyncQueue. An invalid item stops the removal, though not the count. */
    method Flush(flip: bool) returns (ghost done: seq<nat>, ghost shown: seq<Flip>)
      requires Valid()
      modifies this, ring
      ensures Valid() && frames == []
      ensures done == Pending(old(frames)) && shown == if flip then Unshown(old(frames)) else []
    {
      hide Segment, Pending, Unshown, HoldsFrame;
      ghost var q := frames;
      done, shown := [], [];
      NoPending();
      SegmentSize(ring[..], removeIndex, frames);
      var i := 0;
      while i < ring.Length
        invariant i <= ring.Length && Valid() && |frames| <= ring.Length - i
        invariant done + Pending(frames) == Pending(q)
        invariant shown + (if flip then Unshown(frames) else []) == if flip then Unshown(q) else []
      {
        ghost var d, f := FlushHead(flip);
        done, shown := done + d, shown + f;
        i := i + 1;
      }
      SegmentSize(ring[..], removeIndex, frames);
      EmptyAnywhere(ring[..], removeIndex, 0);
      insertIndex, removeIndex := 0, 0;
    }

    /** One turn of the loop of FlushInternalVSyncQueue. */
    method FlushHead(flip: bool) returns (ghost done: seq<nat>, ghost shown: seq<Flip>)
      requires Valid()
      modifies this`removeIndex, `frames, ring
      ensures Valid() && frames == if old(frames) == [] then [] else old(frames)[1..]
      ensures done + Pending(frames) == Pending(old(frames))
      ensures shown + (if flip then Unshown(frames) else []) == if flip then Unshown(old(frames)) else []
    {
      hide Segment, Pending, Unshown, HoldsFrame;
      done, shown := [], [];
      SegmentSize(ring[..], removeIndex, frames);
      HeadSlot(ring[..], removeIndex, frames);
      var item := ring[removeIndex];
      if item.valid {
        FrameFields(item, frames[0]);
        assert frames == [frames[0]] + frames[1..];
        Heads(frames[0], frames[1..]);
        if !item.flipped && flip {
          shown := [ToBuffer(item.buffer, frames[0].n)];
        }
        if !item.completed {
          done := [item.cookie];
        }
        RetireHead();
      }
    }

    /** The head stops being on the ring. */
    method RetireHead()
      requires Valid() && frames != []
      modifies this`removeIndex, `frames, ring
      ensures Valid() && frames == old(frames)[1..]
    {
      hide Segment, HoldsFrame;
      SegmentSize(ring[..], removeIndex, frames);
      ghost var was := ring[..];
      var item := ring[removeIndex].(completed := false, flipped := false, valid := false);
      DropHead(was, removeIndex, frames, item);
      ring[removeIndex] := item;
      assert ring[..] == was[removeIndex := item];
      removeIndex, frames := Next(removeIndex, ring.Length), frames[1..];
    }

    /** The head changes its flags or its interval. */
    method ChangeHeadItem(item: Item, ghost f: Frame)
      requires Valid() && frames != [] && HoldsFrame(item, f)
      modifies ring, `frames
      ensures Valid() && frames == [f] + old(frames)[1..]
    {
      hide Segment, HoldsFrame;
      SegmentSize(ring[..], removeIndex, frames);
      ghost var was := ring[..];
      ChangeHead(was, removeIndex, frames, item, f);
      ring[removeIndex] := item;
      assert ring[..] == was[removeIndex := item];
      frames := [f] + frames[1..];
    }

    /** The loop of MRSTLFBVSyncIHandler, on the current chain. */
    method HandleVSync(ghost tick: nat) returns (ghost t: Tick)
      requires Valid()
      modifies this, ring
      ensures Valid() && t == VSyncQueue(old(frames), tick) && frames == t.q
    {
      hide Segment, VSyncQueue;
      ghost var done: seq<nat>, retired: seq<Retired> := [], [];
      ghost var q := frames;
      StartVSync(q, tick);
      while true
        invariant Valid()
        invariant VSyncQueue(q, tick) == Joined(done, retired, VSyncQueue(frames, tick))
        decreases |frames|
      {
        SegmentSize(ring[..], removeIndex, frames);
        HeadSlot(ring[..], removeIndex, frames);
        var item := ring[removeIndex];
        VSyncUnfold(frames, tick);
        if !item.valid {
          t := Joined(done, retired, Tick([], [], [], []));
          return;
        }
        ghost var f, rest := frames[0], frames[1..];
        if !item.flipped {
          t := Joined(done, retired, Tick([f.(flipped := true, at := tick)] + rest, [ToBuffer(item.buffer, f.n)], [], []));
          ChangeHeadItem(item.(flipped := true), f.(flipped := true, at := tick));
          return;
        }
        if !item.completed {
          done := done + [item.cookie];
        }
        var left := Less(item.left);
        if left != 0 {
          t := Joined(done, retired, Tick([f.(completed := true, left := left)] + rest, [], [], []));
          ChangeHeadItem(item.(completed := true, left := left), f.(completed := true, left := left));
          return;
        }
        retired := retired + [Retired(f.total, f.at, tick)];
        RetireHead();
      }
    }

    /** The queueing part of ProcessFlip, on a ring with room. */
    method Enqueue(cookie: nat, interval: nat, buffer: nat, flipped: bool, ghost n: nat, ghost at: nat)
      requires Valid() && |frames| < ring.Length
      modifies this, ring
      ensures Valid() && frames == old(frames) + [Frame(cookie, interval, buffer, flipped, false, n, interval, at)]
    {
      hide Segment;
      SegmentSize(ring[..], removeIndex, frames);
      HeadSlot(ring[..], removeIndex, frames);
      ghost var was, f := ring[..], Frame(cookie, interval, buffer, flipped, false, n, interval, at);
      var item := ring[insertIndex].(valid := true, flipped := flipped, left := interval, cookie := cookie, buffer := buffer);
      AddLast(was, removeIndex, frames, item, f);
      ring[insertIndex] := item;
      assert ring[..] == was[insertIndex := item];
      insertIndex, frames := Next(insertIndex, ring.Length), frames + [f];
    }
  }

  lemma SegmentSize(ring: seq<Item>, r: nat, q: seq<Frame>)
    requires Segment(ring, r, q)
    ensures r < |ring| && |q| <= |ring|
  {
  }

  lemma FrameFields(item: Item, f: Frame)
    requires HoldsFrame(item, f)
    ensures item.flipped == f.flipped && item.completed == f.completed && item.cookie == f.cookie && item.buffer == f.buffer
    ensures item.left == f.left && item.valid
  {
  }

  /** What earlier turns of the loop completed and retired, before what is to come. */
  ghost function Joined(done: seq<nat>, retired: seq<Retired>, t: Tick): Tick {
    Tick(t.q, t.flips, done + t.done, retired + t.retired)
  }

  lemma StartVSync(q: seq<Frame>, tick: nat)
    ensures VSyncQueue(q, tick) == Joined([], [], VSyncQueue(q, tick))
  {
  }

  lemma VSyncUnfold(q: seq<Frame>, tick: nat)
    ensures VSyncQueue(q, tick) ==
            if q == [] then Tick([], [], [], [])
            else
              var f, rest := q[0], q[1..];
              if !f.flipped then Tick([f.(flipped := true, at := tick)] + rest, [ToBuffer(f.buffer, f.n)], [], [])
              else
                var done := if f.completed then [] else [f.cookie];
                if Less(f.left) == 0 then Joined(done, [Retired(f.total, f.at, tick)], VSyncQueue(rest, tick))
                else Tick([f.(completed := true, left := Less(f.left))] + rest, [], done, [])
  {
  }

  /** MRSTLFB_DEVINFO: the chains that exist, the one on screen, and the flush state. */
  class Device {
    var chains: map<nat, SwapChain>
    var current: SwapChain?
    var flush: bool
    var refs: nat
    var dark: bool  // suspended, or left the virtual terminal
    ghost var tick: nat
    ghost var taken: seq<nat>
    ghost var done: seq<nat>
    ghost var flips: seq<Flip>
    ghost var retired: seq<Retired>

    ghost function Queues(): map<nat, seq<Frame>>
      reads `chains, chains.Values
    {
      map id | id in chains :: chains[id].frames
    }

    ghost function Caps(): map<nat, nat>
      reads `chains
    {
      map id | id in chains :: chains[id].ring.Length
    }

    ghost function V(): Dev
      reads this, chains.Values
    {
      Dev(Queues(), Caps(), if current == null then 0 else current.id,
          flush, refs, dark, tick, taken, done, flips, retired)
    }

    ghost function Rings(): set<array<Item>>
      reads `chains
    {
      set id | id in chains :: chains[id].ring
    }

    /** Chains are filed under their own numbers and share no ring. */
    ghost predicate Filed()
      reads `chains, chains.Values, Rings()
    {
      && (forall id :: id in chains ==> id != 0 && chains[id].id == id && chains[id].ring in Rings() && chains[id].Valid())
      && (forall i, j :: i in chains && j in chains && i != j ==> chains[i].ring != chains[j].ring)
    }

    ghost predicate Structure()
      reads this, chains.Values, Rings()
    {
      && Filed()
      && (current != null ==> current.id in chains && chains[current.id] == current)
    }

    ghost predicate Valid()
      reads this, chains.Values, Rings()
    {
      Structure() && DevInv(V())
    }

    constructor ()
      ensures Valid() && V() == START
    {
      chains, current, flush, refs, dark := map[], null, false, 0, false;
      tick, taken, done, flips, retired := 0, [], [], [], [];
      new;
      assert V() == START;
      RunKeeps([]);
    }

    /** One chain changed its frames; the others are as before. */
    twostate lemma OneChain(c: SwapChain)
      requires old(Filed()) && c.id in chains && chains[c.id] == c && chains == old(chains) && c.Valid()
      requires forall id :: id in chains && id != c.id ==>
        unchanged(chains[id]) && unchanged(chains[id].ring)
      ensures Filed() && Queues() == old(Queues())[c.id := c.frames] && Caps() == old(Caps())
      ensures c.id in old(Queues()) && old(Queues())[c.id] == old(c.frames)
    {
    }

    /** FlushInternalVSyncQueue, with what it completes and flips. */
    method FlushChain(c: SwapChain, flip: bool)
      requires Structure() && c.id in chains && chains[c.id] == c
      modifies c, c.ring, `done, `flips
      ensures Structure() && V() == FlushRing(old(V()), c.id, flip)
    {
      hide Pending, Unshown, SwapChain.Valid, Queues, Caps;
      ghost var completed, shown := c.Flush(flip);
      OneChain(c);
      done, flips := done + completed, flips + shown;
    }

    /** DRMLFBFlipBuffer for a buffer of chain c. */
    method FlipTo(c: SwapChain, ghost flip: Flip)
      requires Structure() && c.id in chains && chains[c.id] == c
      modifies this, chains.Values, Rings()
      ensures chains == old(chains) && Structure() && V() == FlipBuffer(old(V()), c.id, flip)
    {
      hide Pending, Unshown, Queues, Caps, SwapChain.Valid, FlushRing;
      if current != null && current != c {
        FlushChain(current, false);
      }
      current := c;
      flips := flips + [flip];
    }

    /** The queueing part of ProcessFlip. */
    method EnqueueOn(c: SwapChain, cookie: nat, interval: nat, buffer: nat, flipped: bool, ghost n: nat)
      requires Structure() && c.id in chains && chains[c.id] == c && |c.frames| < c.ring.Length
      modifies c, c.ring, `taken
      ensures Structure() && c.id in old(V()).rings
      ensures var d := old(V());
              V() == d.(taken := d.taken + [cookie],
                        rings := d.rings[c.id := d.rings[c.id] + [Frame(cookie, interval, buffer, flipped, false, n, interval, tick)]])
    {
      hide SwapChain.Valid, Queues, Caps;
      c.Enqueue(cookie, interval, buffer, flipped, n, tick);
      OneChain(c);
      taken := taken + [cookie];
    }

    /** What the queue of a chain says about the item at its insert index. */
    lemma InsertSlot(c: SwapChain)
      requires Filed() && c.id in chains && chains[c.id] == c
      ensures c.id in V().rings && c.id in V().caps && V().rings[c.id] == c.frames && V().caps[c.id] == c.ring.Length
      ensures c.insertIndex < c.ring.Length && |c.frames| <= c.ring.Length
      ensures c.ring[c.insertIndex].valid <==> |c.frames| == c.ring.Length
      ensures |c.frames| < c.ring.Length ==> (c.insertIndex == c.removeIndex <==> c.frames == [])
    {
      HeadSlot(c.ring[..], c.removeIndex, c.frames);
    }

    /** ProcessFlip. */
    method ProcessFlip(c: SwapChain, cookie: nat, interval: nat, buffer: nat) returns (ok: bool)
      requires Valid() && c.id in chains && chains[c.id] == c
      modifies this, chains.Values, Rings()
      ensures Valid() && chains == old(chains)
      ensures c.id in old(V()).rings && c.id in old(V()).caps && V() == Submit(old(V()), c.id, cookie, interval, buffer)
      ensures ok == Accepted(old(V()), c.id, interval)
    {
      hide SwapChain.Valid, Queues, Caps, FlipBuffer, DevInv, Filed;
      InsertSlot(c);
      SubmitKeeps(V(), c.id, cookie, interval, buffer);
      if interval == 0 || flush {
        ShowNow(c, cookie, buffer);
        return true;
      }
      ok := QueueFlip(c, cookie, interval, buffer);
    }

    /** ProcessFlip without a queue. */
    method ShowNow(c: SwapChain, cookie: nat, buffer: nat)
      requires Structure() && c.id in chains && chains[c.id] == c
      modifies this, chains.Values, Rings()
      ensures Structure() && chains == old(chains) && (old(V()).current != 0 ==> old(V()).current in old(V()).rings)
      ensures var e := FlipBuffer(old(V()), c.id, ToBuffer(buffer, old(|taken|)));
              V() == e.(taken := e.taken + [cookie], done := e.done + [cookie])
    {
      hide SwapChain.Valid, Queues, Caps, FlipBuffer, Filed;
      CurrentFiled();
      FlipTo(c, ToBuffer(buffer, |taken|));
      taken, done := taken + [cookie], done + [cookie];
    }

    /** ProcessFlip with a queue: the first frame of a ring is shown at once. */
    method QueueFlip(c: SwapChain, cookie: nat, interval: nat, buffer: nat) returns (ok: bool)
      requires Valid() && c.id in chains && chains[c.id] == c && interval != 0 && !flush
      modifies this, chains.Values, Rings()
      ensures Structure() && chains == old(chains)
      ensures c.id in old(V()).rings && c.id in old(V()).caps && V() == Submit(old(V()), c.id, cookie, interval, buffer)
      ensures ok == Accepted(old(V()), c.id, interval)
    {
      hide SwapChain.Valid, Queues, Caps, FlipBuffer, DevInv, Filed;
      ghost var n := |taken|;
      InsertSlot(c);
      FlipBufferKeeps(V(), c.id, ToBuffer(buffer, n));
      if c.ring[c.insertIndex].valid {
        return false;
      }
      var flipped := false;
      if c.insertIndex == c.removeIndex {
        FlipTo(c, ToBuffer(buffer, n));
        InsertSlot(c);
        flipped := true;
      }
      EnqueueOn(c, cookie, interval, buffer, flipped, n);
      return true;
    }

    /** The loop of MRSTLFBVSyncIHandler. */
    method TickChain(c: SwapChain)
      requires Structure() && c.id in chains && chains[c.id] == c
      modifies c, c.ring, `tick, `flips, `done, `retired
      ensures Structure() && c.id in old(V()).rings
      ensures var d := old(V());
              var t := VSyncQueue(d.rings[c.id], d.tick + 1);
              V() == d.(tick := d.tick + 1, rings := d.rings[c.id := t.q], flips := d.flips + t.flips,
                        done := d.done + t.done, retired := d.retired + t.retired)
    {
      hide SwapChain.Valid, Queues, Caps, VSyncQueue, Filed, Structure;
      ghost var t := RunChain(c);
      LogTick(t);
    }

    ghost method LogTick(t: Tick)
      requires Structure()
      modifies `tick, `flips, `done, `retired
      ensures Structure()
      ensures var d := old(V());
              V() == d.(tick := d.tick + 1, flips := d.flips + t.flips, done := d.done + t.done, retired := d.retired + t.retired)
    {
      hide SwapChain.Valid, Queues, Caps;
      tick, flips, done, retired := tick + 1, flips + t.flips, done + t.done, retired + t.retired;
    }

    method RunChain(c: SwapChain) returns (ghost t: Tick)
      requires Structure() && c.id in chains && chains[c.id] == c
      modifies c, c.ring
      ensures Structure() && c.id in old(V()).rings && t == VSyncQueue(old(V()).rings[c.id], tick + 1)
      ensures V() == old(V()).(rings := old(V()).rings[c.id := t.q])
    {
      hide SwapChain.Valid, Queues, Caps, VSyncQueue;
      t := c.HandleVSync(tick + 1);
      OneChain(c);
    }

    /** MRSTLFBVSyncIHandler. */
    method HandleVSync()
      requires Valid()
      modifies this, chains.Values, Rings()
      ensures Valid() && chains == old(chains) && V() == VSync(old(V()))
      ensures |flips| <= old(|flips|) + 1
    {
      hide SwapChain.Valid, Queues, Caps, VSyncQueue, DevInv, Filed;
      CurrentFiled();
      VSyncKeeps(V());
      if current == null || flush || dark {
        return;
      }
      TickChain(current);
    }

    lemma CurrentFiled()
      requires Structure()
      ensures current != null ==> current.id != 0 && current.id in V().rings
      ensures current == null ==> V().current == 0
    {
    }

    /** SetFlushStateNoLock. */
    method SetFlushState(on: bool)
      requires Valid()
      modifies this, chains.Values, Rings()
      ensures Valid() && chains == old(chains) && V() == SetFlush(old(V()), on)
    {
      hide Structure, DevInv, V, SetFlush;
      if on {
        RaiseFlush();
      } else {
        LowerFlush();
      }
    }

    /** One more holder of the flush state. */
    method RaiseFlush()
      requires Valid()
      modifies this, chains.Values, Rings()
      ensures Valid() && chains == old(chains) && V() == SetFlush(old(V()), true)
    {
      hide SwapChain.Valid, Queues, Caps, DevInv, Filed, FlushRing;
      CurrentFiled();
      SetFlushKeeps(V(), true);
      if refs == 0 {
        StartFlush();
      }
      refs := refs + 1;
    }

    method LowerFlush()
      requires Valid()
      modifies `refs, `flush
      ensures Valid() && V() == SetFlush(old(V()), false)
    {
      hide SwapChain.Valid, Queues, Caps, DevInv, FlushRing;
      ghost var d := V();
      CurrentFiled();
      SetFlushKeeps(d, false);
      if refs != 0 {
        refs := refs - 1;
        flush := flush && refs != 0;
        assert V() == SetFlush(d, false);
      }
    }

    /** The first holder of the flush state empties the current ring. */
    method StartFlush()
      requires Structure()
      modifies this, chains.Values, Rings()
      ensures chains == old(chains) && Structure()
      ensures var d := old(V());
              && (d.current != 0 ==> d.current in d.rings)
              && V() == (if d.current == 0 then d else FlushRing(d, d.current, true)).(flush := true)
    {
      hide SwapChain.Valid, Queues, Caps, Filed, Pending, Unshown;
      CurrentFiled();
      flush := true;
      if current != null {
        FlushChain(current, true);
      }
    }

    /** Suspend, resume and leaving the virtual terminal, as far as the vsync handler sees them. */
    method SetDark(on: bool)
      requires Valid()
      modifies `dark
      ensures Valid() && V() == old(V()).(dark := on)
    {
      hide SwapChain.Valid, Queues, Caps, DevInv;
      ghost var s := V();
      SameQueue(s, s.(dark := on));
      dark := on;
    }

    /** A new chain joins the table. */
    twostate lemma ChainJoins(new c: SwapChain)
      requires old(Filed()) && c.id != 0 && c.id !in old(chains) && chains == old(chains)[c.id := c] && c.Valid()
      requires forall id :: id in old(chains) ==> unchanged(old(chains[id])) && unchanged(old(chains[id].ring))
      requires forall id :: id in old(chains) ==> old(chains)[id].ring != c.ring
      ensures Filed()
    {
      hide SwapChain.Valid, Queues, Caps;
      forall id | id in chains
        ensures id != 0 && chains[id].id == id && chains[id].Valid() && chains[id].ring in Rings()
      {
        if id != c.id {
          assert chains[id] == old(chains)[id] && old(chains[id].Valid());
        }
      }
      forall i, j | i in chains && j in chains && i != j
        ensures chains[i].ring != chains[j].ring
      {
        assert i != c.id ==> chains[i] == old(chains)[i];
        assert j != c.id ==> chains[j] == old(chains)[j];
      }
    }

    twostate lemma QueuesJoin(new c: SwapChain)
      requires c.id !in old(chains) && chains == old(chains)[c.id := c]
      requires forall id :: id in old(chains) ==> unchanged(old(chains[id]))
      ensures Queues() == old(Queues())[c.id := c.frames] && Caps() == old(Caps())[c.id := c.ring.Length]
    {
      assert forall id :: id in old(chains) ==> chains[id] == old(chains)[id];
    }

    /** A chain leaves the table. */
    twostate lemma ChainLeaves(id: nat)
      requires old(Filed()) && id in old(chains) && chains == old(chains) - {id}
      requires forall k :: k in chains ==> unchanged(chains[k]) && unchanged(chains[k].ring)
      ensures Filed()
      ensures Queues() == old(Queues()) - {id} && Caps() == old(Caps()) - {id}
    {
      hide SwapChain.Valid;
      forall k | k in chains
        ensures chains[k].Valid()
      {
        assert old(chains[k].Valid());
      }
    }

    /** CreateDCSwapChain: the flags stand for the checks of the arguments and of the display mode,
        and for the allocations before and after the search for a free slot. */
    method CreateSwapChain(argsOk: bool, bufferCount: nat, maxBuffers: nat, modeOk: bool, chainOk: bool, buffersOk: bool)
      returns (e: Error, c: SwapChain?)
      requires Valid()
      modifies this
      ensures Valid() && (e == Ok <==> c != null)
      ensures e == if !argsOk then InvalidParams
                   else if bufferCount > maxBuffers then TooManyBuffers
                   else if !modeOk then InvalidParams
                   else if !chainOk || TableFull(old(chains).Keys) || !buffersOk then OutOfMemory else Ok
      ensures e != Ok ==> V() == old(V()) && chains == old(chains)
      ensures e == Ok ==> fresh(c) && fresh(c.ring) && FirstVacant(old(chains).Keys, c.id) && chains == old(chains)[c.id := c]
      ensures e == Ok ==> V() == Create(old(V()), c.id, bufferCount + 1)
    {
      hide DevInv, Queues, Caps, Filed, Create;
      c := null;
      if !argsOk {
        return InvalidParams, null;
      }
      if bufferCount > maxBuffers {
        return TooManyBuffers, null;
      }
      if !modeOk {
        return InvalidParams, null;
      }
      if !chainOk {
        return OutOfMemory, null;
      }
      var id := FindVacant();
      if id > MAX_SWAPCHAINS || !buffersOk {
        return OutOfMemory, null;
      }
      c := CreateChain(id, bufferCount);
      return Ok, c;
    }

    /** The first slot of the chain table that is vacant, or the one after the last. */
    method FindVacant() returns (id: nat)
      requires Valid()
      ensures Valid() && V() == old(V())
      ensures if id <= MAX_SWAPCHAINS then FirstVacant(chains.Keys, id) else TableFull(chains.Keys)
    {
      hide DevInv, Filed, Queues, Caps;
      id := 1;
      while id <= MAX_SWAPCHAINS && id in chains
        invariant 0 < id <= MAX_SWAPCHAINS + 1 && forall j :: 0 < j < id ==> j in chains
      {
        id := id + 1;
      }
    }

    /** The queue part of CreateDCSwapChain, for a free slot of the chain table. */
    method CreateChain(id: nat, bufferCount: nat) returns (c: SwapChain)
      requires Valid() && id != 0 && id !in chains
      modifies this
      ensures Valid() && fresh(c) && fresh(c.ring) && c.id == id && chains == old(chains)[id := c]
      ensures V() == Create(old(V()), id, bufferCount + 1)
    {
      hide SwapChain.Valid, Queues, Caps, DevInv;
      CreateKeeps(V(), id, bufferCount + 1) by { NotQueued(id); }
      c := new SwapChain(id, bufferCount);
      AddChain(c);
    }

    method AddChain(c: SwapChain)
      requires Structure() && c.Valid() && c.id != 0 && c.id !in chains
      requires forall id :: id in chains ==> chains[id].ring != c.ring
      modifies this
      ensures Structure() && chains == old(chains)[c.id := c]
      ensures var d := old(V());
              V() == d.(rings := d.rings[c.id := c.frames], caps := d.caps[c.id := c.ring.Length],
                        current := if d.current == 0 then c.id else d.current)
    {
      hide SwapChain.Valid, Queues, Caps, Filed;
      CurrentFiled();
      if current == null {
        current := c;
      }
      chains := chains[c.id := c];
      ChainJoins(c);
      QueuesJoin(c);
    }

    lemma NotQueued(id: nat)
      requires id !in chains
      ensures id !in V().rings
    {
    }

    /** The queue part of DestroyDCSwapChain. */
    method DestroyChain(c: SwapChain)
      requires Valid() && c.id in chains && chains[c.id] == c
      modifies this, chains.Values, Rings()
      ensures Valid() && chains == old(chains) - {c.id}
      ensures c.id in old(V()).rings && V() == Destroy(old(V()), c.id)
    {
      hide SwapChain.Valid, Queues, Caps, DevInv, Filed, Structure, Pending, Unshown;
      ghost var d := V();
      ChainIn(c);
      DestroyKeeps(d, c.id);
      var last := |chains| == 1;
      FlushChain(c, last);
      RemoveChain(c, last);
    }

    lemma ChainIn(c: SwapChain)
      requires Structure() && c.id in chains && chains[c.id] == c
      ensures c.id in V().rings && |V().rings| == |chains| && Filed()
    {
      ChainCount();
    }

    /** The chain leaves the table and is not current any more; without chains the system
        buffer is shown. */
    method RemoveChain(c: SwapChain, last: bool)
      requires Structure() && c.id in chains && chains[c.id] == c
      modifies this
      ensures Structure() && chains == old(chains) - {c.id}
      ensures var d := old(V());
              V() == d.(rings := d.rings - {c.id}, caps := d.caps - {c.id},
                        current := if last || d.current == c.id then 0 else d.current,
                        flips := d.flips + if last then [ToSystem] else [])
    {
      hide SwapChain.Valid, Queues, Caps, Filed;
      if last {
        flips := flips + [ToSystem];
        current := null;
      } else if current == c {
        current := null;
      }
      chains := chains - {c.id};
      ChainLeaves(c.id);
    }

    lemma ChainCount()
      ensures |V().rings| == |chains|
    {
      assert V().rings.Keys == chains.Keys;
      assert |V().rings.Keys| == |V().rings| && |chains.Keys| == |chains|;
    }
  }
}
