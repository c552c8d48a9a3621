/** src/services4/3rdparty/linux_framebuffer_mrst/mrstlfb_displayclass.c as a state machine:
    every operation that holds the swap-chain lock is one step. */
module FlipSpec {

  /** A queued flip command. `n` counts accepted commands, `total` is the interval it came
      with and `at` the number of handled vsyncs when it was flipped. */
  datatype Frame = Frame(cookie: nat, left: nat, buffer: nat, flipped: bool, completed: bool, n: nat, total: nat, at: nat)

  /** A flip to a command's buffer, or to the system buffer. */
  datatype Flip = ToBuffer(buffer: nat, n: nat) | ToSystem

  /** A frame that used up its interval: flipped after `from` handled vsyncs, gone after `to`. */
  datatype Retired = Retired(total: nat, from: nat, to: nat)

  /** `rings` holds the queued frames of each swap chain and `caps` how many fit; `current` is 0
      for none; the four logs record what has happened so far. */
  datatype Dev = Dev(rings: map<nat, seq<Frame>>, caps: map<nat, nat>, current: nat, flush: bool, refs: nat, dark: bool,
                     tick: nat, taken: seq<nat>, done: seq<nat>, flips: seq<Flip>, retired: seq<Retired>)

  // ---------- queues ----------

  /** The cookies not yet completed, in queue order. */
  function Pending(q: seq<Frame>): seq<nat> {
    if q == [] then [] else (if q[0].completed then [] else [q[0].cookie]) + Pending(q[1..])
  }

  /** The flips of the frames not yet flipped, in queue order. */
  function Unshown(q: seq<Frame>): seq<Flip> {
    if q == [] then [] else (if q[0].flipped then [] else [ToBuffer(q[0].buffer, q[0].n)]) + Unshown(q[1..])
  }

  datatype Tick = Tick(q: seq<Frame>, flips: seq<Flip>, done: seq<nat>, retired: seq<Retired>)

  /** Decrementing an unsigned long. */
  function Less(x: nat): nat {
    if x == 0 then 0xffff_ffff_ffff_ffff else x - 1
  }

  /** One handled vsync, number `tick`, on a queue. */
  function VSyncQueue(q: seq<Frame>, tick: nat): Tick
    decreases |q|
  {
    if q == [] then Tick([], [], [], [])
    else
      var f, rest := q[0], q[1..];
      if !f.flipped then Tick([f.(flipped := true, at := tick)] + rest, [ToBuffer(f.buffer, f.n)], [], [])
      else
        var done := if f.completed then [] else [f.cookie];
        if Less(f.left) == 0 then
          var t := VSyncQueue(rest, tick);
          Tick(t.q, t.flips, done + t.done, [Retired(f.total, f.at, tick)] + t.retired)
        else Tick([f.(completed := true, left := Less(f.left))] + rest, [], done, [])
  }

  // ---------- steps ----------

  /** FlushInternalVSyncQueue. */
  function FlushRing(d: Dev, id: nat, flip: bool): Dev
    requires id in d.rings
  {
    d.(rings := d.rings[id := []], done := d.done + Pending(d.rings[id]),
       flips := d.flips + if flip then Unshown(d.rings[id]) else [])
  }

  /** DRMLFBFlipBuffer for a buffer of chain id: another current chain is flushed first. */
  function FlipBuffer(d: Dev, id: nat, flip: Flip): Dev
    requires d.current != 0 ==> d.current in d.rings
  {
    var e := if d.current != 0 && d.current != id then FlushRing(d, d.current, false) else d;
    e.(current := id, flips := e.flips + [flip])
  }

  /** ProcessFlip. */
  function Submit(d: Dev, id: nat, cookie: nat, interval: nat, buffer: nat): Dev
    requires id in d.rings && id in d.caps && (d.current != 0 ==> d.current in d.rings)
  {
    var n := |d.taken|;
    var q := d.rings[id];
    if interval == 0 || d.flush then
      var e := FlipBuffer(d, id, ToBuffer(buffer, n));
      e.(taken := e.taken + [cookie], done := e.done + [cookie])
    else if |q| == d.caps[id] then d
    else
      var f := Frame(cookie, interval, buffer, q == [], false, n, interval, d.tick);
      var e := if q == [] then FlipBuffer(d, id, ToBuffer(buffer, n)) else d;
      e.(taken := e.taken + [cookie], rings := e.rings[id := q + [f]])
  }

  predicate Accepted(d: Dev, id: nat, interval: nat)
    requires id in d.rings && id in d.caps
  {
    interval == 0 || d.flush || |d.rings[id]| != d.caps[id]
  }

  /** MRSTLFBVSyncIHandler. */
  function VSync(d: Dev): Dev
    requires d.current != 0 ==> d.current in d.rings
  {
    if d.current == 0 || d.flush || d.dark then d
    else
      var t := VSyncQueue(d.rings[d.current], d.tick + 1);
      d.(tick := d.tick + 1, rings := d.rings[d.current := t.q], flips := d.flips + t.flips,
         done := d.done + t.done, retired := d.retired + t.retired)
  }

  /** SetFlushStateNoLock. */
  function SetFlush(d: Dev, on: bool): Dev
    requires d.current != 0 ==> d.current in d.rings
  {
    if on then
      var e := if d.refs != 0 then d
               else if d.current == 0 then d.(flush := true)
               else FlushRing(d, d.current, true).(flush := true);
      e.(refs := e.refs + 1)
    else if d.refs == 0 then d
    else d.(refs := d.refs - 1, flush := d.flush && d.refs != 1)
  }

  /** The queue part of CreateDCSwapChain. */
  function Create(d: Dev, id: nat, cap: nat): Dev {
    d.(rings := d.rings[id := []], caps := d.caps[id := cap], current := if d.current == 0 then id else d.current)
  }

  /** The queue part of DestroyDCSwapChain: the last chain gives way to the system buffer. */
  function Destroy(d: Dev, id: nat): Dev
    requires id in d.rings
  {
    var last := |d.rings| == 1;
    var e := FlushRing(d, id, last);
    e.(rings := e.rings - {id}, caps := e.caps - {id},
       current := if last || d.current == id then 0 else d.current,
       flips := e.flips + if last then [ToSystem] else [])
  }

  // ---------- what every step keeps ----------

  ghost function Queue(d: Dev): seq<Frame> {
    if d.current in d.rings then d.rings[d.current] else []
  }

  /** The first frame is on screen, alone, and has been there for the vsyncs it has used up. */
  ghost predicate QueueOk(q: seq<Frame>, tick: nat) {
    && (forall k :: 0 <= k < |q| ==> q[k].left > 0)
    && (q != [] ==> q[0].flipped && q[0].left <= q[0].total && tick == q[0].at + (q[0].total - q[0].left))
    && (forall k :: 0 < k < |q| ==> !q[k].flipped && !q[k].completed && q[k].left == q[k].total)
  }

  ghost predicate OnTime(retired: seq<Retired>) {
    forall k :: 0 <= k < |retired| ==> retired[k].to == retired[k].from + retired[k].total
  }

  /** Only the current chain has frames queued, none while commands are flushed; every accepted
      cookie is completed once or still waits in the queue; frames left the queue on time. */
  ghost predicate DevInv(d: Dev) {
    && 0 !in d.rings && d.caps.Keys == d.rings.Keys
    && (d.current != 0 ==> d.current in d.rings)
    && (d.flush <==> d.refs > 0)
    && (forall id :: id in d.rings && (id != d.current || d.flush) ==> d.rings[id] == [])
    && (forall id :: id in d.rings ==> |d.rings[id]| <= d.caps[id])
    && QueueOk(Queue(d), d.tick)
    && Balanced(d.taken, d.done, Pending(Queue(d)))
    && OnTime(d.retired)
  }

  ghost predicate Balanced(taken: seq<nat>, done: seq<nat>, pending: seq<nat>) {
    multiset(taken) == multiset(done) + multiset(pending)
  }

  lemma {:induction false} QueueConcat(q: seq<Frame>, r: seq<Frame>)
    ensures Pending(q + r) == Pending(q) + Pending(r) && Unshown(q + r) == Unshown(q) + Unshown(r)
  {
    hide Pending, Unshown;
    NoPending();
    if q == [] {
      assert q + r == r && Pending([]) + Pending(r) == Pending(r) && Unshown([]) + Unshown(r) == Unshown(r);
    } else {
      var f, rest := q[0], q[1..];
      QueueConcat(rest, r);
      assert q == [f] + rest && q + r == [f] + (rest + r);
      Heads(f, rest);
      Heads(f, rest + r);
    }
  }

  /** What a handled vsync does when the head is on screen. */
  lemma VSyncCases(q: seq<Frame>, tick: nat)
    requires QueueOk(q, tick) && q != []
    ensures var t, f, rest := VSyncQueue(q, tick + 1), q[0], q[1..];
            var now := if f.completed then [] else [f.cookie];
            && t.done == now
            && (f.left > 1 ==> t == Tick([f.(completed := true, left := f.left - 1)] + rest, [], now, []))
            && (f.left == 1 ==> t.retired == [Retired(f.total, f.at, tick + 1)])
            && (f.left == 1 && rest == [] ==> t.q == [] && t.flips == [])
            && (f.left == 1 && rest != [] ==>
                  && t.q == [rest[0].(flipped := true, at := tick + 1)] + rest[1..]
                  && t.flips == [ToBuffer(rest[0].buffer, rest[0].n)])
  {
    var rest := q[1..];
    if q[0].left == 1 && rest != [] {
      assert VSyncQueue(rest, tick + 1).done == [];
    }
  }

  lemma Heads(f: Frame, rest: seq<Frame>)
    ensures Pending([f] + rest) == (if f.completed then [] else [f.cookie]) + Pending(rest)
    ensures Unshown([f] + rest) == (if f.flipped then [] else [ToBuffer(f.buffer, f.n)]) + Unshown(rest)
  {
    assert ([f] + rest)[1..] == rest;
  }

  lemma VSyncShape(q: seq<Frame>, tick: nat)
    requires QueueOk(q, tick)
    ensures var t := VSyncQueue(q, tick + 1);
            QueueOk(t.q, tick + 1) && |t.q| <= |q| && |t.flips| <= 1 && OnTime(t.retired)
  {
    hide VSyncQueue;
    if q != [] {
      VSyncCases(q, tick);
      var t, rest := VSyncQueue(q, tick + 1), q[1..];
      if q[0].left > 1 {
        assert t.q[1..] == rest;
      } else if rest != [] {
        assert t.q[1..] == rest[1..];
      }
    } else {
      VSyncNone(tick);
    }
  }

  lemma VSyncNone(tick: nat)
    ensures VSyncQueue([], tick + 1) == Tick([], [], [], [])
  {
  }

  lemma VSyncLogs(q: seq<Frame>, tick: nat)
    requires QueueOk(q, tick)
    ensures var t := VSyncQueue(q, tick + 1);
            Pending(q) == t.done + Pending(t.q) && Unshown(q) == t.flips + Unshown(t.q)
  {
    hide VSyncQueue, Pending, Unshown;
    NoPending();
    VSyncNone(tick);
    if q != [] {
      VSyncCases(q, tick);
      var f, rest := q[0], q[1..];
      assert q == [f] + rest;
      Heads(f, rest);
      if f.left > 1 {
        Heads(f.(completed := true, left := f.left - 1), rest);
      } else if rest != [] {
        assert rest == [rest[0]] + rest[1..] && rest[0] == q[1];
        Heads(rest[0], rest[1..]);
        Heads(rest[0].(flipped := true, at := tick + 1), rest[1..]);
      }
    }
  }

  /** A handled vsync flips at most one frame, completes and flips in queue order, and lets a
      frame go only when its interval is used up. */
  lemma VSyncQueueKeeps(q: seq<Frame>, tick: nat)
    requires QueueOk(q, tick)
    ensures var t := VSyncQueue(q, tick + 1);
            && QueueOk(t.q, tick + 1) && |t.q| <= |q| && |t.flips| <= 1 && OnTime(t.retired)
            && Pending(q) == t.done + Pending(t.q) && Unshown(q) == t.flips + Unshown(t.q)
  {
    hide QueueOk, VSyncQueue, Pending, Unshown, OnTime;
    VSyncShape(q, tick);
    VSyncLogs(q, tick);
  }

  // ---------- every step keeps the invariant ----------

  lemma Accept(taken: seq<nat>, done: seq<nat>, pending: seq<nat>, cookie: nat)
    requires Balanced(taken, done, pending)
    ensures Balanced(taken + [cookie], done, pending + [cookie]) && Balanced(taken + [cookie], done + [cookie], pending)
  {
  }

  lemma Complete(taken: seq<nat>, done: seq<nat>, now: seq<nat>, pending: seq<nat>)
    requires Balanced(taken, done, now + pending)
    ensures Balanced(taken, done + now, pending)
  {
  }

  lemma FlushKeeps(d: Dev, flip: bool)
    requires DevInv(d) && d.current != 0
    ensures var e := FlushRing(d, d.current, flip);
            DevInv(e) && Queue(e) == [] && forall id :: id in e.rings ==> e.rings[id] == []
  {
    hide Balanced, Pending;
    assert Pending(Queue(d)) + Pending([]) == Pending(Queue(d)) by { NoPending(); }
    Complete(d.taken, d.done, Pending(Queue(d)), Pending([]));
  }

  lemma NoPending()
    ensures Pending([]) == [] && Unshown([]) == []
  {
  }

  /** After DRMLFBFlipBuffer the chain is current and every other chain is empty. */
  lemma FlipBufferKeeps(d: Dev, id: nat, flip: Flip)
    requires DevInv(d) && id in d.rings
    ensures var e := FlipBuffer(d, id, flip);
            && DevInv(e) && e.current == id && e.rings[id] == d.rings[id] && e.taken == d.taken && e.tick == d.tick
            && e.flush == d.flush && e.caps == d.caps
  {
    if d.current != 0 && d.current != id {
      FlushKeeps(d, false);
    }
  }

  lemma QueuePush(q: seq<Frame>, f: Frame, tick: nat)
    requires QueueOk(q, tick) && f.left == f.total > 0 && !f.completed && f.flipped == (q == []) && (f.flipped ==> f.at == tick)
    ensures QueueOk(q + [f], tick) && Pending(q + [f]) == Pending(q) + [f.cookie]
    ensures Unshown(q + [f]) == Unshown(q) + if f.flipped then [] else [ToBuffer(f.buffer, f.n)]
  {
    QueueConcat(q, [f]);
    assert Pending([f]) == [f.cookie];
  }

  lemma DirectKeeps(d: Dev, id: nat, cookie: nat, buffer: nat)
    requires DevInv(d) && id in d.rings
    ensures var e := FlipBuffer(d, id, ToBuffer(buffer, |d.taken|));
            DevInv(e.(taken := e.taken + [cookie], done := e.done + [cookie]))
  {
    hide Balanced, Pending, QueueOk, FlipBuffer, OnTime;
    FlipBufferKeeps(d, id, ToBuffer(buffer, |d.taken|));
    var e := FlipBuffer(d, id, ToBuffer(buffer, |d.taken|));
    Accept(e.taken, e.done, Pending(Queue(e)), cookie);
    assert Queue(e.(taken := e.taken + [cookie], done := e.done + [cookie])) == Queue(e);
  }

  lemma QueuedKeeps(d: Dev, id: nat, f: Frame)
    requires DevInv(d) && id == d.current && id in d.rings && id in d.caps && |d.rings[id]| < d.caps[id] && !d.flush
    requires f.left == f.total > 0 && !f.completed && f.flipped == (d.rings[id] == []) && f.at == d.tick
    ensures DevInv(d.(taken := d.taken + [f.cookie], rings := d.rings[id := d.rings[id] + [f]]))
  {
    hide Balanced, Pending, QueueOk, OnTime;
    Accept(d.taken, d.done, Pending(d.rings[id]), f.cookie);
    QueuePush(d.rings[id], f, d.tick);
  }

  lemma SubmitKeeps(d: Dev, id: nat, cookie: nat, interval: nat, buffer: nat)
    requires DevInv(d) && id in d.rings
    ensures id in d.caps && DevInv(Submit(d, id, cookie, interval, buffer))
  {
    hide Balanced, QueueOk, FlipBuffer, OnTime;
    var n, q := |d.taken|, d.rings[id];
    if interval == 0 || d.flush {
      DirectKeeps(d, id, cookie, buffer);
    } else if |q| != d.caps[id] {
      var f := Frame(cookie, interval, buffer, q == [], false, n, interval, d.tick);
      if q == [] {
        FlipBufferKeeps(d, id, ToBuffer(buffer, n));
        QueuedKeeps(FlipBuffer(d, id, ToBuffer(buffer, n)), id, f);
      } else {
        QueuedKeeps(d, id, f);
      }
    }
  }

  lemma VSyncKeeps(d: Dev)
    requires DevInv(d)
    ensures DevInv(VSync(d)) && |VSync(d).flips| <= |d.flips| + 1
  {
    hide Balanced, Pending, QueueOk, VSyncQueue, OnTime;
    if !(d.current == 0 || d.flush || d.dark) {
      VSyncQueueKeeps(Queue(d), d.tick);
      var t := VSyncQueue(Queue(d), d.tick + 1);
      Complete(d.taken, d.done, t.done, Pending(t.q));
      BothOnTime(d.retired, t.retired);
      assert Queue(VSync(d)) == t.q;
    }
  }

  lemma BothOnTime(a: seq<Retired>, b: seq<Retired>)
    requires OnTime(a) && OnTime(b)
    ensures OnTime(a + b)
  {
  }

  lemma SetFlushKeeps(d: Dev, on: bool)
    requires DevInv(d)
    ensures DevInv(SetFlush(d, on))
  {
    if on && d.refs == 0 && d.current != 0 {
      FlushKeeps(d, true);
    }
  }

  lemma CreateKeeps(d: Dev, id: nat, cap: nat)
    requires DevInv(d) && id != 0 && id !in d.rings
    ensures DevInv(Create(d, id, cap))
  {
    assert Queue(Create(d, id, cap)) == Queue(d);
  }

  lemma RemoveKeeps(d: Dev, id: nat, current: nat, flips: seq<Flip>)
    requires DevInv(d) && id in d.rings && d.rings[id] == []
    requires current == d.current != id || (current == 0 && Queue(d) == [])
    ensures DevInv(d.(rings := d.rings - {id}, caps := d.caps - {id}, current := current, flips := flips))
  {
    hide Balanced, Pending, QueueOk, OnTime;
    var e := d.(rings := d.rings - {id}, caps := d.caps - {id}, current := current, flips := flips);
    assert Queue(e) == Queue(d);
  }

  lemma DestroyKeeps(d: Dev, id: nat)
    requires DevInv(d) && id in d.rings
    ensures DevInv(Destroy(d, id))
  {
    hide Balanced, QueueOk, OnTime, Unshown;
    var last := |d.rings| == 1;
    var e := FlushRing(d, id, last);
    if last {
      OnlyKey(d.rings, id);
    }
    if d.current == id {
      FlushKeeps(d, last);
    } else {
      NoPending();
      assert e == d;
    }
    RemoveKeeps(e, id, if last || d.current == id then 0 else d.current, Destroy(d, id).flips);
  }

  lemma OnlyKey(m: map<nat, seq<Frame>>, id: nat)
    requires |m| == 1 && id in m
    ensures forall k :: k in m ==> k == id
  {
    assert |m.Keys - {id}| == 0;
    assert m.Keys == (m.Keys - {id}) + {id};
  }

  // ---------- order, as long as no command has interval 0 ----------

  /** The flips to command buffers are in the order in which the commands were accepted. */
  ghost predicate Rising(flips: seq<Flip>, n: nat) {
    && (forall i :: 0 <= i < |flips| && flips[i].ToBuffer? ==> flips[i].n < n)
    && (forall i, j :: 0 <= i < j < |flips| && flips[i].ToBuffer? && flips[j].ToBuffer? ==> flips[i].n < flips[j].n)
  }

  /** Cookies are completed in the order of submission, the rest waits in that order; so are
      the flips, done and to come. */
  ghost predicate InOrder(d: Dev) {
    && d.taken == d.done + Pending(Queue(d))
    && Rising(d.flips + Unshown(Queue(d)), |d.taken|)
  }

  lemma RisingPush(flips: seq<Flip>, n: nat, buffer: nat)
    requires Rising(flips, n)
    ensures Rising(flips + [ToBuffer(buffer, n)], n + 1) && Rising(flips + [ToSystem], n) && Rising(flips, n + 1)
  {
  }

  lemma RisingCut(flips: seq<Flip>, more: seq<Flip>, n: nat)
    requires Rising(flips + more, n)
    ensures Rising(flips, n)
  {
    forall i | 0 <= i < |flips|
      ensures flips[i] == (flips + more)[i]
    {
    }
  }

  lemma FlushInOrder(d: Dev, flip: bool)
    requires DevInv(d) && InOrder(d) && d.current != 0
    ensures InOrder(FlushRing(d, d.current, flip))
  {
    hide Rising, Pending, Unshown, Balanced, QueueOk;
    NoPending();
    var e, q := FlushRing(d, d.current, flip), Queue(d);
    RisingCut(d.flips, Unshown(q), |d.taken|);
    assert e.done + [] == e.done && e.flips + [] == e.flips && d.flips + [] == d.flips;
  }

  lemma FlipBufferInOrder(d: Dev, id: nat, cookie: nat, buffer: nat)
    requires DevInv(d) && InOrder(d) && id in d.rings && d.rings[id] == []
    ensures var e := FlipBuffer(d, id, ToBuffer(buffer, |d.taken|));
            && e.taken == d.taken == e.done && Queue(e) == []
            && Rising(e.flips, |d.taken| + 1)
  {
    hide Rising, Pending, Unshown, Balanced, QueueOk;
    NoPending();
    var e := if d.current != 0 && d.current != id then FlushRing(d, d.current, false) else d;
    if d.current != 0 && d.current != id {
      FlushInOrder(d, false);
      FlushKeeps(d, false);
    }
    assert Queue(e) == [];
    assert e.done + [] == e.done && e.flips + [] == e.flips;
    RisingPush(e.flips, |d.taken|, buffer);
  }

  lemma SubmitInOrder(d: Dev, id: nat, cookie: nat, interval: nat, buffer: nat)
    requires DevInv(d) && InOrder(d) && id in d.rings && interval > 0
    ensures id in d.caps && InOrder(Submit(d, id, cookie, interval, buffer))
  {
    hide Rising, Balanced, Pending, Unshown, FlipBuffer, OnTime, QueueOk, InOrder;
    var n, q := |d.taken|, d.rings[id];
    if d.flush || q == [] {
      ShownInOrder(d, id, cookie, interval, buffer);
    } else if |q| != d.caps[id] {
      QueuedInOrder(d, id, Frame(cookie, interval, buffer, false, false, n, interval, d.tick));
    }
  }

  /** The first command of a ring, or one in the flush state. */
  lemma ShownInOrder(d: Dev, id: nat, cookie: nat, interval: nat, buffer: nat)
    requires DevInv(d) && InOrder(d) && id in d.rings && id in d.caps && interval > 0 && (d.flush || d.rings[id] == [])
    requires d.current != 0 ==> d.current in d.rings
    ensures InOrder(Submit(d, id, cookie, interval, buffer))
  {
    hide Rising, Balanced, Pending, Unshown, FlipBuffer, OnTime, QueueOk;
    var n, e := |d.taken|, Submit(d, id, cookie, interval, buffer);
    NoPending();
    FlipBufferInOrder(d, id, cookie, buffer);
    FlipBufferKeeps(d, id, ToBuffer(buffer, n));
    if d.flush {
      assert Queue(e) == [];
      assert e.done + [] == e.done && e.flips + [] == e.flips;
    } else if 0 != d.caps[id] {
      var f := Frame(cookie, interval, buffer, true, false, n, interval, d.tick);
      assert Queue(e) == [f];
      OneFrame(f);
      assert e.flips + [] == e.flips;
    }
  }

  /** A command behind others. */
  lemma QueuedInOrder(d: Dev, id: nat, f: Frame)
    requires DevInv(d) && InOrder(d) && id in d.rings && d.rings[id] != [] && f.n == |d.taken| && !f.flipped && !f.completed
    requires f.left == f.total > 0
    ensures InOrder(d.(taken := d.taken + [f.cookie], rings := d.rings[id := d.rings[id] + [f]]))
  {
    hide DevInv, Rising, Pending, Unshown, QueueOk;
    var q, e := d.rings[id], d.(taken := d.taken + [f.cookie], rings := d.rings[id := d.rings[id] + [f]]);
    QueueOf(d, id);
    QueuePush(q, f, d.tick);
    RisingPush(d.flips + Unshown(q), |d.taken|, f.buffer);
    assert d.flips + Unshown(q) + [ToBuffer(f.buffer, f.n)] == e.flips + Unshown(q + [f]);
    assert e.done + Pending(q + [f]) == d.done + Pending(q) + [f.cookie];
  }

  lemma OneFrame(f: Frame)
    ensures Pending([f]) == (if f.completed then [] else [f.cookie])
    ensures Unshown([f]) == (if f.flipped then [] else [ToBuffer(f.buffer, f.n)])
  {
    assert [f][1..] == [];
    NoPending();
  }

  /** Nothing waits before a command that is shown at once, or only a completed frame does. */
  predicate NothingBefore(q: seq<Frame>, cookie: nat) {
    q == [] || (|q| == 1 && (q[0].completed || q[0].cookie == cookie))
  }

  /** The queue after a command that is shown at once: the one of its chain, as it was. */
  lemma DirectState(d: Dev, id: nat, cookie: nat, buffer: nat)
    requires DevInv(d) && InOrder(d) && id in d.rings
    ensures id in d.caps && (d.current != 0 ==> d.current in d.rings)
    ensures var e, q := Submit(d, id, cookie, 0, buffer), d.rings[id];
            && Queue(e) == q && e.taken == d.taken + [cookie]
            && (q == [] ==> e.done == d.taken + [cookie] && Rising(e.flips, |d.taken| + 1))
            && (q != [] ==> d.current == id && e.done == d.done + [cookie] && e.flips == d.flips + [ToBuffer(buffer, |d.taken|)])
  {
    hide Rising, Pending, Unshown, Balanced, QueueOk, OnTime, FlushRing;
    if d.rings[id] == [] {
      FlipBufferInOrder(d, id, cookie, buffer);
      FlipBufferKeeps(d, id, ToBuffer(buffer, |d.taken|));
    }
  }

  /** Two frames on a queue: the second is still to be shown. */
  lemma SecondUnshown(q: seq<Frame>, tick: nat)
    requires QueueOk(q, tick) && |q| >= 2
    ensures Unshown(q) != [] && Unshown(q)[0].ToBuffer?
  {
    hide Unshown;
    assert q == [q[0]] + q[1..] && q[1..] == [q[1]] + q[2..];
    Heads(q[0], q[1..]);
    Heads(q[1], q[2..]);
  }

  /** A command with interval 0 keeps the order exactly when nothing waits before it. */
  lemma DirectInOrder(d: Dev, id: nat, cookie: nat, buffer: nat)
    requires DevInv(d) && InOrder(d) && id in d.rings
    ensures id in d.caps
    ensures InOrder(Submit(d, id, cookie, 0, buffer)) <==> NothingBefore(d.rings[id], cookie)
  {
    hide DevInv, Submit, Pending, Unshown, QueueOk;
    DirectState(d, id, cookie, buffer);
    var q, e, n := d.rings[id], Submit(d, id, cookie, 0, buffer), |d.taken|;
    NoPending();
    if q == [] {
      assert e.done + [] == e.done && e.flips + [] == e.flips;
    } else {
      QueueOf(d, id);
      if |q| == 1 {
        assert q == [q[0]];
        OneFrame(q[0]);
        DirectAlone(d, e, q[0], cookie, buffer);
      } else {
        SecondUnshown(q, d.tick);
        DirectTooEarly(d.flips, Unshown(q), n, buffer);
      }
    }
  }

  lemma QueueOf(d: Dev, id: nat)
    requires DevInv(d) && id in d.rings && d.rings[id] != []
    ensures d.current == id && Queue(d) == d.rings[id] && QueueOk(d.rings[id], d.tick) && d.rings[id][0].flipped
  {
    hide Balanced, Pending, OnTime;
  }

  lemma DirectAlone(d: Dev, e: Dev, f: Frame, cookie: nat, buffer: nat)
    requires InOrder(d) && Queue(d) == [f] && Queue(e) == [f] && f.flipped
    requires e.taken == d.taken + [cookie] && e.done == d.done + [cookie] && e.flips == d.flips + [ToBuffer(buffer, |d.taken|)]
    ensures InOrder(e) <==> f.completed || f.cookie == cookie
  {
    hide Pending, Unshown, Rising;
    OneFrame(f);
    assert d.flips + [] == d.flips && e.flips + [] == e.flips;
    RisingPush(d.flips, |d.taken|, buffer);
    if f.completed {
      assert d.done + [] == d.done && e.done + [] == e.done;
    } else {
      assert e.taken[|d.done|] == f.cookie;
      assert (e.done + [f.cookie])[|d.done|] == cookie;
      if f.cookie == cookie {
        assert e.done + [f.cookie] == d.done + [cookie, cookie] == e.taken;
      }
    }
  }

  lemma DirectTooEarly(flips: seq<Flip>, more: seq<Flip>, n: nat, buffer: nat)
    requires Rising(flips + more, n) && more != [] && more[0].ToBuffer?
    ensures !Rising(flips + [ToBuffer(buffer, n)] + more, n + 1)
  {
    var all := flips + [ToBuffer(buffer, n)] + more;
    assert (flips + more)[|flips|] == more[0];
    assert all[|flips|] == ToBuffer(buffer, n) && all[|flips| + 1] == more[0];
  }

  lemma VSyncInOrder(d: Dev)
    requires DevInv(d) && InOrder(d)
    ensures InOrder(VSync(d))
  {
    hide Rising, Balanced, Pending, Unshown, QueueOk, VSyncQueue;
    if !(d.current == 0 || d.flush || d.dark) {
      VSyncQueueKeeps(Queue(d), d.tick);
      var t := VSyncQueue(Queue(d), d.tick + 1);
      assert d.flips + (t.flips + Unshown(t.q)) == d.flips + t.flips + Unshown(t.q);
      assert d.done + (t.done + Pending(t.q)) == d.done + t.done + Pending(t.q);
    }
  }

  lemma SetFlushInOrder(d: Dev, on: bool)
    requires DevInv(d) && InOrder(d)
    ensures InOrder(SetFlush(d, on))
  {
    if on && d.refs == 0 && d.current != 0 {
      FlushInOrder(d, true);
    }
  }

  lemma DestroyInOrder(d: Dev, id: nat)
    requires DevInv(d) && InOrder(d) && id in d.rings
    ensures InOrder(Destroy(d, id))
  {
    hide Rising, Balanced, QueueOk, OnTime, Pending, Unshown;
    var last := |d.rings| == 1;
    var e := FlushRing(d, id, last);
    NoPending();
    if last {
      OnlyKey(d.rings, id);
    }
    if d.current == id {
      FlushInOrder(d, last);
      FlushKeeps(d, last);
    } else {
      assert e == d;
    }
    var g := Destroy(d, id);
    if last {
      assert Queue(e) == [];
      assert e.flips + [] == e.flips && g.flips + [] == g.flips;
      RisingPush(e.flips, |d.taken|, 0);
    } else {
      assert g.flips == e.flips;
    }
    assert Queue(g) == Queue(e);
  }

  // ---------- runs ----------

  datatype Op = DoSubmit(id: nat, cookie: nat, interval: nat, buffer: nat) | DoVSync | DoFlush(on: bool)
              | DoCreate(id: nat, cap: nat) | DoDestroy(id: nat) | DoDark(dark: bool)

  /** A step on a chain that exists, or the creation of one that does not. */
  ghost predicate Enabled(d: Dev, op: Op) {
    && (d.current != 0 ==> d.current in d.rings)
    && match op
       case DoSubmit(id, _, _, _) => id in d.rings && id in d.caps
       case DoCreate(id, cap) => id != 0 && id !in d.rings
       case DoDestroy(id) => id in d.rings
       case _ => true
  }

  ghost function Step(d: Dev, op: Op): Dev {
    if !Enabled(d, op) then d
    else
      match op
      case DoSubmit(id, cookie, interval, buffer) => Submit(d, id, cookie, interval, buffer)
      case DoVSync => VSync(d)
      case DoFlush(on) => SetFlush(d, on)
      case DoCreate(id, cap) => Create(d, id, cap)
      case DoDestroy(id) => Destroy(d, id)
      case DoDark(dark) => d.(dark := dark)
  }

  lemma StepKeeps(d: Dev, op: Op)
    requires DevInv(d)
    ensures DevInv(Step(d, op))
    ensures InOrder(d) && (op.DoSubmit? ==> op.interval > 0) ==> InOrder(Step(d, op))
  {
    hide DevInv, InOrder;
    if !Enabled(d, op) {
      return;
    }
    match op
    case DoSubmit(id, cookie, interval, buffer) =>
      SubmitKeeps(d, id, cookie, interval, buffer);
      if InOrder(d) && interval > 0 {
        SubmitInOrder(d, id, cookie, interval, buffer);
      }
    case DoVSync =>
      VSyncKeeps(d);
      if InOrder(d) {
        VSyncInOrder(d);
      }
    case DoFlush(on) =>
      SetFlushKeeps(d, on);
      if InOrder(d) {
        SetFlushInOrder(d, on);
      }
    case DoCreate(id, cap) =>
      CreateKeeps(d, id, cap);
      SameQueue(d, Create(d, id, cap));
    case DoDestroy(id) =>
      DestroyKeeps(d, id);
      if InOrder(d) {
        DestroyInOrder(d, id);
      }
    case DoDark(dark) =>
      SameQueue(d, d.(dark := dark));
  }

  lemma SameQueue(d: Dev, e: Dev)
    requires DevInv(d) && e.taken == d.taken && e.done == d.done && e.flips == d.flips && e.retired == d.retired
    requires e == d.(dark := e.dark) || exists id, cap :: id != 0 && id !in d.rings && e == Create(d, id, cap)
    ensures InOrder(d) ==> InOrder(e)
    ensures e == d.(dark := e.dark) ==> DevInv(e)
  {
    assert Queue(e) == Queue(d);
  }

  const START: Dev := Dev(map[], map[], 0, false, 0, false, 0, [], [], [], [])

  ghost function Run(ops: seq<Op>): Dev {
    if ops == [] then START else Step(Run(ops[..|ops| - 1]), ops[|ops| - 1])
  }

  /** Over every run: the invariant; and order, when no command had interval 0. */
  lemma {:induction false} RunKeeps(ops: seq<Op>)
    ensures DevInv(Run(ops))
    ensures (forall k :: 0 <= k < |ops| && ops[k].DoSubmit? ==> ops[k].interval > 0) ==> InOrder(Run(ops))
  {
    if ops == [] {
      assert Queue(START) == [];
    } else {
      hide DevInv, InOrder, Step;
      RunKeeps(ops[..|ops| - 1]);
      StepKeeps(Run(ops[..|ops| - 1]), ops[|ops| - 1]);
    }
  }

  /** The operation submits the cookie, and the command is accepted. */
  ghost predicate Takes(d: Dev, op: Op, cookie: nat) {
    op.DoSubmit? && op.cookie == cookie && Enabled(d, op) && Accepted(d, op.id, op.interval)
  }

  /** How often a run had the cookie submitted and accepted. */
  ghost function Accepts(ops: seq<Op>, cookie: nat): nat {
    if ops == [] then 0
    else
      var front, last := ops[..|ops| - 1], ops[|ops| - 1];
      Accepts(front, cookie) + if Takes(Run(front), last, cookie) then 1 else 0
  }

  lemma StepTakes(d: Dev, op: Op, cookie: nat)
    ensures multiset(Step(d, op).taken)[cookie] == multiset(d.taken)[cookie] + if Takes(d, op, cookie) then 1 else 0
  {
    hide Submit, Accepted, Pending, Unshown, VSyncQueue;
    if Enabled(d, op) && op.DoSubmit? {
      SubmitTakes(d, op.id, op.cookie, op.interval, op.buffer);
    }
  }

  lemma SubmitTakes(d: Dev, id: nat, cookie: nat, interval: nat, buffer: nat)
    requires id in d.rings && id in d.caps && (d.current != 0 ==> d.current in d.rings)
    ensures Submit(d, id, cookie, interval, buffer).taken == d.taken + if Accepted(d, id, interval) then [cookie] else []
  {
    hide FlipBuffer;
    FlipBufferTakes(d, id, ToBuffer(buffer, |d.taken|));
  }

  lemma FlipBufferTakes(d: Dev, id: nat, flip: Flip)
    requires d.current != 0 ==> d.current in d.rings
    ensures FlipBuffer(d, id, flip).taken == d.taken
  {
  }

  lemma {:induction false} TakenCounts(ops: seq<Op>, cookie: nat)
    ensures multiset(Run(ops).taken)[cookie] == Accepts(ops, cookie)
  {
    if ops != [] {
      hide Step, Takes;
      TakenCounts(ops[..|ops| - 1], cookie);
      StepTakes(Run(ops[..|ops| - 1]), ops[|ops| - 1], cookie);
    }
  }

  /** Over every run: however often a cookie was accepted, so often it has been completed or
      still waits; one accepted once is completed once or waits once. */
  lemma ExactlyOnce(ops: seq<Op>, cookie: nat)
    ensures var d := Run(ops);
            multiset(d.done)[cookie] + multiset(Pending(Queue(d)))[cookie] == Accepts(ops, cookie)
  {
    hide Run, Pending, Queue, QueueOk;
    RunKeeps(ops);
    TakenCounts(ops, cookie);
  }

  /** A command with interval 0 behind one that waits: its cookie is completed first. */
  lemma DirectOvertakes()
    ensures var d := Run([DoCreate(1, 3), DoSubmit(1, 7, 1, 0), DoSubmit(1, 8, 0, 1)]);
            d.taken == [7, 8] && d.done == [8] && !InOrder(d)
  {
    var a, b, c := DoCreate(1, 3), DoSubmit(1, 7, 1, 0), DoSubmit(1, 8, 0, 1);
    assert [a, b, c][..2] == [a, b] && [a, b][..1] == [a] && [a][..0] == [];
    var d := Step(START, a);
    assert d.rings == map[1 := []] && Run([a]) == d;
    var e := Step(d, b);
    assert Run([a, b]) == e && e.rings[1] == [Frame(7, 1, 0, true, false, 0, 1, 0)];
    var f := Step(e, c);
    assert Run([a, b, c]) == f && f.taken == [7, 8] && f.done == [8];
    assert f.taken[0] != (f.done + Pending(Queue(f)))[0];
  }

  /** Flushing commands, or destroying the current chain, completes every command still queued. */
  lemma FlushCompletesAll(d: Dev, id: nat)
    requires DevInv(d)
    ensures multiset(SetFlush(d, true).done) == multiset(SetFlush(d, true).taken)
    ensures id == d.current != 0 ==> multiset(Destroy(d, id).done) == multiset(Destroy(d, id).taken)
  {
    SetFlushKeeps(d, true);
    NoPending();
    assert Queue(SetFlush(d, true)) == [] by {
      if d.refs == 0 && d.current != 0 {
        FlushKeeps(d, true);
      }
    }
    if id == d.current != 0 {
      DestroyKeeps(d, id);
      assert Queue(Destroy(d, id)) == [];
    }
  }

  /** k vsyncs in a row. */
  ghost function VSyncs(d: Dev, k: nat): Dev {
    if k == 0 then d else Step(VSyncs(d, k - 1), DoVSync)
  }

  lemma HeadStep(c: Dev)
    requires DevInv(c) && Queue(c) != [] && !c.flush && !c.dark
    ensures var e, f, rest := Step(c, DoVSync), Queue(c)[0], Queue(c)[1..];
            && DevInv(e) && e.current == c.current && !e.flush && !e.dark && e.tick == c.tick + 1
            && (f.left > 1 ==> Queue(e) == [f.(completed := true, left := f.left - 1)] + rest)
            && (f.left == 1 ==> |Queue(e)| == |rest| && |e.retired| > 0
                                && e.retired[|e.retired| - 1] == Retired(f.total, f.at, f.at + f.total))
  {
    hide DevInv;
    StepKeeps(c, DoVSync);
    VSyncOf(c);
    VSyncCases(Queue(c), c.tick);
    hide VSyncQueue;
  }

  lemma VSyncOf(c: Dev)
    requires DevInv(c) && Queue(c) != []
    ensures c.current != 0 && c.current in c.rings && QueueOk(Queue(c), c.tick)
  {
  }

  /** The frame on screen stays for exactly the vsyncs its interval still gives it, and then
      goes, with the time it stayed recorded. */
  lemma {:induction false} HeadStays(d: Dev, k: nat)
    requires DevInv(d) && Queue(d) != [] && !d.flush && !d.dark && k <= Queue(d)[0].left
    ensures var e, f := VSyncs(d, k), Queue(d)[0];
            && DevInv(e) && e.current == d.current && !e.flush && !e.dark && e.tick == d.tick + k
            && (k < f.left ==> Queue(e) == [f.(left := f.left - k, completed := f.completed || k > 0)] + Queue(d)[1..])
            && (k > 0 && k == f.left ==>
                  && |Queue(e)| == |Queue(d)| - 1 && |e.retired| > 0
                  && e.retired[|e.retired| - 1] == Retired(f.total, f.at, f.at + f.total))
  {
    hide DevInv, Step, Queue;
    var q := Queue(d);
    if k == 0 {
      assert q == [q[0]] + q[1..];
    } else {
      HeadStays(d, k - 1);
      var c := VSyncs(d, k - 1);
      HeadStep(c);
      assert Queue(c)[1..] == q[1..];
    }
  }
}
