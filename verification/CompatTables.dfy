/** The fixed structures the 32-on-64 marshaller in
    src/services4/srvkm/bridged/bridged_pvr_bridge.c moves. */
module CompatTables {
  import opened CompatCopy
  import opened CompatLayout
  import opened CompatWalk

  // ---------- the three descriptor lists ----------

  const DEV_INIT_PART2: seq<Run> := [
    Run(U, 1), Run(H, 1), Run(H, 6), Run(U, 11), Run(B, 1728), Run(U, 1), Run(B, 52), Run(H, 1), Run(H, 2),
    Run(U, 7), Run(U, 24), Run(H, 18)]

  const DO_KICK: seq<Run> := [
    Run(U, 1), Run(H, 1), Run(B, 32), Run(H, 1), Run(U, 1), Run(H, 1), Run(H, 1), Run(U, 2), Run(S, 32), Run(S, 4),
    Run(U, 4), Run(H, 8), Run(U, 1), Run(H, 3), Run(H, 1)]

  const SUBMIT_TRANSFER: seq<Run> := [
    Run(U, 1), Run(H, 1), Run(H, 1), Run(U, 2), Run(H, 2), Run(U, 1), Run(H, 5), Run(U, 1), Run(H, 5), Run(U, 2),
    Run(H, 1)]

  /** One run further. */
  lemma Step(runs: seq<Run>, i: nat, so: nat, ko: nat)
    requires i < |runs| && SrcEnd(runs[..i]) == so && DstEnd(runs[..i]) == ko
    ensures var r := runs[i];
            && SrcEnd(runs[..i + 1]) == so + r.count * SrcBytes(r.kind)
            && DstEnd(runs[..i + 1]) == (if r.kind == H || r.kind == S then AlignUp(ko, 8) else ko) + r.count * DstBytes(r.kind)
  {
    OffsetsAfter(runs, i);
  }

  lemma DevInitPart2Size1()
    ensures SrcEnd(DEV_INIT_PART2[..4]) == 76 && DstEnd(DEV_INIT_PART2[..4]) == 108
  {
    hide SrcEnd, DstEnd;
    NoRuns(DEV_INIT_PART2);
    Step(DEV_INIT_PART2, 0, 0, 0);
    Step(DEV_INIT_PART2, 1, 4, 4);
    Step(DEV_INIT_PART2, 2, 8, 16);
    Step(DEV_INIT_PART2, 3, 32, 64);
  }

  lemma DevInitPart2Size2()
    ensures SrcEnd(DEV_INIT_PART2[..8]) == 1864 && DstEnd(DEV_INIT_PART2[..8]) == 1904
  {
    hide SrcEnd, DstEnd;
    DevInitPart2Size1();
    Step(DEV_INIT_PART2, 4, 76, 108);
    Step(DEV_INIT_PART2, 5, 1804, 1836);
    Step(DEV_INIT_PART2, 6, 1808, 1840);
    Step(DEV_INIT_PART2, 7, 1860, 1892);
  }

  lemma DevInitPart2Size()
    ensures SrcEnd(DEV_INIT_PART2) == 2068 && DstEnd(DEV_INIT_PART2) == 2192
  {
    hide SrcEnd, DstEnd;
    DevInitPart2Size2();
    Step(DEV_INIT_PART2, 8, 1864, 1904);
    Step(DEV_INIT_PART2, 9, 1872, 1920);
    Step(DEV_INIT_PART2, 10, 1900, 1948);
    Step(DEV_INIT_PART2, 11, 1996, 2044);
    assert DEV_INIT_PART2[..12] == DEV_INIT_PART2;
  }

  lemma DoKickSize1()
    ensures SrcEnd(DO_KICK[..4]) == 44 && DstEnd(DO_KICK[..4]) == 56
  {
    hide SrcEnd, DstEnd;
    NoRuns(DO_KICK);
    Step(DO_KICK, 0, 0, 0);
    Step(DO_KICK, 1, 4, 4);
    Step(DO_KICK, 2, 8, 16);
    Step(DO_KICK, 3, 40, 48);
  }

  lemma DoKickSize2()
    ensures SrcEnd(DO_KICK[..8]) == 64 && DstEnd(DO_KICK[..8]) == 88
  {
    hide SrcEnd, DstEnd;
    DoKickSize1();
    Step(DO_KICK, 4, 44, 56);
    Step(DO_KICK, 5, 48, 60);
    Step(DO_KICK, 6, 52, 72);
    Step(DO_KICK, 7, 56, 80);
  }

  lemma DoKickSize3()
    ensures SrcEnd(DO_KICK[..12]) == 544 && DstEnd(DO_KICK[..12]) == 744
  {
    hide SrcEnd, DstEnd;
    DoKickSize2();
    Step(DO_KICK, 8, 64, 88);
    Step(DO_KICK, 9, 448, 600);
    Step(DO_KICK, 10, 496, 664);
    Step(DO_KICK, 11, 512, 680);
  }

  lemma DoKickSize()
    ensures SrcEnd(DO_KICK) == 564 && DstEnd(DO_KICK) == 784
  {
    hide SrcEnd, DstEnd;
    DoKickSize3();
    Step(DO_KICK, 12, 544, 744);
    Step(DO_KICK, 13, 548, 748);
    Step(DO_KICK, 14, 560, 776);
    assert DO_KICK[..15] == DO_KICK;
  }

  lemma SubmitTransferSize1()
    ensures SrcEnd(SUBMIT_TRANSFER[..4]) == 20 && DstEnd(SUBMIT_TRANSFER[..4]) == 32
  {
    hide SrcEnd, DstEnd;
    NoRuns(SUBMIT_TRANSFER);
    Step(SUBMIT_TRANSFER, 0, 0, 0);
    Step(SUBMIT_TRANSFER, 1, 4, 4);
    Step(SUBMIT_TRANSFER, 2, 8, 16);
    Step(SUBMIT_TRANSFER, 3, 12, 24);
  }

  lemma SubmitTransferSize2()
    ensures SrcEnd(SUBMIT_TRANSFER[..8]) == 56 && DstEnd(SUBMIT_TRANSFER[..8]) == 100
  {
    hide SrcEnd, DstEnd;
    SubmitTransferSize1();
    Step(SUBMIT_TRANSFER, 4, 20, 32);
    Step(SUBMIT_TRANSFER, 5, 28, 48);
    Step(SUBMIT_TRANSFER, 6, 32, 52);
    Step(SUBMIT_TRANSFER, 7, 52, 96);
  }

  lemma SubmitTransferSize()
    ensures SrcEnd(SUBMIT_TRANSFER) == 88 && DstEnd(SUBMIT_TRANSFER) == 160
  {
    hide SrcEnd, DstEnd;
    SubmitTransferSize2();
    Step(SUBMIT_TRANSFER, 8, 56, 100);
    Step(SUBMIT_TRANSFER, 9, 76, 144);
    Step(SUBMIT_TRANSFER, 10, 84, 152);
    assert SUBMIT_TRANSFER[..11] == SUBMIT_TRANSFER;
  }

  // ---------- the misc-info structure ----------

  /** W: a 4-byte scalar, P: a pointer or handle, N: n opaque bytes. */
  datatype MiscKind = W | P | N(n: nat)

  /** Field offsets in the i686 structure and in the kernel one. */
  datatype Misc = Misc(i6: nat, kn: nat, k: MiscKind)

  const MISC_INFO: seq<Misc> := [
    Misc(0, 0, W), Misc(4, 4, W), Misc(8, 8, P), Misc(12, 16, P), Misc(16, 24, P), Misc(20, 32, P), Misc(24, 40, P),
    Misc(28, 48, W), Misc(32, 56, P), Misc(36, 64, W), Misc(40, 72, N(50)), Misc(92, 128, P), Misc(96, 136, P),
    Misc(100, 144, N(16)), Misc(116, 160, W), Misc(120, 164, W), Misc(124, 168, P), Misc(128, 176, P), Misc(132, 184, W)]

  function MiscLen(k: MiscKind): nat {
    match k
    case W => 4
    case P => 4
    case N(n) => n
  }

  function MiscPad(k: MiscKind): nat {
    if k == P then 4 else 0
  }

  /** A misc-info field of a structure at offset i686 in one layout and kernel in the other. */
  function MiscField(f: Misc, i686: nat, kernel: nat, expand: bool): Field {
    if expand then Field(i686 + f.i6, kernel + f.kn, MiscLen(f.k), MiscPad(f.k))
    else Field(kernel + f.kn, i686 + f.i6, MiscLen(f.k), 0)
  }

  ghost function MiscPlan(i686: nat, kernel: nat, expand: bool): (r: seq<Field>)
    ensures |r| == |MISC_INFO|
    ensures forall i :: 0 <= i < |MISC_INFO| ==> r[i] == MiscField(MISC_INFO[i], i686, kernel, expand)
  {
    seq(|MISC_INFO|, i requires 0 <= i < |MISC_INFO| => MiscField(MISC_INFO[i], i686, kernel, expand))
  }

  /** One field ends before the next begins, in both structures. */
  predicate Follows(a: Misc, b: Misc) {
    a.i6 + MiscLen(a.k) <= b.i6 && a.kn + MiscLen(a.k) + MiscPad(a.k) <= b.kn
  }

  lemma MiscFieldAt(i: nat)
    requires i < |MISC_INFO|
    ensures MISC_INFO[i].i6 <= MISC_INFO[i].kn
    ensures MISC_INFO[i].i6 + MiscLen(MISC_INFO[i].k) <= 136
    ensures MISC_INFO[i].kn + MiscLen(MISC_INFO[i].k) + MiscPad(MISC_INFO[i].k) <= 192
    ensures i + 1 < |MISC_INFO| ==> Follows(MISC_INFO[i], MISC_INFO[i + 1])
  {
  }

  lemma {:induction false} MiscApart(i: nat, j: nat)
    requires i < j < |MISC_INFO|
    ensures Follows(MISC_INFO[i], MISC_INFO[j])
    decreases j
  {
    hide *;
    MiscFieldAt(j - 1);
    if i < j - 1 {
      MiscApart(i, j - 1);
      FollowsTwice(MISC_INFO[i], MISC_INFO[j - 1], MISC_INFO[j]);
    }
  }

  lemma FollowsTwice(a: Misc, b: Misc, c: Misc)
    requires Follows(a, b) && Follows(b, c)
    ensures Follows(a, c)
  {
  }

  lemma MiscPlansMove(i686: nat, kernel: nat, n: nat)
    requires i686 <= kernel && i686 + 136 <= n && kernel + 192 <= n
    ensures AllFit(MiscPlan(i686, kernel, true), n) && Expanding(MiscPlan(i686, kernel, true))
    ensures AllFit(MiscPlan(i686, kernel, false), n) && Compacting(MiscPlan(i686, kernel, false))
  {
    hide MISC_INFO, MiscPlan;
    var up, down := MiscPlan(i686, kernel, true), MiscPlan(i686, kernel, false);
    forall i | 0 <= i < |MISC_INFO|
      ensures Fits(up[i], n) && up[i].from <= up[i].to && Fits(down[i], n)
    {
      MiscFieldAt(i);
    }
    forall i, j | 0 <= i < j < |MISC_INFO|
      ensures Before(up[i], up[j]) && SourceBefore(up[i], up[j])
      ensures Before(down[i], down[j]) && WrittenBefore(down[i], down[j])
    {
      MiscApart(i, j);
      MiscFieldAt(j);
    }
  }

  /** A byte copy from the front, for a destination at or below the source. */
  method CopyForward(buf: array<Byte>, s: nat, d: nat, c: nat)
    requires d <= s && s + c <= buf.Length
    modifies buf
    ensures buf[..] == Splice(old(buf[..]), d, old(buf[s..s + c]))
  {
    hide Splice;
    ghost var orig := buf[..];
    var j := 0;
    SpliceNone(orig, d, orig[s..s + j]);
    while j < c
      invariant j <= c
      invariant buf[..] == Splice(orig, d, orig[s..s + j])
    {
      ghost var b := buf[..];
      buf[d + j] := buf[s + j];
      assert buf[..] == b[d + j := b[s + j]];
      SpliceOneHigher(orig, s, d, j);
      j := j + 1;
    }
  }

  lemma SpliceOneHigher(orig: seq<Byte>, s: nat, d: nat, j: nat)
    requires d <= s && s + j < |orig|
    ensures var b := Splice(orig, d, orig[s..s + j]);
            b[d + j := b[s + j]] == Splice(orig, d, orig[s..s + j + 1])
  {
    assert orig[s..s + j + 1] == orig[s..s + j] + [orig[s + j]];
  }

  /** One field of PVRCompatXlateMiscInfo. */
  method MoveMisc(buf: array<Byte>, f: Misc, i686: nat, kernel: nat, expand: bool)
    requires Fits(MiscField(f, i686, kernel, expand), buf.Length)
    requires i686 + f.i6 <= kernel + f.kn
    modifies buf
    ensures buf[..] == Put(old(buf[..]), MiscField(f, i686, kernel, expand), old(buf[..]))
  {
    hide Put, Splice, Zeros;
    PutMeans(buf[..], MiscField(f, i686, kernel, expand));
    var s, d := if expand then i686 + f.i6 else kernel + f.kn, if expand then kernel + f.kn else i686 + f.i6;
    match f.k
    case W => Store(buf, d, buf[s..s + 4]);
    case P =>
      if expand {
        Store(buf, d, buf[s..s + 4] + Zeros(4));
      } else {
        Store(buf, d, buf[s..s + 4]);
      }
    case N(n) => CopyBytes(buf, s, d, n, expand);
  }

  /** Opaque bytes, copied from the end when the structure grows. */
  method CopyBytes(buf: array<Byte>, s: nat, d: nat, n: nat, expand: bool)
    requires s + n <= buf.Length && d + n <= buf.Length && if expand then s <= d else d <= s
    modifies buf
    ensures buf[..] == Splice(old(buf[..]), d, old(buf[s..s + n]))
  {
    hide Splice;
    if expand {
      CopyBackward(buf, s, d, n);
    } else {
      CopyForward(buf, s, d, n);
    }
  }

  /** PVRCompatXlateMiscInfo: growing walks the fields from the last, shrinking from the first. */
  method XlateMiscInfo(buf: array<Byte>, i686: nat, kernel: nat, expand: bool)
    requires i686 <= kernel && i686 + 136 <= buf.Length && kernel + 192 <= buf.Length
    modifies buf
    ensures AllFit(MiscPlan(i686, kernel, expand), buf.Length)
    ensures buf[..] == Apply(old(buf[..]), MiscPlan(i686, kernel, expand))
  {
    hide MiscPlan, Apply, Put, AllFit, Expanding, Compacting, MISC_INFO, MiscField, Fits;
    ghost var orig, plan := buf[..], MiscPlan(i686, kernel, expand);
    MiscPlansMove(i686, kernel, buf.Length);
    MoveNothing(orig, plan);
    if expand {
      var ii: nat := |MISC_INFO|;
      while ii > 0
        invariant ii <= |MISC_INFO| && AllFit(plan[ii..], |orig|) && buf[..] == Apply(orig, plan[ii..])
      {
        ii := ii - 1;
        StepDown(orig, plan, ii + 1);
        MiscFieldAt(ii);
        MoveMisc(buf, MISC_INFO[ii], i686, kernel, true);
      }
      assert plan[0..] == plan;
    } else {
      var ii: nat := 0;
      while ii < |MISC_INFO|
        invariant ii <= |MISC_INFO| && AllFit(plan[..ii], |orig|) && buf[..] == Apply(orig, plan[..ii])
      {
        StepUp(orig, plan, ii);
        MiscFieldAt(ii);
        MoveMisc(buf, MISC_INFO[ii], i686, kernel, false);
        ii := ii + 1;
      }
      assert plan[..|MISC_INFO|] == plan;
    }
  }

  lemma MoveNothing(orig: seq<Byte>, plan: seq<Field>)
    requires AllFit(plan, |orig|)
    ensures AllFit(plan[|plan|..], |orig|) && Apply(orig, plan[|plan|..]) == orig
    ensures AllFit(plan[..0], |orig|) && Apply(orig, plan[..0]) == orig
  {
  }

  /** Growing and shrinking again gives back every byte of every i686 field; the kernel copy and
      the i686 copy overlap in one buffer. */
  lemma MiscRoundTrip(a: seq<Byte>, i686: nat, kernel: nat, i: nat, y: nat)
    requires i686 <= kernel && i686 + 136 <= |a| && kernel + 192 <= |a| && i < |MISC_INFO|
    requires i686 + MISC_INFO[i].i6 <= y < i686 + MISC_INFO[i].i6 + MiscLen(MISC_INFO[i].k)
    ensures AllFit(MiscPlan(i686, kernel, true), |a|) && AllFit(MiscPlan(i686, kernel, false), |a|) && y < |a|
    ensures Apply(Apply(a, MiscPlan(i686, kernel, true)), MiscPlan(i686, kernel, false))[y] == a[y]
  {
    hide MISC_INFO, MiscPlan, Apply, AllFit;
    MiscPlansMove(i686, kernel, |a|);
    BackAgain(a, MiscPlan(i686, kernel, true), MiscPlan(i686, kernel, false), i, y);
  }

  // ---------- arrays of heap descriptions ----------

  /** Where the six words of PVRSRV_HEAP_INFO are in the kernel structure: the second is a handle. */
  function HeapWord(j: nat): nat {
    if j == 0 then 0 else if j == 1 then 8 else 8 + 4 * j
  }

  /** Word j of heap i, from a kernel array at `kernel` to an i686 array at `i686`. */
  function HeapField(kernel: nat, i686: nat, i: nat, j: nat): Field {
    Field(kernel + 32 * i + HeapWord(j), i686 + 24 * i + 4 * j, 4, 0)
  }

  ghost function HeapPlan(kernel: nat, i686: nat, n: nat): (r: seq<Field>)
    ensures |r| == 6 * n && forall m :: 0 <= m < 6 * n ==> r[m] == HeapField(kernel, i686, m / 6, m % 6)
  {
    seq(6 * n, m requires 0 <= m < 6 * n => HeapField(kernel, i686, m / 6, m % 6))
  }

  lemma HeapApart(kernel: nat, i686: nat, a: nat, b: nat)
    requires i686 <= kernel && a < b
    ensures var f, g := HeapField(kernel, i686, a / 6, a % 6), HeapField(kernel, i686, b / 6, b % 6);
            Before(f, g) && WrittenBefore(f, g)
  {
    var i, j, i', j' := a / 6, a % 6, b / 6, b % 6;
    assert a == 6 * i + j && b == 6 * i' + j';
    assert HeapWord(j') >= 4 * j';
  }

  lemma HeapPlanCompacts(kernel: nat, i686: nat, n: nat, size: nat)
    requires i686 <= kernel && kernel + 32 * n <= size
    ensures AllFit(HeapPlan(kernel, i686, n), size) && Compacting(HeapPlan(kernel, i686, n))
  {
    var plan := HeapPlan(kernel, i686, n);
    forall m: nat | m < 6 * n
      ensures Fits(plan[m], size)
    {
      assert m == 6 * (m / 6) + m % 6 && m / 6 <= n - 1;
    }
    forall a: nat, b: nat | a < b < 6 * n
      ensures Before(plan[a], plan[b]) && WrittenBefore(plan[a], plan[b])
    {
      HeapApart(kernel, i686, a, b);
    }
  }

  /** The source of field m is intact while the fields before m0 have been moved down. */
  lemma PackRead(orig: seq<Byte>, plan: seq<Field>, m0: nat, m: nat)
    requires AllFit(plan, |orig|) && Compacting(plan) && m0 <= m < |plan|
    ensures AllFit(plan[..m0], |orig|) && Fits(plan[m], |orig|)
    ensures var f := plan[m];
            Apply(orig, plan[..m0])[f.from..f.from + f.len] == orig[f.from..f.from + f.len]
  {
    hide Apply, Compacting;
    var done, f := plan[..m0], plan[m];
    CompactingBefore(plan, m0, m);
    SourceIntact(orig, done, f);
    assert forall k :: f.from <= k < f.from + f.len ==> Apply(orig, done)[k] == orig[k];
  }

  lemma CompactingBefore(plan: seq<Field>, m0: nat, m: nat)
    requires Compacting(plan) && m0 <= m < |plan|
    ensures forall i :: 0 <= i < m0 ==> Clear(plan[m], plan[..m0][i])
  {
    CompactingAt(plan, m);
    forall i | 0 <= i < m0
      ensures Clear(plan[m], plan[..m0][i])
    {
      assert plan[..m0][i] == plan[..m][i];
    }
  }

  /** Storing the word of field m adds that field to the move. */
  lemma PackStore(orig: seq<Byte>, plan: seq<Field>, m: nat)
    requires AllFit(plan, |orig|) && Compacting(plan) && m < |plan| && plan[m].pad == 0
    ensures AllFit(plan[..m], |orig|) && AllFit(plan[..m + 1], |orig|) && Fits(plan[m], |orig|)
    ensures var f := plan[m];
            Apply(orig, plan[..m + 1]) == Splice(Apply(orig, plan[..m]), f.to, orig[f.from..f.from + f.len])
  {
    hide Apply, Compacting, AllFit, Splice;
    Split(plan, |orig|, m);
    CompactingAt(plan, m);
    ApplyLast(orig, plan[..m], plan[m]);
    var f := plan[m];
    assert orig[f.from..f.from + f.len] + Zeros(0) == orig[f.from..f.from + f.len];
  }

  /** The heap loops of PVRCompatCompactOut: each PVRCompatPackHeapInfo reads its six words
      before it writes any of them lower down. */
  method PackHeaps(buf: array<Byte>, kernel: nat, i686: nat, n: nat)
    requires i686 <= kernel && kernel + 32 * n <= buf.Length
    modifies buf
    ensures AllFit(HeapPlan(kernel, i686, n), buf.Length)
    ensures buf[..] == Apply(old(buf[..]), HeapPlan(kernel, i686, n))
  {
    hide Apply, AllFit, Compacting, HeapPlan, HeapWord;
    ghost var orig, plan := buf[..], HeapPlan(kernel, i686, n);
    HeapPlanCompacts(kernel, i686, n, buf.Length);
    MoveNothing(orig, plan);
    var i := 0;
    while i < n
      invariant i <= n && AllFit(plan[..6 * i], |orig|) && buf[..] == Apply(orig, plan[..6 * i])
    {
      PackHeapInfo(buf, kernel, i686, i, n, orig, plan);
      i := i + 1;
    }
    assert plan[..6 * n] == plan;
  }

  method PackHeapInfo(buf: array<Byte>, kernel: nat, i686: nat, i: nat, ghost n: nat, ghost orig: seq<Byte>, ghost plan: seq<Field>)
    requires i < n && plan == HeapPlan(kernel, i686, n) && |orig| == buf.Length
    requires AllFit(plan, |orig|) && Compacting(plan)
    requires AllFit(plan[..6 * i], |orig|) && buf[..] == Apply(orig, plan[..6 * i])
    modifies buf
    ensures AllFit(plan[..6 * i + 6], |orig|) && buf[..] == Apply(orig, plan[..6 * i + 6])
  {
    hide Apply, AllFit, Compacting, HeapPlan, HeapWord, Splice, Holds;
    var words := ReadHeapInfo(buf, kernel, i686, i, n, orig, plan);
    var j: nat := 0;
    while j < 6
      invariant j <= 6 && AllFit(plan[..6 * i + j], |orig|) && buf[..] == Apply(orig, plan[..6 * i + j])
    {
      HeapFieldAt(kernel, i686, n, i, j);
      PackStore(orig, plan, 6 * i + j);
      HoldsMeans(words[j], orig, HeapField(kernel, i686, i, j));
      Store(buf, i686 + 24 * i + 4 * j, words[j]);
      j := j + 1;
    }
  }

  /** The words of one heap entry, read before any of them is overwritten. */
  method ReadHeapInfo(buf: array<Byte>, kernel: nat, i686: nat, i: nat, ghost n: nat, ghost orig: seq<Byte>, ghost plan: seq<Field>)
    returns (words: seq<seq<Byte>>)
    requires i < n && plan == HeapPlan(kernel, i686, n) && |orig| == buf.Length
    requires AllFit(plan, |orig|) && Compacting(plan)
    requires AllFit(plan[..6 * i], |orig|) && buf[..] == Apply(orig, plan[..6 * i])
    ensures |words| == 6 && forall x :: 0 <= x < 6 ==> Holds(words[x], orig, HeapField(kernel, i686, i, x))
  {
    hide Apply, AllFit, Compacting, HeapPlan, HeapWord, Splice;
    words := [];
    var j: nat := 0;
    while j < 6
      invariant j <= 6 && |words| == j
      invariant forall x :: 0 <= x < j ==> Holds(words[x], orig, HeapField(kernel, i686, i, x))
    {
      HeapFieldAt(kernel, i686, n, i, j);
      PackRead(orig, plan, 6 * i, 6 * i + j);
      var from := kernel + 32 * i + HeapWord(j);
      words := words + [buf[from..from + 4]];
      j := j + 1;
    }
  }

  lemma HoldsMeans(w: seq<Byte>, orig: seq<Byte>, f: Field)
    requires Holds(w, orig, f)
    ensures f.from + f.len <= |orig| && w == orig[f.from..f.from + f.len]
  {
  }

  ghost predicate Holds(w: seq<Byte>, orig: seq<Byte>, f: Field) {
    f.from + f.len <= |orig| && w == orig[f.from..f.from + f.len]
  }

  lemma HeapFieldAt(kernel: nat, i686: nat, n: nat, i: nat, j: nat)
    requires i < n && j < 6
    ensures 6 * i + j < 6 * n == |HeapPlan(kernel, i686, n)|
    ensures HeapPlan(kernel, i686, n)[6 * i + j] == HeapField(kernel, i686, i, j)
  {
    assert (6 * i + j) / 6 == i && (6 * i + j) % 6 == j;
  }

  // ---------- the replies with a heap array ----------

  const MAX_HEAPS: nat := 32

  /** PVRCompatCompactOut for PVRSRV_BRIDGE_CREATE_DEVMEMCONTEXT: the three header words are read
      first and written last. */
  method PackContext(buf: array<Byte>)
    requires 1048 <= buf.Length
    modifies buf
    ensures AllFit(HeapPlan(24, 12, MAX_HEAPS), buf.Length)
    ensures var orig := old(buf[..]);
            buf[..] == orig[0..4] + orig[8..12] + orig[16..20] + Apply(orig, HeapPlan(24, 12, MAX_HEAPS))[12..]
  {
    hide Apply, AllFit, HeapPlan, Splice;
    var error, context, count := buf[0..4], buf[8..12], buf[16..20];
    PackHeaps(buf, 24, 12, MAX_HEAPS);
    ghost var packed := buf[..];
    StoreHeader(buf, packed, [], 0, error);
    StoreHeader(buf, packed, error, 4, context);
    StoreHeader(buf, packed, error + context, 8, count);
  }

  /** PVRCompatCompactOut for PVRSRV_BRIDGE_GET_DEVMEM_HEAPINFO. */
  method PackHeapReply(buf: array<Byte>)
    requires 1032 <= buf.Length
    modifies buf
    ensures AllFit(HeapPlan(8, 8, MAX_HEAPS), buf.Length)
    ensures var orig := old(buf[..]);
            buf[..] == orig[0..4] + orig[4..8] + Apply(orig, HeapPlan(8, 8, MAX_HEAPS))[8..]
  {
    hide Apply, AllFit, HeapPlan, Splice;
    var error, count := buf[0..4], buf[4..8];
    PackHeaps(buf, 8, 8, MAX_HEAPS);
    ghost var packed := buf[..];
    StoreHeader(buf, packed, [], 0, error);
    StoreHeader(buf, packed, error, 4, count);
  }

  /** A word stored behind the header written so far. */
  method StoreHeader(buf: array<Byte>, ghost packed: seq<Byte>, ghost head: seq<Byte>, at: nat, w: seq<Byte>)
    requires at == |head| && |head| + |w| <= |packed| == buf.Length && buf[..] == head + packed[|head|..]
    modifies buf
    ensures buf[..] == (head + w) + packed[|head + w|..]
  {
    hide Splice;
    HeaderWritten(packed, head, w);
    Store(buf, at, w);
  }

  lemma HeaderWritten(packed: seq<Byte>, head: seq<Byte>, w: seq<Byte>)
    requires |head| + |w| <= |packed|
    ensures Splice(head + packed[|head|..], |head|, w) == (head + w) + packed[|head + w|..]
  {
  }
}
