/** The in-place walks of the 32-on-64 marshaller in
    src/services4/srvkm/bridged/bridged_pvr_bridge.c. */
module CompatWalk {
  import opened CompatCopy
  import opened CompatLayout

  // ---------- descriptor lists ----------

  /** U: 4-byte scalars, H: handles (4 bytes become 8), B: opaque bytes, S: status updates
      (8 opaque bytes and a handle, 12 bytes become 16). */
  datatype Kind = U | H | B | S

  datatype Run = Run(kind: Kind, count: nat)

  function SrcBytes(kind: Kind): nat {
    match kind
    case U => 4
    case H => 4
    case B => 1
    case S => 12
  }

  function DstBytes(kind: Kind): nat {
    match kind
    case U => 4
    case H => 8
    case B => 1
    case S => 16
  }

  function SrcEnd(runs: seq<Run>): nat {
    if runs == [] then 0 else SrcEnd(runs[..|runs| - 1]) + runs[|runs| - 1].count * SrcBytes(runs[|runs| - 1].kind)
  }

  /** Where a run of that kind starts in the kernel structure after these runs. */
  function DstStart(runs: seq<Run>, kind: Kind): nat
    decreases |runs|, 1
  {
    if kind == H || kind == S then AlignUp(DstEnd(runs), 8) else DstEnd(runs)
  }

  function DstEnd(runs: seq<Run>): nat
    decreases |runs|, 0
  {
    if runs == [] then 0
    else
      var last := runs[|runs| - 1];
      DstStart(runs[..|runs| - 1], last.kind) + last.count * DstBytes(last.kind)
  }

  /** The fields of one run that starts at offset s in the i686 structure and d in the kernel one. */
  ghost function Units(run: Run, s: nat, d: nat): (r: seq<Field>)
    ensures |r| == UnitCount(run)
  {
    match run.kind
    case U => seq(run.count, j requires 0 <= j < run.count => Field(s + 4 * j, d + 4 * j, 4, 0))
    case H => seq(run.count, j requires 0 <= j < run.count => Field(s + 4 * j, d + 8 * j, 4, 4))
    case B => if run.count == 0 then [] else [Field(s, d, run.count, 0)]
    case S => seq(run.count, j requires 0 <= j < run.count => Field(s + 12 * j, d + 16 * j, 12, 4))
  }

  ghost function UnitCount(run: Run): nat {
    if run.kind == B then (if run.count == 0 then 0 else 1) else run.count
  }

  /** The out-of-place expansion a descriptor list stands for. */
  ghost function Plan(runs: seq<Run>): seq<Field> {
    if runs == [] then []
    else
      var front, last := runs[..|runs| - 1], runs[|runs| - 1];
      Plan(front) + Units(last, SrcEnd(front), DstStart(front, last.kind))
  }

  lemma {:induction false} EndsGrow(runs: seq<Run>)
    ensures SrcEnd(runs) <= DstEnd(runs)
  {
    if runs != [] {
      EndsGrow(runs[..|runs| - 1]);
    }
  }

  /** f lies between those offsets on both sides. */
  ghost predicate Between(f: Field, s0: nat, s1: nat, d0: nat, d1: nat) {
    s0 <= f.from && f.from + f.len <= s1 && d0 <= f.to && f.to + f.len + f.pad <= d1
  }

  lemma UnitBetween(run: Run, s: nat, d: nat, j: nat)
    requires j < UnitCount(run) && s <= d
    ensures Between(Units(run, s, d)[j], s, s + run.count * SrcBytes(run.kind), d, d + run.count * DstBytes(run.kind))
    ensures Units(run, s, d)[j].from <= Units(run, s, d)[j].to
  {
  }

  lemma UnitsApart(run: Run, s: nat, d: nat, i: nat, j: nat)
    requires i < j < UnitCount(run)
    ensures Before(Units(run, s, d)[i], Units(run, s, d)[j]) && SourceBefore(Units(run, s, d)[i], Units(run, s, d)[j])
  {
  }

  lemma {:induction false} PlanBetween(runs: seq<Run>, i: nat)
    requires i < |Plan(runs)|
    ensures Between(Plan(runs)[i], 0, SrcEnd(runs), 0, DstEnd(runs)) && Plan(runs)[i].from <= Plan(runs)[i].to
  {
    hide Units, SrcBytes, DstBytes, UnitCount;
    if runs != [] {
      var front, last := runs[..|runs| - 1], runs[|runs| - 1];
      EndsGrow(front);
      if i < |Plan(front)| {
        PlanBetween(front, i);
      } else {
        UnitBetween(last, SrcEnd(front), DstStart(front, last.kind), i - |Plan(front)|);
      }
    }
  }

  lemma {:induction false} PlanApart(runs: seq<Run>, i: nat, j: nat)
    requires i < j < |Plan(runs)|
    ensures Before(Plan(runs)[i], Plan(runs)[j]) && SourceBefore(Plan(runs)[i], Plan(runs)[j])
  {
    hide Units, SrcBytes, DstBytes, UnitCount;
    var front, last := runs[..|runs| - 1], runs[|runs| - 1];
    EndsGrow(front);
    if j < |Plan(front)| {
      PlanApart(front, i, j);
    } else {
      var n := |Plan(front)|;
      UnitBetween(last, SrcEnd(front), DstStart(front, last.kind), j - n);
      if i < n {
        PlanBetween(front, i);
      } else {
        UnitsApart(last, SrcEnd(front), DstStart(front, last.kind), i - n, j - n);
      }
    }
  }

  /** Every descriptor list gives a move in which fields only ever move up, in order. */
  lemma PlanExpands(runs: seq<Run>, n: nat)
    requires DstEnd(runs) <= n
    ensures AllFit(Plan(runs), n) && Expanding(Plan(runs))
  {
    hide Plan, SrcEnd, DstEnd;
    EndsGrow(runs);
    forall i | 0 <= i < |Plan(runs)|
      ensures Fits(Plan(runs)[i], n) && Plan(runs)[i].from <= Plan(runs)[i].to
    {
      PlanBetween(runs, i);
    }
    forall i, j | 0 <= i < j < |Plan(runs)|
      ensures Before(Plan(runs)[i], Plan(runs)[j]) && SourceBefore(Plan(runs)[i], Plan(runs)[j])
    {
      PlanApart(runs, i, j);
    }
  }

  // ---------- the walk ----------

  /** A byte copy from the end, for a destination at or above the source. */
  method CopyBackward(buf: array<Byte>, s: nat, d: nat, c: nat)
    requires s <= d && d + c <= buf.Length
    modifies buf
    ensures buf[..] == Splice(old(buf[..]), d, old(buf[s..s + c]))
  {
    hide Splice;
    ghost var orig := buf[..];
    var j := c;
    SpliceNone(orig, d + c, orig[s + c..s + c]);
    while j > 0
      invariant 0 <= j <= c
      invariant buf[..] == Splice(orig, d + j, orig[s + j..s + c])
    {
      j := j - 1;
      ghost var b := buf[..];
      buf[d + j] := buf[s + j];
      assert buf[..] == b[d + j := b[s + j]];
      SpliceOneLower(orig, s, d, j, c);
    }
  }

  lemma SpliceNone(orig: seq<Byte>, at: nat, none: seq<Byte>)
    requires at <= |orig| && none == []
    ensures Splice(orig, at, none) == orig
  {
  }

  lemma SpliceOneLower(orig: seq<Byte>, s: nat, d: nat, j: nat, c: nat)
    requires s <= d && d + c <= |orig| && j < c
    ensures var b := Splice(orig, d + j + 1, orig[s + j + 1..s + c]);
            b[d + j := b[s + j]] == Splice(orig, d + j, orig[s + j..s + c])
  {
    var from := orig[s + j..s + c];
    assert from == [orig[s + j]] + orig[s + j + 1..s + c];
  }

  /** The moves of one run, last unit first. */
  method MoveRun(buf: array<Byte>, run: Run, s: nat, d: nat, ghost orig: seq<Byte>, ghost plan: seq<Field>, ghost m: nat)
    requires AllFit(plan, |orig|) && Expanding(plan) && |orig| == buf.Length
    requires m + UnitCount(run) <= |plan| && plan[m..m + UnitCount(run)] == Units(run, s, d)
    requires AllFit(plan[m + UnitCount(run)..], |orig|) && buf[..] == Apply(orig, plan[m + UnitCount(run)..])
    modifies buf
    ensures AllFit(plan[m..], |orig|) && buf[..] == Apply(orig, plan[m..])
  {
    hide Apply, Put, AllFit, Expanding, Units, Fits, UnitField;
    var j: nat := if run.kind != B then run.count else if run.count == 0 then 0 else 1;
    while j > 0
      invariant j <= UnitCount(run) && AllFit(plan[m + j..], |orig|) && buf[..] == Apply(orig, plan[m + j..])
    {
      j := j - 1;
      UnitAt(orig, plan, run, s, d, m, j);
      StepDown(orig, plan, m + j + 1);
      MoveUnit(buf, run, s, d, j);
    }
  }

  /** Unit j of a run. */
  function UnitField(run: Run, s: nat, d: nat, j: nat): Field {
    match run.kind
    case U => Field(s + 4 * j, d + 4 * j, 4, 0)
    case H => Field(s + 4 * j, d + 8 * j, 4, 4)
    case B => Field(s, d, run.count, 0)
    case S => Field(s + 12 * j, d + 16 * j, 12, 4)
  }

  /** The move of one unit; a B run is one unit, copied byte by byte. */
  method MoveUnit(buf: array<Byte>, run: Run, s: nat, d: nat, j: nat)
    requires Fits(UnitField(run, s, d, j), buf.Length) && UnitField(run, s, d, j).from <= UnitField(run, s, d, j).to
    modifies buf
    ensures buf[..] == Put(old(buf[..]), UnitField(run, s, d, j), old(buf[..]))
  {
    hide Put, Splice, UnitField, Zeros;
    UnitShape(run, s, d, j);
    var f := UnitField(run, s, d, j);
    PutMeans(buf[..], f);
    match run.kind
    case U => Store(buf, f.to, buf[f.from..f.from + 4]);
    case H => Store(buf, f.to, buf[f.from..f.from + 4] + Zeros(4));
    case B => CopyBackward(buf, f.from, f.to, run.count);
    case S => MoveStatus(buf, f.from, f.to);
  }

  lemma UnitShape(run: Run, s: nat, d: nat, j: nat)
    ensures var f := UnitField(run, s, d, j);
            match run.kind
            case U => f.len == 4 && f.pad == 0
            case H => f.len == 4 && f.pad == 4
            case B => f.len == run.count && f.pad == 0
            case S => f.len == 12 && f.pad == 4
  {
  }

  lemma UnitAt(orig: seq<Byte>, plan: seq<Field>, run: Run, s: nat, d: nat, m: nat, j: nat)
    requires AllFit(plan, |orig|) && Expanding(plan) && j < UnitCount(run)
    requires m + UnitCount(run) <= |plan| && plan[m..m + UnitCount(run)] == Units(run, s, d)
    ensures var f := plan[m + j]; Fits(f, |orig|) && f.from <= f.to && f == UnitField(run, s, d, j)
  {
    assert plan[m..m + UnitCount(run)][j] == plan[m + j];
  }

  lemma PutMeans(b: seq<Byte>, f: Field)
    requires Fits(f, |b|)
    ensures Put(b, f, b) == Splice(b, f.to, b[f.from..f.from + f.len] + Zeros(f.pad))
    ensures f.pad == 0 ==> Put(b, f, b) == Splice(b, f.to, b[f.from..f.from + f.len])
  {
    assert f.pad == 0 ==> b[f.from..f.from + f.len] + Zeros(f.pad) == b[f.from..f.from + f.len];
  }

  /** One status update: the handle is read before its 8-byte block is moved over it. */
  method MoveStatus(buf: array<Byte>, se: nat, de: nat)
    requires se <= de && de + 16 <= buf.Length
    modifies buf
    ensures buf[..] == Splice(old(buf[..]), de, old(buf[se..se + 12]) + Zeros(4))
  {
    hide Splice, Zeros;
    ghost var orig := buf[..];
    var hv := buf[se + 8..se + 12];
    CopyBackward(buf, se, de, 8);
    Store(buf, de + 8, hv + Zeros(4));
    SpliceTwice(orig, de, orig[se..se + 8], hv + Zeros(4));
    assert orig[se..se + 12] + Zeros(4) == orig[se..se + 8] + (hv + Zeros(4));
  }

  lemma SpliceTwice(a: seq<Byte>, d: nat, v: seq<Byte>, w: seq<Byte>)
    requires d + |v| + |w| <= |a|
    ensures Splice(Splice(a, d, v), d + |v|, w) == Splice(a, d, v + w)
  {
  }

  /** The forward pass: where each run starts on both sides. */
  method RunOffsets(runs: seq<Run>) returns (src: array<nat>, dst: array<nat>)
    ensures fresh(src) && fresh(dst) && src.Length == dst.Length == |runs|
    ensures forall i :: 0 <= i < |runs| ==> src[i] == SrcEnd(runs[..i]) && dst[i] == DstStart(runs[..i], runs[i].kind)
  {
    hide SrcEnd, DstEnd, DstStart, Plan, SrcBytes, DstBytes;
    src, dst := new nat[|runs|], new nat[|runs|];
    var so, ko, i := 0, 0, 0;
    NoRuns(runs);
    while i < |runs|
      invariant i <= |runs| && so == SrcEnd(runs[..i]) && ko == DstEnd(runs[..i])
      invariant forall k :: 0 <= k < i ==> src[k] == SrcEnd(runs[..k]) && dst[k] == DstStart(runs[..k], runs[k].kind)
    {
      OffsetsAfter(runs, i);
      if runs[i].kind == H || runs[i].kind == S {
        ko := AlignUp(ko, 8);
      }
      src[i], dst[i] := so, ko;
      so := so + runs[i].count * SrcBytes(runs[i].kind);
      ko := ko + runs[i].count * DstBytes(runs[i].kind);
      i := i + 1;
    }
  }

  lemma OffsetsAfter(runs: seq<Run>, i: nat)
    requires i < |runs|
    ensures SrcEnd(runs[..i + 1]) == SrcEnd(runs[..i]) + runs[i].count * SrcBytes(runs[i].kind)
    ensures DstEnd(runs[..i + 1]) == DstStart(runs[..i], runs[i].kind) + runs[i].count * DstBytes(runs[i].kind)
    ensures DstStart(runs[..i], runs[i].kind) ==
            if runs[i].kind == H || runs[i].kind == S then AlignUp(DstEnd(runs[..i]), 8) else DstEnd(runs[..i])
    ensures Plan(runs[..i + 1]) == Plan(runs[..i]) + Units(runs[i], SrcEnd(runs[..i]), DstStart(runs[..i], runs[i].kind))
  {
    assert runs[..i + 1][..i] == runs[..i];
  }

  lemma {:induction false} PlanPrefixOf(runs: seq<Run>, i: nat)
    requires i <= |runs|
    ensures Plan(runs[..i]) <= Plan(runs)
    decreases |runs|
  {
    if i == |runs| {
      assert runs[..i] == runs;
    } else {
      var front := runs[..|runs| - 1];
      PlanPrefixOf(front, i);
      assert front[..i] == runs[..i];
    }
  }

  /** The part of the plan that belongs to run i. */
  lemma RunPart(runs: seq<Run>, i: nat)
    requires i < |runs|
    ensures var m, n := |Plan(runs[..i])|, UnitCount(runs[i]);
            && m + n == |Plan(runs[..i + 1])| <= |Plan(runs)|
            && Plan(runs)[m..m + n] == Units(runs[i], SrcEnd(runs[..i]), DstStart(runs[..i], runs[i].kind))
  {
    hide Plan, Units, UnitCount;
    OffsetsAfter(runs, i);
    PlanPrefixOf(runs, i + 1);
  }

  /** PVRCompatExpandDevInitPart2, PVRCompatExpandDoKick and PVRCompatExpandSubmitTransfer: the
      same walk over three descriptor lists. */
  method ExpandInPlace(buf: array<Byte>, runs: seq<Run>)
    requires DstEnd(runs) <= buf.Length
    modifies buf
    ensures AllFit(Plan(runs), buf.Length) && buf[..] == Apply(old(buf[..]), Plan(runs))
  {
    hide Plan, SrcEnd, DstEnd, DstStart, Apply, AllFit, Expanding;
    ghost var orig, plan := buf[..], Plan(runs);
    PlanExpands(runs, buf.Length);
    var src, dst := RunOffsets(runs);
    WholePlan(runs, orig);
    var i: nat := |runs|;
    while i > 0
      invariant i <= |runs| && |Plan(runs[..i])| <= |plan|
      invariant AllFit(plan[|Plan(runs[..i])|..], |orig|) && buf[..] == Apply(orig, plan[|Plan(runs[..i])|..])
      modifies buf
    {
      i := i - 1;
      RunPart(runs, i);
      MoveRun(buf, runs[i], src[i], dst[i], orig, plan, |Plan(runs[..i])|);
    }
    NoRuns(runs);
    assert plan[0..] == plan;
  }

  lemma WholePlan(runs: seq<Run>, orig: seq<Byte>)
    requires AllFit(Plan(runs), |orig|)
    ensures var n := |Plan(runs[..|runs|])|;
            && n == |Plan(runs)| && AllFit(Plan(runs)[n..], |orig|) && Apply(orig, Plan(runs)[n..]) == orig
  {
    assert runs[..|runs|] == runs;
  }

  lemma NoRuns(runs: seq<Run>)
    ensures Plan(runs[..0]) == [] && SrcEnd(runs[..0]) == 0 && DstEnd(runs[..0]) == 0
  {
  }

  // ---------- descriptor lists and layout strings ----------

  /** The field list of a U/H descriptor list. */
  ghost function KindsOf(runs: seq<Run>): seq<bool> {
    if runs == [] then []
    else KindsOf(runs[..|runs| - 1]) + Repeated(runs[|runs| - 1].kind == H, runs[|runs| - 1].count)
  }

  ghost predicate WordRuns(runs: seq<Run>) {
    forall i :: 0 <= i < |runs| ==> (runs[i].kind == U || runs[i].kind == H) && runs[i].count > 0
  }

  lemma {:induction false} EndOfRepeat(k: seq<bool>, h: bool, n: nat)
    ensures End64(k + Repeated(h, n)) == if n == 0 then End64(k) else Start64(k, h) + n * Width(h)
    ensures n > 0 ==> Start64(k + Repeated(h, n), h) == End64(k + Repeated(h, n))
  {
    hide End64, Start64, Width;
    if n == 0 {
      assert k + Repeated(h, 0) == k;
    } else {
      EndOfRepeat(k, h, n - 1);
      var r := k + Repeated(h, n - 1);
      assert k + Repeated(h, n) == r + [h];
      NextInRun(k, h);
      NextInRun(r, h);
      assert n == 1 ==> r == k;
      assert n * Width(h) == (n - 1) * Width(h) + Width(h);
    }
  }

  /** After a field, another field of the same kind follows without a gap. */
  lemma NextInRun(k: seq<bool>, h: bool)
    ensures End64(k + [h]) == Start64(k, h) + Width(h) && Start64(k + [h], h) == End64(k + [h])
  {
    EndIsAligned(k);
    EndOfNext(k, h);
    hide End64;
  }

  lemma OffsetInRepeat(k: seq<bool>, h: bool, n: nat, j: nat)
    requires j < n
    ensures Off64(k + Repeated(h, n), |k| + j) == Start64(k, h) + j * Width(h)
  {
    EndOfRepeat(k, h, j);
    assert (k + Repeated(h, n))[..|k| + j] == k + Repeated(h, j);
    assert k + Repeated(h, 0) == k;
  }

  lemma ExpandPlanConcat(k: seq<bool>, h: bool, n: nat)
    ensures ExpandPlan(k + Repeated(h, n)) == ExpandPlan(k) + Units(Run(if h then H else U, n), 4 * |k|, Start64(k, h))
  {
    hide Off64, Start64, End64, Units, ExpandPlan;
    hide UnitField, UnitCount;
    var all, run := k + Repeated(h, n), Run(if h then H else U, n);
    var a, b := ExpandPlan(k), Units(run, 4 * |k|, Start64(k, h));
    assert |b| == n by { UnitsOfWords(run, 4 * |k|, Start64(k, h)); }
    forall i | 0 <= i < |k| + n
      ensures ExpandPlan(all)[i] == (a + b)[i]
    {
      if i < |k| {
        SameOffset(k, Repeated(h, n), i);
      } else {
        OffsetInRepeat(k, h, n, i - |k|);
        WordUnit(run, 4 * |k|, Start64(k, h), i - |k|);
        assert b[i - |k|] == Field(4 * i, Off64(all, i), 4, if h then 4 else 0);
      }
    }
  }

  lemma UnitsOfWords(run: Run, s: nat, d: nat)
    requires run.kind == U || run.kind == H
    ensures |Units(run, s, d)| == run.count
  {
  }

  lemma WordUnit(run: Run, s: nat, d: nat, j: nat)
    requires (run.kind == U || run.kind == H) && j < run.count
    ensures |Units(run, s, d)| == run.count
    ensures Units(run, s, d)[j] ==
            Field(s + 4 * j, d + j * Width(run.kind == H), 4, if run.kind == H then 4 else 0)
  {
  }

  lemma SameOffset(k: seq<bool>, more: seq<bool>, i: nat)
    requires i < |k|
    ensures Off64(k + more, i) == Off64(k, i)
  {
    assert (k + more)[..i] == k[..i];
  }

  lemma NothingToRepack()
    ensures ExpandPlan([]) == [] && End64([]) == 0
  {
  }

  /** The walk over a U/H descriptor list makes the very moves of the repack of a layout string
      with the same fields. */
  lemma {:induction false} WalkIsRepack(runs: seq<Run>)
    requires WordRuns(runs)
    ensures Plan(runs) == ExpandPlan(KindsOf(runs))
    ensures SrcEnd(runs) == 4 * |KindsOf(runs)| && DstEnd(runs) == End64(KindsOf(runs))
  {
    hide End64, ExpandPlan, Off64;
    if runs == [] {
      NothingToRepack();
    } else {
      var front, last := runs[..|runs| - 1], runs[|runs| - 1];
      assert forall i :: 0 <= i < |front| ==> front[i] == runs[i];
      WalkIsRepack(front);
      var k, h := KindsOf(front), last.kind == H;
      EndOfRepeat(k, h, last.count);
      ExpandPlanConcat(k, h, last.count);
      assert last == Run(if h then H else U, last.count);
    }
  }

  /** The in-place walk and the read-all-then-write-all repack give the same bytes. */
  lemma WalkAndRepackAgree(orig: seq<Byte>, runs: seq<Run>, psz: string)
    requires WordRuns(runs) && Fields(psz) == KindsOf(runs) && DstEnd(runs) <= |orig|
    ensures AllFit(Plan(runs), |orig|) && AllFit(RepackPlan(Fields(psz), true), |orig|)
    ensures Apply(orig, Plan(runs)) == Apply(orig, RepackPlan(Fields(psz), true))
  {
    PlanExpands(runs, |orig|);
    WalkIsRepack(runs);
  }
}
