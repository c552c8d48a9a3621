/** The table-driven part of the 32-on-64 marshaller in
    src/services4/srvkm/bridged/bridged_pvr_bridge.c: layout strings. */
module CompatLayout {
  import opened Machine
  import opened CompatCopy

  const MAX_WORDS: nat := 160
  // ---------- what a layout string means ----------

  predicate IsDigit(c: char) {
    '0' <= c <= '9'
  }

  /** The index after the digits that start at i. */
  function AfterDigits(psz: string, i: nat): (j: nat)
    requires i <= |psz|
    ensures i <= j <= |psz|
    decreases |psz| - i
  {
    if i < |psz| && IsDigit(psz[i]) then AfterDigits(psz, i + 1) else i
  }

  /** The number those digits spell, in 32-bit arithmetic, continuing from acc. */
  function Number(psz: string, i: nat, acc: nat): nat
    requires i <= |psz|
    decreases |psz| - i
  {
    if i < |psz| && IsDigit(psz[i]) then Number(psz, i + 1, (acc * 10 + (psz[i] - '0') as int) % TWO_32) else acc
  }

  function Repeated(h: bool, n: nat): (r: seq<bool>)
    ensures |r| == n && forall k :: 0 <= k < n ==> r[k] == h
  {
    seq(n, _ => h)
  }

  /** The fields of a layout string from index i on: true for a handle. */
  ghost function Kinds(psz: string, i: nat): seq<bool>
    requires i <= |psz|
    decreases |psz| - i
  {
    var j := AfterDigits(psz, i);
    if j == |psz| then []
    else
      var n := Number(psz, i, 0);
      Repeated(psz[j] == 'h', if n == 0 then 1 else n) + Kinds(psz, j + 1)
  }

  /** A count must be followed by a letter: the walk reads past the end of other strings. */
  predicate WellFormed(psz: string) {
    psz == "" || !IsDigit(psz[|psz| - 1])
  }

  ghost function AtMost(k: seq<bool>, n: nat): seq<bool> {
    if |k| <= n then k else k[..n]
  }

  // ---------- offsets ----------

  function Width(h: bool): nat {
    if h then 8 else 4
  }

  predicate Aligned(x: nat, h: bool) {
    if h then x % 8 == 0 else x % 4 == 0
  }

  function AlignUp(x: nat, a: nat): (r: nat)
    requires a == 4 || a == 8
    ensures x <= r < x + a && Aligned(r, a == 8)
  {
    if a == 4 then UpTo4(x) else UpTo8(x)
  }

  function UpTo4(x: nat): (r: nat)
    ensures x <= r < x + 4 && r % 4 == 0
  {
    x + 3 - (x + 3) % 4
  }

  function UpTo8(x: nat): (r: nat)
    ensures x <= r < x + 8 && r % 8 == 0
  {
    x + 7 - (x + 7) % 8
  }

  /** Where a field goes that follows the fields k in the kernel structure. */
  function Start64(k: seq<bool>, h: bool): nat
    decreases |k|, 1
  {
    if h then AlignUp(End64(k), 8) else End64(k)
  }

  function End64(k: seq<bool>): nat
    decreases |k|, 0
  {
    if k == [] then 0 else Start64(k[..|k| - 1], k[|k| - 1]) + Width(k[|k| - 1])
  }

  function Off64(k: seq<bool>, i: nat): nat
    requires i < |k|
  {
    Start64(k[..i], k[i])
  }

  function Alignment(k: seq<bool>): nat {
    if true in k then 8 else 4
  }

  function Size64(k: seq<bool>): nat {
    AlignUp(End64(k), Alignment(k))
  }

  lemma {:induction false} EndIsAligned(k: seq<bool>)
    ensures End64(k) % 4 == 0 && End64(k) >= 4 * |k|
    ensures End64(k) <= 16 * |k|
  {
    if k != [] {
      EndIsAligned(k[..|k| - 1]);
    }
  }

  lemma {:induction false} EndGrows(k: seq<bool>, i: nat)
    requires i < |k|
    ensures Off64(k, i) + Width(k[i]) == End64(k[..i + 1]) <= End64(k)
    decreases |k|
  {
    var last := |k| - 1;
    if i < last {
      EndGrows(k[..last], i);
      assert k[..last][..i] == k[..i] && k[..last][..i + 1] == k[..i + 1];
    } else {
      assert k[..last + 1] == k && k[..i + 1][..i] == k[..i];
    }
    assert k[..i + 1][..i] == k[..i];
  }

  /** One layout of fields k: g[i] is the offset of field i. */
  ghost predicate IsLayout(k: seq<bool>, g: seq<nat>) {
    && |g| == |k|
    && (forall i :: 0 <= i < |k| ==> Aligned(g[i], k[i]))
    && (forall i, j :: 0 <= i < j < |k| ==> g[i] + Width(k[i]) <= g[j])
  }

  ghost function Offsets(k: seq<bool>): seq<nat> {
    seq(|k|, i requires 0 <= i < |k| => Off64(k, i))
  }

  lemma {:induction false} EndMonotonic(k: seq<bool>, i: nat, j: nat)
    requires i <= j <= |k|
    ensures End64(k[..i]) <= End64(k[..j])
    decreases j
  {
    if i < j {
      EndMonotonic(k, i, j - 1);
      assert k[..j][..j - 1] == k[..j - 1];
    }
  }

  /** The computed offsets are naturally aligned and do not overlap. */
  lemma OffsetsAreLayout(k: seq<bool>)
    ensures IsLayout(k, Offsets(k))
  {
    forall i | 0 <= i < |k|
      ensures Aligned(Off64(k, i), k[i])
    {
      EndIsAligned(k[..i]);
    }
    forall i, j | 0 <= i < j < |k|
      ensures Off64(k, i) + Width(k[i]) <= Off64(k, j)
    {
      EndGrows(k, i);
      EndMonotonic(k, i + 1, j);
    }
  }

  /** No naturally aligned layout in the same order has a field at a lower offset. */
  lemma {:induction false} OffsetsAreLeast(k: seq<bool>, g: seq<nat>, i: nat)
    requires IsLayout(k, g) && i < |k|
    ensures Off64(k, i) <= g[i]
  {
    if i == 0 {
      assert k[..i] == [];
    } else {
      OffsetsAreLeast(k, g, i - 1);
      assert k[..i][..i - 1] == k[..i - 1];
      assert End64(k[..i]) == Off64(k, i - 1) + Width(k[i - 1]) <= g[i - 1] + Width(k[i - 1]) <= g[i];
    }
    if k[i] {
      LeastAligned(End64(k[..i]), 8, g[i]);
    }
  }

  lemma LeastAligned(x: nat, a: nat, y: nat)
    requires (a == 4 || a == 8) && x <= y && Aligned(y, a == 8)
    ensures AlignUp(x, a) <= y
  {
  }

  /** The kernel offset of a field is never below its i686 offset. */
  lemma KernelAbove(k: seq<bool>, i: nat)
    requires i < |k|
    ensures Off64(k, i) >= 4 * i
  {
    EndIsAligned(k[..i]);
  }

  // ---------- the two moves ----------

  function ExpandField(k: seq<bool>, i: nat): Field
    requires i < |k|
  {
    Field(4 * i, Off64(k, i), 4, if k[i] then 4 else 0)
  }

  function CompactField(k: seq<bool>, i: nat): Field
    requires i < |k|
  {
    Field(Off64(k, i), 4 * i, 4, 0)
  }

  ghost function ExpandPlan(k: seq<bool>): (r: seq<Field>)
    ensures |r| == |k| && forall i :: 0 <= i < |k| ==> r[i] == ExpandField(k, i)
  {
    seq(|k|, i requires 0 <= i < |k| => ExpandField(k, i))
  }

  ghost function CompactPlan(k: seq<bool>): (r: seq<Field>)
    ensures |r| == |k| && forall i :: 0 <= i < |k| ==> r[i] == CompactField(k, i)
  {
    seq(|k|, i requires 0 <= i < |k| => CompactField(k, i))
  }

  lemma OffsetsApart(k: seq<bool>, i: nat, j: nat)
    requires i < j < |k|
    ensures Off64(k, i) + Width(k[i]) <= Off64(k, j)
  {
    EndGrows(k, i);
    EndMonotonic(k, i + 1, j);
  }

  lemma OffsetsInside(k: seq<bool>, i: nat, n: nat)
    requires i < |k| && End64(k) <= n
    ensures Off64(k, i) + Width(k[i]) <= n && 4 * i + 4 <= n
  {
    EndGrows(k, i);
    EndIsAligned(k);
  }

  lemma ExpandPlanExpands(k: seq<bool>, n: nat)
    requires End64(k) <= n
    ensures AllFit(ExpandPlan(k), n) && Expanding(ExpandPlan(k))
  {
    hide Off64, End64;
    var plan := ExpandPlan(k);
    forall i | 0 <= i < |k|
      ensures Fits(plan[i], n) && plan[i].from <= plan[i].to
    {
      OffsetsInside(k, i, n);
      KernelAbove(k, i);
    }
    forall i, j | 0 <= i < j < |k|
      ensures Before(plan[i], plan[j]) && SourceBefore(plan[i], plan[j])
    {
      OffsetsApart(k, i, j);
    }
  }

  lemma CompactPlanCompacts(k: seq<bool>, n: nat)
    requires End64(k) <= n
    ensures AllFit(CompactPlan(k), n) && Compacting(CompactPlan(k))
  {
    hide Off64, End64;
    var plan := CompactPlan(k);
    forall i | 0 <= i < |k|
      ensures Fits(plan[i], n)
    {
      OffsetsInside(k, i, n);
    }
    forall i, j | 0 <= i < j < |k|
      ensures Before(plan[i], plan[j]) && WrittenBefore(plan[i], plan[j])
    {
      KernelAbove(k, j);
    }
  }

  /** Expanding and compacting again gives back every i686 word. */
  lemma ExpandThenCompact(a: seq<Byte>, k: seq<bool>)
    requires End64(k) <= |a|
    ensures AllFit(ExpandPlan(k), |a|) && AllFit(CompactPlan(k), |a|) && 4 * |k| <= |a|
    ensures Apply(Apply(a, ExpandPlan(k)), CompactPlan(k))[..4 * |k|] == a[..4 * |k|]
  {
    hide Apply, AllFit, Ordered, Off64, Start64, End64, AlignUp, ExpandPlan, CompactPlan;
    PlansFit(k, |a|);
    forall x: nat | x < 4 * |k|
      ensures x < |a| && Apply(Apply(a, ExpandPlan(k)), CompactPlan(k))[x] == a[x]
    {
      WordOf(x, |k|);
      WordBack(a, k, x / 4, x);
    }
  }

  lemma WordOf(x: nat, n: nat)
    requires x < 4 * n
    ensures x / 4 < n && 4 * (x / 4) <= x < 4 * (x / 4) + 4
  {
  }

  /** Byte x of the i686 word i after both moves. */
  lemma WordBack(a: seq<Byte>, k: seq<bool>, i: nat, x: nat)
    requires End64(k) <= |a| && i < |k| && 4 * i <= x < 4 * i + 4
    ensures AllFit(ExpandPlan(k), |a|) && AllFit(CompactPlan(k), |a|) && x < |a|
    ensures Apply(Apply(a, ExpandPlan(k)), CompactPlan(k))[x] == a[x]
  {
    hide Apply, AllFit, Ordered, Off64, Start64, End64, AlignUp, ExpandPlan, CompactPlan;
    PlansFit(k, |a|);
    BackAgain(a, ExpandPlan(k), CompactPlan(k), i, x);
  }

  lemma PlansFit(k: seq<bool>, n: nat)
    requires End64(k) <= n
    ensures AllFit(ExpandPlan(k), n) && AllFit(CompactPlan(k), n) && 4 * |k| <= n
    ensures Ordered(ExpandPlan(k)) && Ordered(CompactPlan(k))
  {
    ExpandPlanExpands(k, n);
    CompactPlanCompacts(k, n);
    EndIsAligned(k);
  }

  /** Byte y of the kernel field i after both moves. */
  lemma ByteBack(a: seq<Byte>, k: seq<bool>, i: nat, y: nat)
    requires End64(k) <= |a| && i < |k| && Off64(k, i) <= y < Off64(k, i) + Width(k[i])
    ensures AllFit(ExpandPlan(k), |a|) && AllFit(CompactPlan(k), |a|) && y < |a|
    ensures Apply(Apply(a, CompactPlan(k)), ExpandPlan(k))[y] == if y < Off64(k, i) + 4 then a[y] else 0
  {
    hide Apply, AllFit, Ordered, Off64, Start64, End64, AlignUp, ExpandPlan, CompactPlan;
    PlansFit(k, |a|);
    OffsetsInside(k, i, |a|);
    BackAgain(a, CompactPlan(k), ExpandPlan(k), i, y);
  }

  /** Compacting and expanding again gives back a field of the kernel structure exactly when
      it is a scalar or a handle that fits 32 bits. */
  lemma CompactThenExpand(a: seq<Byte>, k: seq<bool>, i: nat)
    requires End64(k) <= |a| && i < |k|
    ensures AllFit(ExpandPlan(k), |a|) && AllFit(CompactPlan(k), |a|)
    ensures var o, w := Off64(k, i), Width(k[i]);
            && o + w <= |a|
            && (Apply(Apply(a, CompactPlan(k)), ExpandPlan(k))[o..o + w] == a[o..o + w]
                <==> (k[i] ==> a[o + 4..o + 8] == Zeros(4)))
  {
    hide Apply, AllFit, Ordered, Off64, Start64, End64, AlignUp, ExpandPlan, CompactPlan;
    PlansFit(k, |a|);
    OffsetsInside(k, i, |a|);
    var c, o, w := Apply(Apply(a, CompactPlan(k)), ExpandPlan(k)), Off64(k, i), Width(k[i]);
    forall y: nat | o <= y < o + w
      ensures c[y] == if y < o + 4 then a[y] else 0
    {
      ByteBack(a, k, i, y);
    }
    SameField(a, c, o, k[i]);
  }

  lemma SameField(a: seq<Byte>, c: seq<Byte>, o: nat, h: bool)
    requires o + Width(h) <= |a| == |c|
    requires forall y: nat :: o <= y < o + Width(h) ==> c[y] == if y < o + 4 then a[y] else 0
    ensures c[o..o + Width(h)] == a[o..o + Width(h)] <==> (h ==> a[o + 4..o + 8] == Zeros(4))
  {
    if h {
      var high, both, back := a[o + 4..o + 8], a[o..o + 8], c[o..o + 8];
      assert high == both[4..] && back[4..] == Zeros(4) && back[..4] == both[..4];
      assert back == back[..4] + back[4..] && both == both[..4] + both[4..];
    }
  }

  /** Byte y of field i after two moves, the first a truncation, the second back to the place
      where the field was. */
  lemma BackAgain(a: seq<Byte>, p: seq<Field>, q: seq<Field>, i: nat, y: nat)
    requires AllFit(p, |a|) && AllFit(q, |a|) && Ordered(p) && Ordered(q) && i < |p| == |q|
    requires q[i].from == p[i].to && p[i].from == q[i].to && p[i].len == q[i].len && Covers(q[i], y)
    ensures y < |a| && Apply(Apply(a, p), q)[y] == if y < q[i].to + q[i].len then a[y] else 0
  {
    hide Apply, Ordered, AllFit;
    if y < q[i].to + q[i].len {
      MoveTwice(a, p, q, i, y - q[i].to);
    } else {
      ApplyCovered(Apply(a, p), q, i, y);
    }
  }

  /** Byte x of field i after two moves, the second from where the first put it. */
  lemma MoveTwice(a: seq<Byte>, p: seq<Field>, q: seq<Field>, i: nat, x: nat)
    requires AllFit(p, |a|) && AllFit(q, |a|) && Ordered(p) && Ordered(q) && i < |p| == |q|
    requires q[i].from == p[i].to && x < p[i].len && x < q[i].len
    ensures Fits(p[i], |a|) && Fits(q[i], |a|)
    ensures Apply(Apply(a, p), q)[q[i].to + x] == a[p[i].from + x]
  {
    hide Apply, Ordered;
    ApplyCovered(a, p, i, p[i].to + x);
    ApplyCovered(Apply(a, p), q, i, q[i].to + x);
  }

  // ---------- the walk over a layout string ----------

  /** The fields the walk takes: never more than its arrays hold. */
  ghost function Fields(psz: string): seq<bool> {
    AtMost(Kinds(psz, 0), MAX_WORDS)
  }

  lemma {:induction false} LetterFollows(psz: string, i: nat)
    requires WellFormed(psz) && i < |psz|
    ensures AfterDigits(psz, i) < |psz|
    decreases |psz| - i
  {
    if IsDigit(psz[i]) {
      LetterFollows(psz, i + 1);
    }
  }

  lemma KindsStep(psz: string, i: nat)
    requires WellFormed(psz) && i < |psz|
    ensures var j, n := AfterDigits(psz, i), Number(psz, i, 0);
            && j < |psz| && Kinds(psz, i) == Repeated(psz[j] == 'h', if n == 0 then 1 else n) + Kinds(psz, j + 1)
  {
    LetterFollows(psz, i);
  }

  lemma TakeOne(k: seq<bool>, h: bool, rep: nat, rest: seq<bool>)
    requires rep > 0
    ensures k + (Repeated(h, rep) + rest) == (k + [h]) + (Repeated(h, rep - 1) + rest)
  {
    assert Repeated(h, rep) == [h] + Repeated(h, rep - 1);
  }

  /** Nothing is left to repeat, or the arrays are full. */
  lemma RunDone(k: seq<bool>, h: bool, rep: nat, rest: seq<bool>)
    requires |k| <= MAX_WORDS && (rep == 0 || |k| == MAX_WORDS)
    ensures AtMost(k + (Repeated(h, rep) + rest), MAX_WORDS) == AtMost(k + rest, MAX_WORDS)
  {
    if rep == 0 {
      assert Repeated(h, rep) + rest == rest;
    } else {
      assert AtMost(k + (Repeated(h, rep) + rest), MAX_WORDS) == k == AtMost(k + rest, MAX_WORDS);
    }
  }

  /** What the walk has written for the fields k. */
  ghost predicate Written(k: seq<bool>, off32: array?<nat>, off64: array?<nat>, handle: array?<bool>)
    reads off32, off64, handle
  {
    off32 != null && off64 != null && handle != null ==>
      && |k| <= off32.Length && |k| <= off64.Length && |k| <= handle.Length
      && forall i :: 0 <= i < |k| ==> off32[i] == 4 * i && off64[i] == Off64(k, i) && handle[i] == k[i]
  }

  lemma OffsetOfPrefix(k: seq<bool>, h: bool, i: nat)
    requires i <= |k|
    ensures i < |k| ==> Off64(k + [h], i) == Off64(k, i)
    ensures i == |k| ==> Off64(k + [h], i) == Start64(k, h)
  {
    assert (k + [h])[..i] == k[..i];
    assert i == |k| ==> k[..i] == k;
  }

  lemma EndOfNext(k: seq<bool>, h: bool)
    ensures End64(k + [h]) == Start64(k, h) + Width(h)
  {
    assert (k + [h])[..|k|] == k;
  }

  /** One field of PVRCompatLayoutFields. */
  method PutField(h: bool, n: nat, o32: nat, o64: nat, off32: array?<nat>, off64: array?<nat>, handle: array?<bool>,
                  ghost k: seq<bool>)
    returns (next64: nat)
    requires n == |k| < MAX_WORDS && o32 == 4 * n && o64 == End64(k) && Written(k, off32, off64, handle)
    requires Roomy(off32, off64, handle)
    modifies off32, off64, handle
    ensures next64 == End64(k + [h]) && Written(k + [h], off32, off64, handle)
  {
    EndOfNext(k, h);
    forall i: nat | i <= n
      ensures i < n ==> Off64(k + [h], i) == Off64(k, i)
      ensures i == n ==> Off64(k + [h], i) == Start64(k, h)
    {
      OffsetOfPrefix(k, h, i);
    }
    hide End64, Off64;
    var o := if h then AlignUp(o64, 8) else o64;
    if off32 != null {
      off32[n], off64[n], handle[n] := o32, o, h;
    }
    next64 := o + Width(h);
  }

  /** The caller passes three arrays that hold all fields, or none. */
  predicate Roomy(off32: array?<nat>, off64: array?<nat>, handle: array?<bool>) {
    && (off32 == null <==> off64 == null) && (off32 == null <==> handle == null)
    && (off32 != null && off64 != null && handle != null ==>
          off32 != off64 && off32.Length >= MAX_WORDS && off64.Length >= MAX_WORDS && handle.Length >= MAX_WORDS)
  }

  /** PVRCompatLayoutFields. */
  method LayoutFields(psz: string, off32: array?<nat>, off64: array?<nat>, handle: array?<bool>)
    returns (n: nat, size32: nat, size64: nat)
    requires WellFormed(psz) && Roomy(off32, off64, handle)
    modifies off32, off64, handle
    ensures n == |Fields(psz)| && size32 == 4 * n && size64 == Size64(Fields(psz))
    ensures Written(Fields(psz), off32, off64, handle)
  {
    hide Kinds, AtMost, Start64, End64, Off64, AfterDigits, Number, Written;
    ghost var k: seq<bool> := [];
    NoFields(off32, off64, handle, psz);
    n, size32 := 0, 0;
    var o64, align, pos := 0, 4, 0;
    while pos < |psz|
      invariant pos <= |psz| && n == |k| <= MAX_WORDS && size32 == 4 * n && o64 == End64(k)
      invariant align == Alignment(k) && Written(k, off32, off64, handle)
      invariant AtMost(k + Kinds(psz, pos), MAX_WORDS) == Fields(psz)
      decreases |psz| - pos
    {
      KindsStep(psz, pos);
      var letter, rep := ReadCount(psz, pos);
      ghost var rest := Kinds(psz, letter + 1);
      var h := psz[letter] == 'h';
      while rep > 0 && n < MAX_WORDS
        invariant n == |k| <= MAX_WORDS && size32 == 4 * n && o64 == End64(k)
        invariant align == Alignment(k) && Written(k, off32, off64, handle)
        invariant AtMost(k + (Repeated(h, rep) + rest), MAX_WORDS) == Fields(psz)
        decreases rep
      {
        TakeOne(k, h, rep, rest);
        rep := rep - 1;
        o64 := PutField(h, n, size32, o64, off32, off64, handle, k);
        if h {
          align := 8;
        }
        k, size32, n := k + [h], size32 + 4, n + 1;
      }
      RunDone(k, h, rep, rest);
      pos := letter + 1;
    }
    EndOfString(k, psz);
    size64 := AlignUp(o64, align);
  }

  /** The digits in front of a letter; no digits, or zero, count as one. */
  method ReadCount(psz: string, start: nat) returns (pos: nat, rep: nat)
    requires WellFormed(psz) && start < |psz|
    ensures pos == AfterDigits(psz, start) < |psz|
    ensures rep == (var n := Number(psz, start, 0); if n == 0 then 1 else n)
  {
    LetterFollows(psz, start);
    pos, rep := start, 0;
    while pos < |psz| && IsDigit(psz[pos])
      invariant start <= pos <= |psz| && AfterDigits(psz, pos) == AfterDigits(psz, start)
      invariant Number(psz, pos, rep) == Number(psz, start, 0)
    {
      rep := (rep * 10 + (psz[pos] - '0') as int) % TWO_32;
      pos := pos + 1;
    }
    if rep == 0 {
      rep := 1;
    }
  }

  lemma NoFields(off32: array?<nat>, off64: array?<nat>, handle: array?<bool>, psz: string)
    ensures Written([], off32, off64, handle) && End64([]) == 0 && [] + Kinds(psz, 0) == Kinds(psz, 0)
  {
  }

  lemma EndOfString(k: seq<bool>, psz: string)
    requires |k| <= MAX_WORDS
    ensures AtMost(k + Kinds(psz, |psz|), MAX_WORDS) == k
  {
    assert Kinds(psz, |psz|) == [];
    assert k + [] == k;
  }

  // ---------- the repack ----------

  /** The move a repack stands for. */
  ghost function RepackPlan(k: seq<bool>, expand: bool): seq<Field> {
    if expand then ExpandPlan(k) else CompactPlan(k)
  }

  /** What the reading loop keeps of field i: the word read, widened to eight bytes. */
  function ReadValue(orig: seq<Byte>, h: bool, o32: nat, o64: nat, expand: bool): (r: seq<Byte>)
    requires o32 + 4 <= |orig| && o64 + Width(h) <= |orig|
    ensures |r| == 8
  {
    if expand then orig[o32..o32 + 4] + Zeros(4)
    else if h then orig[o64..o64 + 8]
    else orig[o64..o64 + 4] + Zeros(4)
  }

  function StoredBytes(v: seq<Byte>, h: bool, expand: bool): seq<Byte>
    requires |v| == 8
  {
    if expand && h then v else v[..4]
  }

  /** The word read and then stored is what the move carries. */
  lemma StoresCarried(orig: seq<Byte>, k: seq<bool>, i: nat, expand: bool)
    requires End64(k) <= |orig| && i < |k|
    ensures Off64(k, i) + Width(k[i]) <= |orig| && 4 * i + 4 <= |orig|
    ensures var f, v := RepackPlan(k, expand)[i], ReadValue(orig, k[i], 4 * i, Off64(k, i), expand);
            && Fits(f, |orig|) && StoredBytes(v, k[i], expand) == Carried(orig, f)
            && f.to == (if expand then Off64(k, i) else 4 * i)
  {
    hide End64, Off64, ReadValue, StoredBytes, Carried;
    OffsetsInside(k, i, |orig|);
    if expand {
      StoresExpanded(orig, k[i], 4 * i, Off64(k, i));
    } else {
      StoresCompacted(orig, k[i], 4 * i, Off64(k, i));
    }
  }

  lemma StoresExpanded(orig: seq<Byte>, h: bool, o32: nat, o64: nat)
    requires o32 + 4 <= |orig| && o64 + Width(h) <= |orig|
    ensures StoredBytes(ReadValue(orig, h, o32, o64, true), h, true) == Carried(orig, Field(o32, o64, 4, if h then 4 else 0))
  {
    assert Zeros(0) == [];
  }

  lemma StoresCompacted(orig: seq<Byte>, h: bool, o32: nat, o64: nat)
    requires o32 + 4 <= |orig| && o64 + Width(h) <= |orig|
    ensures StoredBytes(ReadValue(orig, h, o32, o64, false), h, false) == Carried(orig, Field(o64, o32, 4, 0))
  {
    assert Zeros(0) == [];
    if h {
      assert orig[o64..o64 + 8][..4] == orig[o64..o64 + 4];
    }
  }

  lemma PlanPrefix(orig: seq<Byte>, k: seq<bool>, expand: bool, i: nat)
    requires End64(k) <= |orig| && i < |k|
    ensures var plan := RepackPlan(k, expand);
            && |plan| == |k| && AllFit(plan[..i], |orig|) && AllFit(plan[..i + 1], |orig|) && Fits(plan[i], |orig|)
            && Apply(orig, plan[..i + 1]) == Put(Apply(orig, plan[..i]), plan[i], orig)
  {
    hide End64, Off64, Apply, Put, AllFit, Ordered, ExpandPlan, CompactPlan;
    PlansFit(k, |orig|);
    var plan := RepackPlan(k, expand);
    Split(plan, |orig|, i);
    OrderedAt(plan, i);
    ApplyLast(orig, plan[..i], plan[i]);
  }

  lemma OrderedAt(plan: seq<Field>, m: nat)
    requires Ordered(plan) && m < |plan|
    ensures forall i :: 0 <= i < m ==> Before(plan[..m][i], plan[m])
  {
  }

  /** One row of gasPVRCompatLayouts; either string may be missing, and an input size of 0 means
      the packed one. */
  datatype Layout = Layout(bridge: nat, input: Text, inSize: nat, output: Text)

  datatype Text = NoText | Text(s: string)

  /** Row i is the first one for the bridge. */
  ghost predicate RowOf(table: seq<Layout>, bridge: nat, i: nat) {
    i < |table| && table[i].bridge == bridge && forall j :: 0 <= j < i ==> table[j].bridge != bridge
  }

  /** PVRCompatFindLayout. */
  method FindLayout(table: seq<Layout>, bridge: nat) returns (found: bool, i: nat)
    ensures found <==> exists k :: 0 <= k < |table| && table[k].bridge == bridge
    ensures found ==> RowOf(table, bridge, i)
  {
    i := 0;
    while i < |table|
      invariant i <= |table| && forall j :: 0 <= j < i ==> table[j].bridge != bridge
    {
      if table[i].bridge == bridge {
        return true, i;
      }
      i := i + 1;
    }
    found := false;
  }

  /** PVRCompatLayoutSizes: a missing string leaves the caller's size. */
  method LayoutSizes(table: seq<Layout>, bridge: nat, sizeIn: nat, sizeOut: nat) returns (known: bool, compatIn: nat, compatOut: nat)
    requires forall k :: 0 <= k < |table| ==> Writable(table[k].input) && Writable(table[k].output)
    ensures known <==> exists k :: 0 <= k < |table| && table[k].bridge == bridge
    ensures !known ==> compatIn == sizeIn && compatOut == sizeOut
    ensures known ==> exists i: nat ::
      && RowOf(table, bridge, i) && compatOut == (if table[i].output == NoText then sizeOut else 4 * |Fields(table[i].output.s)|)
      && compatIn == (if table[i].input == NoText then sizeIn
                      else if table[i].inSize != 0 then table[i].inSize else 4 * |Fields(table[i].input.s)|)
  {
    hide Fields;
    compatIn, compatOut := sizeIn, sizeOut;
    var i;
    known, i := FindLayout(table, bridge);
    if known {
      var n, size32, size64;
      if table[i].input != NoText {
        n, size32, size64 := LayoutFields(table[i].input.s, null, null, null);
        compatIn := if table[i].inSize != 0 then table[i].inSize else size32;
      }
      if table[i].output != NoText {
        n, size32, size64 := LayoutFields(table[i].output.s, null, null, null);
        compatOut := size32;
      }
    }
  }

  predicate Writable(text: Text) {
    text.Text? ==> WellFormed(text.s)
  }

  /** The string is missing, or its fields fit into the buffer. */
  ghost predicate Usable(text: Text, n: nat) {
    Writable(text) && (text.Text? ==> Size64(Fields(text.s)) <= n)
  }

  /** A bridge call without the string leaves the buffer alone, the others move their fields. */
  ghost predicate Repacked(was: seq<Byte>, now: seq<Byte>, text: Text, expand: bool) {
    if text.NoText? then now == was
    else AllFit(RepackPlan(Fields(text.s), expand), |was|) && now == Apply(was, RepackPlan(Fields(text.s), expand))
  }

  /** PVRCompatLayoutRepack. */
  method LayoutRepack(table: seq<Layout>, bridge: nat, buf: array<Byte>, expand: bool) returns (known: bool)
    requires forall k :: 0 <= k < |table| && table[k].bridge == bridge ==>
               Usable(if expand then table[k].input else table[k].output, buf.Length)
    modifies buf
    ensures known <==> exists k :: 0 <= k < |table| && table[k].bridge == bridge
    ensures !known ==> buf[..] == old(buf[..])
    ensures known ==> exists i: nat ::
      && RowOf(table, bridge, i)
      && Repacked(old(buf[..]), buf[..], if expand then table[i].input else table[i].output, expand)
  {
    hide Fields, RepackPlan, Apply, AllFit, Size64;
    var i;
    known, i := FindLayout(table, bridge);
    if known {
      var text := if expand then table[i].input else table[i].output;
      assert Usable(text, buf.Length);
      if text.Text? {
        RepackFields(buf, text.s, expand);
      }
    }
  }

  /** PVRCompatLayoutRepack with the string: every field is read before any is written. */
  method RepackFields(buf: array<Byte>, psz: string, expand: bool)
    requires WellFormed(psz) && Size64(Fields(psz)) <= buf.Length
    modifies buf
    ensures AllFit(RepackPlan(Fields(psz), expand), buf.Length)
    ensures buf[..] == Apply(old(buf[..]), RepackPlan(Fields(psz), expand))
  {
    var off32, off64, handle := new nat[MAX_WORDS], new nat[MAX_WORDS], new bool[MAX_WORDS];
    var vals := new seq<Byte>[MAX_WORDS];
    ghost var k := Fields(psz);
    var n, size32, size64 := LayoutFields(psz, off32, off64, handle);
    ghost var orig := buf[..];
    ReadAll(buf, n, off32, off64, handle, vals, expand, k);
    WriteAll(buf, n, off32, off64, handle, vals, expand, k, orig);
  }

  ghost predicate ValuesRead(orig: seq<Byte>, k: seq<bool>, vals: seq<seq<Byte>>, n: nat, expand: bool)
    requires End64(k) <= |orig| && n <= |k| && n <= |vals|
  {
    forall i :: 0 <= i < n ==> ValueRead(orig, k, vals[i], i, expand)
  }

  ghost predicate ValueRead(orig: seq<Byte>, k: seq<bool>, v: seq<Byte>, i: nat, expand: bool)
    requires End64(k) <= |orig| && i < |k|
  {
    && Off64(k, i) + Width(k[i]) <= |orig| && 4 * i + 4 <= |orig|
    && v == ReadValue(orig, k[i], 4 * i, Off64(k, i), expand)
  }

  method ReadAll(buf: array<Byte>, n: nat, off32: array<nat>, off64: array<nat>, handle: array<bool>,
                 vals: array<seq<Byte>>, expand: bool, ghost k: seq<bool>)
    requires n == |k| <= vals.Length && End64(k) <= buf.Length && Written(k, off32, off64, handle)
    modifies vals
    ensures ValuesRead(buf[..], k, vals[..], n, expand)
  {
    hide End64, Off64, ReadValue;
    var i := 0;
    while i < n
      invariant i <= n && ValuesRead(buf[..], k, vals[..], i, expand)
    {
      OffsetsInside(k, i, buf.Length);
      var o32, o64, h := off32[i], off64[i], handle[i];
      var v := if expand then buf[o32..o32 + 4] + Zeros(4)
               else if h then buf[o64..o64 + 8]
               else buf[o64..o64 + 4] + Zeros(4);
      ReadsValue(buf[..], h, o32, o64, expand);
      vals[i] := v;
      i := i + 1;
    }
  }

  lemma ReadsValue(orig: seq<Byte>, h: bool, o32: nat, o64: nat, expand: bool)
    requires o32 + 4 <= |orig| && o64 + Width(h) <= |orig|
    ensures ReadValue(orig, h, o32, o64, expand) ==
            if expand then orig[o32..o32 + 4] + Zeros(4) else if h then orig[o64..o64 + 8] else orig[o64..o64 + 4] + Zeros(4)
  {
  }

  /** A store of a word of 4 or 8 bytes. */
  method Store(buf: array<Byte>, at: nat, w: seq<Byte>)
    requires at + |w| <= buf.Length
    modifies buf
    ensures buf[..] == Splice(old(buf[..]), at, w)
  {
    var j := 0;
    while j < |w|
      invariant j <= |w| && buf[..] == Splice(old(buf[..]), at, w[..j])
    {
      buf[at + j] := w[j];
      j := j + 1;
    }
    assert w[..|w|] == w;
  }

  method WriteAll(buf: array<Byte>, n: nat, off32: array<nat>, off64: array<nat>, handle: array<bool>,
                  vals: array<seq<Byte>>, expand: bool, ghost k: seq<bool>, ghost orig: seq<Byte>)
    requires n == |k| <= vals.Length && End64(k) <= buf.Length && Written(k, off32, off64, handle)
    requires orig == buf[..] && ValuesRead(orig, k, vals[..], n, expand)
    modifies buf
    ensures AllFit(RepackPlan(k, expand), |orig|) && buf[..] == Apply(orig, RepackPlan(k, expand))
  {
    hide End64, Off64, ReadValue, RepackPlan, AllFit, Apply, Splice;
    PlansFit(k, |orig|);
    ghost var plan := RepackPlan(k, expand);
    NothingMoved(orig, k, expand);
    var i := 0;
    while i < n
      invariant i <= n == |plan| && AllFit(plan[..i], |orig|) && buf[..] == Apply(orig, plan[..i])
    {
      assert ValueRead(orig, k, vals[..][i], i, expand);
      StoresCarried(orig, k, i, expand);
      PlanPrefix(orig, k, expand, i);
      if !expand {
        Store(buf, off32[i], vals[i][..4]);
      } else if handle[i] {
        Store(buf, off64[i], vals[i]);
      } else {
        Store(buf, off64[i], vals[i][..4]);
      }
      i := i + 1;
    }
    assert plan[..n] == plan;
  }

  lemma NothingMoved(orig: seq<Byte>, k: seq<bool>, expand: bool)
    requires End64(k) <= |orig|
    ensures var plan := RepackPlan(k, expand);
            && |plan| == |k| && AllFit(plan, |orig|) && AllFit(plan[..0], |orig|) && Apply(orig, plan[..0]) == orig
  {
    PlansFit(k, |orig|);
  }
}
