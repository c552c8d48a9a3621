/** Moving the fields of a structure inside one buffer: what the move should give, and when
    doing it in place, field by field, gives it. */
module CompatCopy {
  type Byte = x: int | 0 <= x < 256 witness 0

  /** Copy `len` bytes from offset `from` to offset `to` and follow them by `pad` zero bytes.
      A 32-bit word zero-extended to 64 bits is Field(from, to, 4, 4) on a little-endian
      machine; a 64-bit word truncated to 32 bits is Field(from, to, 4, 0). */
  datatype Field = Field(from: nat, to: nat, len: nat, pad: nat)

  function Zeros(n: nat): (r: seq<Byte>)
    ensures |r| == n && forall k :: 0 <= k < n ==> r[k] == 0
  {
    seq(n, _ => 0)
  }

  /** s with the bytes b written at offset `at`. */
  function Splice(s: seq<Byte>, at: nat, b: seq<Byte>): (r: seq<Byte>)
    requires at + |b| <= |s|
    ensures |r| == |s|
    ensures forall k :: 0 <= k < |s| ==> r[k] == if at <= k < at + |b| then b[k - at] else s[k]
  {
    s[..at] + b + s[at + |b|..]
  }

  predicate Fits(f: Field, n: nat) {
    f.from + f.len <= n && f.to + f.len + f.pad <= n
  }

  ghost predicate AllFit(plan: seq<Field>, n: nat) {
    forall i :: 0 <= i < |plan| ==> Fits(plan[i], n)
  }

  /** The bytes a field carries. */
  function Carried(orig: seq<Byte>, f: Field): (r: seq<Byte>)
    requires f.from + f.len <= |orig|
    ensures |r| == f.len + f.pad
  {
    orig[f.from..f.from + f.len] + Zeros(f.pad)
  }

  function Put(buf: seq<Byte>, f: Field, orig: seq<Byte>): (r: seq<Byte>)
    requires |buf| == |orig| && Fits(f, |orig|)
    ensures |r| == |orig|
  {
    Splice(buf, f.to, Carried(orig, f))
  }

  /** The whole move out of place: every field is taken from the original buffer. */
  ghost function Apply(orig: seq<Byte>, plan: seq<Field>): (r: seq<Byte>)
    requires AllFit(plan, |orig|)
    ensures |r| == |orig|
  {
    if plan == [] then orig else Put(Apply(orig, plan[1..]), plan[0], orig)
  }

  predicate Before(a: Field, b: Field) {
    a.to + a.len + a.pad <= b.to
  }

  /** The places the fields move to come one after the other. */
  ghost predicate Ordered(plan: seq<Field>) {
    forall i, k :: 0 <= i < k < |plan| ==> Before(plan[i], plan[k])
  }

  predicate Covers(f: Field, k: nat) {
    f.to <= k < f.to + f.len + f.pad
  }

  /** Byte k of the result when field f covers it. */
  function Value(orig: seq<Byte>, f: Field, k: nat): Byte
    requires f.from + f.len <= |orig| && Covers(f, k)
  {
    if k < f.to + f.len then orig[f.from + k - f.to] else 0
  }

  lemma {:induction false} ApplyCovered(orig: seq<Byte>, plan: seq<Field>, i: nat, k: nat)
    requires AllFit(plan, |orig|) && Ordered(plan) && i < |plan| && Covers(plan[i], k)
    ensures k < |orig| && Apply(orig, plan)[k] == Value(orig, plan[i], k)
  {
    if i > 0 {
      assert Before(plan[0], plan[i]);
      ApplyCovered(orig, plan[1..], i - 1, k);
    }
  }

  lemma {:induction false} ApplyOutside(orig: seq<Byte>, plan: seq<Field>, k: nat)
    requires AllFit(plan, |orig|) && k < |orig| && forall i :: 0 <= i < |plan| ==> !Covers(plan[i], k)
    ensures Apply(orig, plan)[k] == orig[k]
  {
    if plan != [] {
      assert !Covers(plan[0], k);
      forall i | 0 <= i < |plan[1..]|
        ensures !Covers(plan[1..][i], k)
      {
        assert !Covers(plan[i + 1], k);
      }
      ApplyOutside(orig, plan[1..], k);
    }
  }

  ghost predicate ByteMoved(orig: seq<Byte>, plan: seq<Field>, k: nat, x: Byte)
    requires AllFit(plan, |orig|) && k < |orig|
  {
    && (forall i :: 0 <= i < |plan| && Covers(plan[i], k) ==> Fits(plan[i], |orig|) && x == Value(orig, plan[i], k))
    && ((forall i :: 0 <= i < |plan| ==> !Covers(plan[i], k)) ==> x == orig[k])
  }

  /** Every field has arrived and every byte outside the fields is as it was. */
  ghost predicate IsMoved(orig: seq<Byte>, plan: seq<Field>, r: seq<Byte>)
    requires AllFit(plan, |orig|)
  {
    |r| == |orig| && forall k: nat :: k < |r| ==> ByteMoved(orig, plan, k, r[k])
  }

  lemma ByteIsMoved(orig: seq<Byte>, plan: seq<Field>, k: nat, x: Byte)
    requires AllFit(plan, |orig|) && Ordered(plan) && k < |orig|
    ensures ByteMoved(orig, plan, k, x) <==> x == Apply(orig, plan)[k]
  {
    hide Ordered, Apply, Put;
    if i :| 0 <= i < |plan| && Covers(plan[i], k) {
      forall j | 0 <= j < |plan| && Covers(plan[j], k)
        ensures Fits(plan[j], |orig|) && Apply(orig, plan)[k] == Value(orig, plan[j], k)
      {
        ApplyCovered(orig, plan, j, k);
      }
    } else {
      ApplyOutside(orig, plan, k);
    }
  }

  /** Apply gives the one buffer that is the result of the move. */
  lemma ApplyIsMoved(orig: seq<Byte>, plan: seq<Field>, r: seq<Byte>)
    requires AllFit(plan, |orig|) && Ordered(plan)
    ensures IsMoved(orig, plan, r) <==> r == Apply(orig, plan)
  {
    hide Ordered, ByteMoved, Apply;
    forall k: nat, x: Byte | k < |orig|
      ensures ByteMoved(orig, plan, k, x) <==> x == Apply(orig, plan)[k]
    {
      ByteIsMoved(orig, plan, k, x);
    }
  }

  // ---------- in place ----------

  /** Every field moves up, and the sources come one after the other as well. */
  ghost predicate Expanding(plan: seq<Field>) {
    && Ordered(plan)
    && (forall i :: 0 <= i < |plan| ==> plan[i].from <= plan[i].to)
    && (forall i, k :: 0 <= i < k < |plan| ==> SourceBefore(plan[i], plan[k]))
  }

  predicate SourceBefore(a: Field, b: Field) {
    a.from + a.len <= b.from
  }

  /** Every field moves down, and no field is written over a later source. */
  ghost predicate Compacting(plan: seq<Field>) {
    && Ordered(plan)
    && (forall i, k :: 0 <= i < k < |plan| ==> WrittenBefore(plan[i], plan[k]))
  }

  predicate WrittenBefore(a: Field, b: Field) {
    a.to + a.len + a.pad <= b.from
  }

  /** Reading a field from a buffer that still holds its source, instead of from the original. */
  lemma PutFromCopy(buf: seq<Byte>, f: Field, orig: seq<Byte>)
    requires |buf| == |orig| && Fits(f, |orig|) && forall k :: f.from <= k < f.from + f.len ==> buf[k] == orig[k]
    ensures Put(buf, f, buf) == Put(buf, f, orig)
  {
    assert buf[f.from..f.from + f.len] == orig[f.from..f.from + f.len];
  }

  /** Writing g leaves the source of f alone. */
  predicate Clear(f: Field, g: Field) {
    f.from + f.len <= g.to || WrittenBefore(g, f)
  }

  /** With other fields already moved that do not reach its source, a field's source is intact. */
  lemma SourceIntact(orig: seq<Byte>, done: seq<Field>, f: Field)
    requires AllFit(done, |orig|) && Fits(f, |orig|)
    requires forall i :: 0 <= i < |done| ==> Clear(f, done[i])
    ensures forall k :: f.from <= k < f.from + f.len ==> Apply(orig, done)[k] == orig[k]
  {
    hide Apply;
    forall k | f.from <= k < f.from + f.len
      ensures Apply(orig, done)[k] == orig[k]
    {
      ApplyOutside(orig, done, k);
    }
  }

  /** Moving field m - 1 up in place, with the later ones already moved. */
  lemma StepDown(orig: seq<Byte>, plan: seq<Field>, m: nat)
    requires AllFit(plan, |orig|) && Expanding(plan) && 0 < m <= |plan|
    ensures AllFit(plan[m..], |orig|) && AllFit(plan[m - 1..], |orig|) && Fits(plan[m - 1], |orig|)
    ensures var b := Apply(orig, plan[m..]);
            Apply(orig, plan[m - 1..]) == Put(b, plan[m - 1], b)
  {
    hide Expanding, Apply, Put, AllFit;
    var f, rest := plan[m - 1], plan[m..];
    Split(plan, |orig|, m - 1);
    ExpandingAt(plan, m - 1, rest);
    SourceIntact(orig, rest, f);
    PutFromCopy(Apply(orig, rest), f, orig);
    ApplyFirst(orig, f, rest);
  }

  lemma ApplyFirst(orig: seq<Byte>, f: Field, rest: seq<Field>)
    requires AllFit(rest, |orig|) && Fits(f, |orig|)
    ensures AllFit([f] + rest, |orig|) && Apply(orig, [f] + rest) == Put(Apply(orig, rest), f, orig)
  {
    assert ([f] + rest)[1..] == rest;
  }

  lemma {:induction false} ApplyLast(orig: seq<Byte>, plan: seq<Field>, f: Field)
    requires AllFit(plan, |orig|) && Fits(f, |orig|) && forall i :: 0 <= i < |plan| ==> Before(plan[i], f)
    ensures AllFit(plan + [f], |orig|)
    ensures Apply(orig, plan + [f]) == Put(Apply(orig, plan), f, orig)
  {
    if plan == [] {
      assert [f][1..] == [];
      assert Apply(orig, [f]) == Put(Apply(orig, []), f, orig);
      assert plan + [f] == [f];
    } else {
      var rest := plan[1..];
      assert (plan + [f])[1..] == rest + [f];
      assert forall i :: 0 <= i < |rest| ==> rest[i] == plan[i + 1];
      ApplyLast(orig, rest, f);
      assert Before(plan[0], f);
      PutsCommute(Apply(orig, rest), plan[0], f, orig);
    }
  }

  lemma PutsCommute(buf: seq<Byte>, a: Field, b: Field, orig: seq<Byte>)
    requires |buf| == |orig| && Fits(a, |orig|) && Fits(b, |orig|) && Before(a, b)
    ensures Put(Put(buf, b, orig), a, orig) == Put(Put(buf, a, orig), b, orig)
  {
  }

  /** Moving field m down in place, with the earlier ones already moved. */
  lemma StepUp(orig: seq<Byte>, plan: seq<Field>, m: nat)
    requires AllFit(plan, |orig|) && Compacting(plan) && m < |plan|
    ensures AllFit(plan[..m], |orig|) && AllFit(plan[..m + 1], |orig|) && Fits(plan[m], |orig|)
    ensures var b := Apply(orig, plan[..m]);
            Apply(orig, plan[..m + 1]) == Put(b, plan[m], b)
  {
    hide Compacting, Apply, Put, AllFit;
    var f, done := plan[m], plan[..m];
    Split(plan, |orig|, m);
    CompactingAt(plan, m);
    StepUpFrom(orig, done, f);
  }

  lemma StepUpFrom(orig: seq<Byte>, done: seq<Field>, f: Field)
    requires AllFit(done, |orig|) && Fits(f, |orig|)
    requires forall i :: 0 <= i < |done| ==> Clear(f, done[i]) && Before(done[i], f)
    ensures AllFit(done + [f], |orig|)
    ensures Apply(orig, done + [f]) == Put(Apply(orig, done), f, Apply(orig, done))
  {
    hide Apply, Put;
    SourceIntact(orig, done, f);
    PutFromCopy(Apply(orig, done), f, orig);
    ApplyLast(orig, done, f);
  }

  lemma CompactingAt(plan: seq<Field>, m: nat)
    requires Compacting(plan) && m < |plan|
    ensures forall i :: 0 <= i < m ==> Clear(plan[m], plan[..m][i]) && Before(plan[..m][i], plan[m])
  {
    forall i | 0 <= i < m
      ensures Clear(plan[m], plan[..m][i]) && Before(plan[..m][i], plan[m])
    {
      assert WrittenBefore(plan[i], plan[m]);
    }
  }

  lemma ExpandingAt(plan: seq<Field>, m: nat, rest: seq<Field>)
    requires Expanding(plan) && m < |plan| && rest == plan[m + 1..]
    ensures forall i :: 0 <= i < |rest| ==> Clear(plan[m], rest[i])
  {
    forall i | 0 <= i < |rest|
      ensures Clear(plan[m], rest[i])
    {
      assert SourceBefore(plan[m], plan[m + 1 + i]);
    }
  }

  lemma Split(plan: seq<Field>, n: nat, m: nat)
    requires AllFit(plan, n) && m < |plan|
    ensures AllFit(plan[..m], n) && AllFit(plan[m..], n) && AllFit(plan[..m + 1], n) && AllFit(plan[m + 1..], n) && Fits(plan[m], n)
    ensures plan[..m + 1] == plan[..m] + [plan[m]] && plan[m..] == [plan[m]] + plan[m + 1..]
  {
  }
}
