/**
 * The mergeable latency histogram: log-linear buckets, their error bound, the
 * canonical form that makes equal histograms compare equal, and the stored encoding.
 */
module Histogram {
  import opened Wrappers
  import opened Leb128
  import Tune

  const LINEAR_BELOW := 64
  const SUB := 32 // 2 to the power of SUB_BITS
  const MAX_BUCKET := 895
  const ENCODING_V1: Byte := 1

  // ---------------------------------------------------------------- buckets

  function Pow2(k: nat): (p: nat)
    ensures p > 0
  {
    if k == 0 then 1 else 2 * Pow2(k - 1)
  }

  /** `ilog2` */
  function Log2(n: nat): (e: nat)
    requires n > 0
    ensures Pow2(e) <= n < Pow2(e + 1)
  {
    if n == 1 then 0 else Log2(n / 2) + 1
  }

  /** How far a value past the linear range is shifted: its top six bits remain. */
  function Shift(value: nat): (shift: nat)
    requires value >= LINEAR_BELOW
    ensures shift > 0 && 32 * Pow2(shift) <= value < 64 * Pow2(shift)
  {
    ShiftIsScale(value);
    Log2(value) - 5
  }

  /** The top six bits of a value past the linear range. */
  function Mantissa(value: nat): (mantissa: nat)
    requires value >= LINEAR_BELOW
    ensures 32 <= mantissa < 64
    ensures mantissa * Pow2(Shift(value)) <= value < mantissa * Pow2(Shift(value)) + Pow2(Shift(value))
  {
    DivideInto(value, Pow2(Shift(value)));
    value / Pow2(Shift(value))
  }

  function Clamp(latency: int): nat {
    if latency < 0 then 0 else if latency > U32_MAX then U32_MAX else latency
  }

  /** `bucket_of` */
  function BucketOf(latency: int): (bucket: nat) {
    var value := Clamp(latency);
    if value < LINEAR_BELOW then value
    else Shift(value) * SUB + Mantissa(value)
  }

  /** `midpoint` */
  function Midpoint(bucket: nat): nat {
    if bucket < LINEAR_BELOW then bucket
    else
      var shift := bucket / SUB - 1;
      var mantissa := bucket - shift * SUB;
      mantissa * Pow2(shift) + Pow2(shift) / 2
  }

  lemma {:induction false} Pow2Monotone(j: nat, k: nat)
    requires j <= k
    ensures Pow2(j) <= Pow2(k)
    decreases k
  {
    if j < k {
      Pow2Monotone(j, k - 1);
    }
  }

  lemma Pow2Scale(k: nat)
    ensures Pow2(k + 5) == 32 * Pow2(k) && Pow2(k + 6) == 64 * Pow2(k)
  {
    assert Pow2(k + 2) == 4 * Pow2(k);
    assert Pow2(k + 4) == 4 * Pow2(k + 2);
    assert Pow2(k + 6) == 4 * Pow2(k + 4);
  }

  lemma Pow2Literals()
    ensures Pow2(6) == 64 && Pow2(27) == 0x800_0000
  {
    Pow2Scale(0);
    Pow2Scale(6);
    Pow2Scale(11);
    Pow2Scale(16);
    Pow2Scale(21);
    assert Pow2(27) == 2 * Pow2(26);
  }

  lemma ShiftIsScale(value: nat)
    requires value >= LINEAR_BELOW
    ensures var e := Log2(value); e > 5 && 32 * Pow2(e - 5) <= value < 64 * Pow2(e - 5)
  {
    hide Pow2, Log2;
    var e := Log2(value);
    Pow2Literals();
    if e < 6 {
      Pow2Monotone(e + 1, 6);
    }
    Pow2Scale(e - 5);
  }

  lemma MulMonotone(a: nat, b: nat, c: nat)
    requires a <= b
    ensures a * c <= b * c
  {
  }

  lemma DivideInto(value: nat, width: nat)
    requires width > 0 && 32 * width <= value < 64 * width
    ensures 32 <= value / width < 64
    ensures value / width * width <= value < value / width * width + width
  {
    QuotientBetween(value, width, 32, 64);
  }

  lemma QuotientBetween(value: nat, width: nat, low: nat, high: nat)
    requires width > 0 && low * width <= value < high * width
    ensures low <= value / width < high
    ensures value / width * width <= value < value / width * width + width
  {
    var m := value / width;
    assert value == m * width + value % width;
    if m < low {
      MulMonotone(m + 1, low, width);
      assert false;
    }
    if m >= high {
      MulMonotone(high, m, width);
      assert false;
    }
  }

  /** Past the linear range, a bucket index is 32 per shift plus a mantissa in [32, 64). */
  lemma BucketShape(value: nat)
    requires LINEAR_BELOW <= value <= U32_MAX
    ensures 1 <= Shift(value) <= 26
    ensures BucketOf(value) == Shift(value) * SUB + Mantissa(value)
    ensures BucketOf(value) / SUB - 1 == Shift(value)
  {
    hide Pow2, Shift, Mantissa;
    var shift := Shift(value);
    if shift > 26 {
      Pow2Literals();
      Pow2Monotone(27, shift);
      assert false;
    }
  }

  /** No index is ever above 895, the bucket of `u32::MAX` milliseconds. */
  lemma BucketInRange(latency: int)
    ensures BucketOf(latency) <= MAX_BUCKET
  {
    var value := Clamp(latency);
    if value >= LINEAR_BELOW {
      BucketShape(value);
    }
  }

  /** A larger latency never lands in a lower bucket. */
  lemma BucketMonotone(v: int, w: int)
    requires v <= w
    ensures BucketOf(v) <= BucketOf(w)
  {
    hide Pow2, Shift, Mantissa;
    var v', w' := Clamp(v), Clamp(w);
    if v' >= LINEAR_BELOW {
      if Shift(v') == Shift(w') {
        SameShiftMonotone(Mantissa(v'), Mantissa(w'), Pow2(Shift(v')), v', w');
      } else if Shift(v') > Shift(w') {
        Pow2Monotone(Shift(w') + 1, Shift(v'));
        Pow2Next(Shift(w'));
        assert false;
      }
    }
  }

  lemma Pow2Next(k: nat)
    ensures Pow2(k + 1) == 2 * Pow2(k)
  {
  }

  lemma SameShiftMonotone(m: nat, n: nat, width: nat, v: nat, w: nat)
    requires m * width <= v <= w < n * width + width
    ensures m <= n
  {
    if m > n {
      MulMonotone(n + 1, m, width);
      assert false;
    }
  }

  /** A bucket answers exactly below 64 ms, and within 1/64 of every value it holds above. */
  lemma MidpointWithinBound(value: nat)
    requires value <= U32_MAX
    ensures value < LINEAR_BELOW ==> Midpoint(BucketOf(value)) == value
    ensures WithinOneSixtyFourth(Midpoint(BucketOf(value)), value)
  {
    hide Pow2, Shift, Mantissa;
    if value >= LINEAR_BELOW {
      BucketShape(value);
      var shift := Shift(value);
      Pow2Next(shift - 1);
      var width, mantissa := Pow2(shift), Mantissa(value);
      MulMonotone(32, mantissa, width);
      assert Midpoint(BucketOf(value)) == mantissa * width + width / 2;
    }
  }

  /** `|got - want| <= want / 64` */
  predicate WithinOneSixtyFourth(got: int, want: int) {
    -want <= (got - want) * 64 <= want
  }

  // ---------------------------------------------------------------- counts

  /** The samples counted in a bucket; nothing is counted past the end. */
  function At(counts: seq<nat>, bucket: nat): nat {
    if bucket < |counts| then counts[bucket] else 0
  }

  /** Never ends with a zero, never holds a bucket above the last one. */
  predicate Canonical(counts: seq<nat>) {
    |counts| <= MAX_BUCKET + 1 && (counts != [] ==> counts[|counts| - 1] > 0)
  }

  /** The samples counted in the first `k` buckets. */
  function Below(counts: seq<nat>, k: nat): nat {
    if k == 0 then 0 else Below(counts, k - 1) + At(counts, k - 1)
  }

  /** Canonical histograms with the same bucket counts are the same histogram. */
  lemma CanonicalUnique(a: seq<nat>, b: seq<nat>)
    requires Canonical(a) && Canonical(b) && forall bucket: nat :: At(a, bucket) == At(b, bucket)
    ensures a == b
  {
    if a != [] {
      assert At(b, |a| - 1) == At(a, |a| - 1) > 0;
    }
    if b != [] {
      assert At(a, |b| - 1) == At(b, |b| - 1) > 0;
    }
    forall i | 0 <= i < |a| ensures a[i] == b[i] {
      assert At(a, i) == At(b, i);
    }
  }

  /** Emptiness is read off the vector, not summed. */
  lemma EmptyIffNothingCounted(counts: seq<nat>)
    requires Canonical(counts)
    ensures counts == [] <==> Below(counts, |counts|) == 0
  {
  }

  /** What an operation does to a histogram, bucket by bucket. */
  datatype Op =
    | Record(latency: int, count: nat)
    | Unrecord(latency: int, count: nat)
    | Merge(other: seq<nat>)

  function Effect(op: Op, bucket: nat, was: nat): nat {
    match op
    case Record(latency, count) => if bucket == BucketOf(latency) then was + count else was
    case Unrecord(latency, count) => if bucket != BucketOf(latency) then was else if was < count then 0 else was - count
    case Merge(other) => was + At(other, bucket)
  }

  ghost predicate OpStep(counts: seq<nat>, op: Op, counts': seq<nat>) {
    && Canonical(counts')
    && forall bucket: nat :: At(counts', bucket) == Effect(op, bucket, At(counts, bucket))
  }

  class LatencyHistogram {
    var counts: seq<nat>

    ghost predicate Valid()
      reads this
    {
      Canonical(counts)
    }

    constructor ()
      ensures Valid() && counts == []
    {
      counts := [];
    }

    /** `record`: negative latencies count as 0. */
    method Record(latency: int, count: nat)
      requires Valid()
      modifies this
      ensures OpStep(old(counts), Op.Record(latency, count), counts)
    {
      BucketInRange(latency);
      Add(BucketOf(latency), count);
    }

    /** `unrecord`: saturating at zero, then dropping the zeros left at the end. */
    method Unrecord(latency: int, count: nat)
      requires Valid()
      modifies this
      ensures OpStep(old(counts), Op.Unrecord(latency, count), counts)
    {
      var bucket := BucketOf(latency);
      if bucket < |counts| {
        counts := counts[bucket := if counts[bucket] < count then 0 else counts[bucket] - count];
      }
      ghost var was := counts;
      while counts != [] && counts[|counts| - 1] == 0
        invariant |counts| <= MAX_BUCKET + 1
        invariant forall b: nat :: At(counts, b) == At(was, b)
        decreases |counts|
      {
        counts := counts[..|counts| - 1];
      }
    }

    method Add(bucket: nat, count: nat)
      requires Valid() && bucket <= MAX_BUCKET
      modifies this
      ensures Valid()
      ensures forall b: nat :: At(counts, b) == old(At(counts, b)) + if b == bucket then count else 0
    {
      if count == 0 {
        return;
      }
      if |counts| <= bucket {
        counts := counts + seq(bucket + 1 - |counts|, i => 0);
      }
      counts := counts[bucket := counts[bucket] + count];
    }

    /** `merge` */
    method Merge(other: LatencyHistogram)
      requires Valid() && other.Valid()
      modifies this
      ensures OpStep(old(counts), Op.Merge(old(other.counts)), counts)
    {
      var theirs := other.counts;
      ghost var was := counts;
      if |counts| < |theirs| {
        counts := counts + seq(|theirs| - |counts|, i => 0);
      }
      for i := 0 to |theirs|
        invariant |counts| == Max(|was|, |theirs|)
        invariant forall b: nat :: At(counts, b) == At(was, b) + if b < i then At(theirs, b) else 0
      {
        counts := counts[i := counts[i] + theirs[i]];
      }
      if counts != [] {
        var last := |counts| - 1;
        assert counts[last] == At(was, last) + At(theirs, last);
      }
    }

    /** `merge_encoded`: the whole blob is validated before anything is added. */
    method MergeEncoded(bytes: seq<Byte>) returns (ok: bool)
      requires Valid()
      modifies this
      ensures MergesBytes(old(counts), bytes, counts, ok)
    {
      if bytes == [] || bytes[0] != ENCODING_V1 {
        return false;
      }
      var valid := Validate(bytes);
      if !valid {
        return false;
      }
      ghost var all := Parse(bytes).value;
      ghost var was := counts;
      ParsedInRange(bytes[1..], 0);
      var entries := new Entries(bytes);
      var item := entries.Next();
      ghost var left := all;
      while item.Some?
        invariant Valid() && fresh(entries)
        invariant item.None? ==> left == []
        invariant item.Some?
          ==> item.value.Some? && entries.Remaining().Some? && left == [item.value.value] + entries.Remaining().value
        invariant InRange(left)
        invariant forall b: nat :: At(counts, b) + Gain(left, b) == At(was, b) + Gain(all, b)
        decreases item.Some?, |entries.rest|
      {
        var (bucket, count) := item.value.value;
        assert (bucket, count) in left;
        GainCons((bucket, count), entries.Remaining().value);
        left := entries.Remaining().value;
        Add(bucket, count);
        item := entries.Next();
      }
      return true;
    }

    /** The first pass of `merge_encoded`. */
    static method Validate(bytes: seq<Byte>) returns (ok: bool)
      requires bytes != [] && bytes[0] == ENCODING_V1
      ensures ok == Parse(bytes).Some?
    {
      var entries := new Entries(bytes);
      var item := entries.Next();
      while item.Some?
        invariant fresh(entries)
        invariant item.None? ==> Parse(bytes).Some?
        invariant item == Some(None) ==> Parse(bytes).None?
        invariant item.Some? && item.value.Some? ==> entries.Remaining().Some? == Parse(bytes).Some?
        decreases item.Some?, |entries.rest|
      {
        if item.value.None? {
          return false;
        }
        item := entries.Next();
      }
      return true;
    }

    /** `encode`: the version byte, then the delta and the count of every non-empty bucket. */
    method Encode() returns (out: seq<Byte>)
      requires Valid()
      ensures out == Encoded(counts)
    {
      hide Varint;
      out := [ENCODING_V1];
      var previous := 0;
      for bucket := 0 to |counts|
        invariant previous <= bucket
        invariant out + EncodedFrom(counts, bucket, previous) == Encoded(counts)
      {
        if counts[bucket] > 0 {
          out := WriteVarint(out, bucket - previous);
          out := WriteVarint(out, counts[bucket]);
          previous := bucket;
        }
      }
    }

    /** `decode` */
    static method Decode(bytes: seq<Byte>) returns (hist: LatencyHistogram, ok: bool)
      ensures fresh(hist) && MergesBytes([], bytes, hist.counts, ok)
    {
      hist := new LatencyHistogram();
      ok := hist.MergeEncoded(bytes);
    }

    /** `len` */
    method Len() returns (n: nat)
      ensures n == Below(counts, |counts|)
    {
      n := 0;
      for i := 0 to |counts|
        invariant n == Below(counts, i)
      {
        n := n + counts[i];
      }
    }

    /** `is_empty` */
    predicate IsEmpty(): (empty: bool)
      requires Valid()
      reads this
      ensures empty <==> Below(counts, |counts|) == 0
    {
      EmptyIffNothingCounted(counts);
      counts == []
    }

    /** `percentile`: the midpoint of the bucket where the running count reaches the rank. */
    method Percentile(p: nat) returns (answer: Option<int>)
      ensures answer.None? <==> Below(counts, |counts|) == 0
      ensures answer.Some? ==> AnswersRank(counts, Tune.NearestRank(p, Below(counts, |counts|)), answer.value)
    {
      var n := Len();
      if n == 0 {
        return None;
      }
      var rank := Tune.NearestRank(p, n);
      var seen: nat := 0;
      for bucket := 0 to |counts|
        invariant seen == Below(counts, bucket) < rank
      {
        seen := seen + counts[bucket];
        if seen >= rank {
          assert Below(counts, bucket) < rank <= Below(counts, bucket + 1);
          return Some(Midpoint(bucket));
        }
      }
      assert false;
      return None;
    }
  }

  /** The bucket where the running count reaches the rank answers, with its midpoint. */
  ghost predicate AnswersRank(counts: seq<nat>, rank: nat, answer: int) {
    exists bucket: nat ::
      bucket < |counts| && Below(counts, bucket) < rank <= Below(counts, bucket + 1) && answer == Midpoint(bucket)
  }

  // ---------------------------------------------------------------- runs of operations

  /** The samples a bucket should hold after `ops`. */
  ghost function Net(ops: seq<Op>, bucket: nat): int {
    if ops == [] then 0
    else
      var last := ops[|ops| - 1];
      Net(ops[..|ops| - 1], bucket) +
      match last
      case Record(latency, count) => if bucket == BucketOf(latency) then count else 0
      case Unrecord(latency, count) => if bucket == BucketOf(latency) then 0 - count else 0
      case Merge(other) => At(other, bucket)
  }

  /** Only recorded samples are ever uncounted. */
  ghost predicate NeverOverdrawn(ops: seq<Op>) {
    forall i :: 0 <= i < |ops| && ops[i].Unrecord? ==> Net(ops[..i], BucketOf(ops[i].latency)) >= ops[i].count
  }

  /** The histograms an empty one goes through under `ops`. */
  ghost predicate Run(ops: seq<Op>, states: seq<seq<nat>>) {
    && |states| == |ops| + 1
    && states[0] == []
    && forall i :: 0 <= i < |ops| ==> OpStep(states[i], ops[i], states[i + 1])
  }

  /** Whatever the order of the operations, each bucket ends up with its net count. */
  lemma {:induction false} RunCounts(ops: seq<Op>, states: seq<seq<nat>>, bucket: nat)
    requires Run(ops, states) && NeverOverdrawn(ops)
    ensures At(states[|ops|], bucket) == Net(ops, bucket)
    ensures Canonical(states[|ops|])
  {
    if ops != [] {
      var n := |ops| - 1;
      var before := ops[..n];
      assert forall i :: 0 <= i <= n ==> before[..i] == ops[..i];
      RunCounts(before, states[..|ops|], bucket);
      assert OpStep(states[n], ops[n], states[n + 1]);
    }
  }

  /**
   * A histogram is a canonical image of its samples: any two histories of
   * recording, merging and uncounting with the same net counts end equal.
   */
  lemma OrderNeverMatters(ops: seq<Op>, states: seq<seq<nat>>, ops': seq<Op>, states': seq<seq<nat>>)
    requires Run(ops, states) && NeverOverdrawn(ops)
    requires Run(ops', states') && NeverOverdrawn(ops')
    requires forall bucket: nat :: Net(ops, bucket) == Net(ops', bucket)
    ensures states[|ops|] == states'[|ops'|]
  {
    forall bucket: nat ensures At(states[|ops|], bucket) == At(states'[|ops'|], bucket) {
      RunCounts(ops, states, bucket);
      RunCounts(ops', states', bucket);
    }
    RunCounts(ops, states, 0);
    RunCounts(ops', states', 0);
    CanonicalUnique(states[|ops|], states'[|ops'|]);
  }

  // ---------------------------------------------------------------- the percentile bound

  /** The samples that land in a bucket. */
  ghost function Tally(samples: seq<int>, bucket: nat): nat {
    if samples == [] then 0
    else Tally(samples[..|samples| - 1], bucket) + if BucketOf(samples[|samples| - 1]) == bucket then 1 else 0
  }

  /** The histogram counts exactly these samples. */
  ghost predicate Represents(counts: seq<nat>, samples: seq<int>) {
    Canonical(counts) && forall bucket: nat :: At(counts, bucket) == Tally(samples, bucket)
  }

  /** Recording one more sample represents one more sample, so a histogram of every multiset is reachable. */
  lemma RecordRepresents(counts: seq<nat>, samples: seq<int>, latency: int, counts': seq<nat>)
    requires Represents(counts, samples) && OpStep(counts, Op.Record(latency, 1), counts')
    ensures Represents(counts', samples + [latency])
  {
    assert (samples + [latency])[..|samples|] == samples;
    forall bucket: nat ensures At(counts', bucket) == Tally(samples + [latency], bucket) {
      assert At(counts', bucket) == Effect(Op.Record(latency, 1), bucket, At(counts, bucket));
    }
  }

  lemma {:induction false} TallyConcat(a: seq<int>, b: seq<int>, bucket: nat)
    ensures Tally(a + b, bucket) == Tally(a, bucket) + Tally(b, bucket)
  {
    if b == [] {
      assert a + b == a;
    } else {
      TallyConcat(a, b[..|b| - 1], bucket);
      assert (a + b)[..|a + b| - 1] == a + b[..|b| - 1];
    }
  }

  lemma TallyRemove(samples: seq<int>, i: nat, bucket: nat)
    requires i < |samples|
    ensures Tally(samples, bucket)
      == Tally(samples[..i] + samples[i + 1..], bucket) + if BucketOf(samples[i]) == bucket then 1 else 0
  {
    hide BucketOf;
    var front, x, back := samples[..i], [samples[i]], samples[i + 1..];
    assert samples == front + (x + back);
    TallyConcat(front, x + back, bucket);
    TallyConcat(x, back, bucket);
    TallyConcat(front, back, bucket);
    assert x[..0] == [];
  }

  lemma FindAndRemove(x: int, rest: seq<int>, b: seq<int>) returns (i: nat)
    requires multiset(rest + [x]) == multiset(b)
    ensures i < |b| && b[i] == x && multiset(b[..i] + b[i + 1..]) == multiset(rest)
  {
    assert x in multiset(b);
    i :| 0 <= i < |b| && b[i] == x;
    var front, back := b[..i], b[i + 1..];
    assert b == front + ([x] + back);
    assert multiset(rest + [x]) == multiset(rest) + multiset{x};
    assert multiset(b) == multiset(front) + (multiset{x} + multiset(back));
    SameRest(multiset(rest), multiset(front) + multiset(back), x);
    assert multiset(front + back) == multiset(front) + multiset(back);
  }

  lemma SameRest(a: multiset<int>, b: multiset<int>, x: int)
    requires a + multiset{x} == b + multiset{x}
    ensures a == b
  {
    assert a == (a + multiset{x}) - multiset{x};
    assert b == (b + multiset{x}) - multiset{x};
  }

  /** Counting does not see the order of the samples. */
  lemma {:induction false} TallyPermuted(a: seq<int>, b: seq<int>, bucket: nat)
    requires multiset(a) == multiset(b)
    ensures Tally(a, bucket) == Tally(b, bucket)
    decreases |a|
  {
    hide BucketOf;
    if a == [] {
      assert |multiset(b)| == 0;
    } else {
      var n := |a| - 1;
      assert a == a[..n] + [a[n]];
      var i := FindAndRemove(a[n], a[..n], b);
      TallyPermuted(a[..n], b[..i] + b[i + 1..], bucket);
      TallyRemove(b, i, bucket);
    }
  }

  lemma RepresentsPermuted(counts: seq<nat>, samples: seq<int>, sorted: seq<int>)
    requires Represents(counts, samples) && multiset(sorted) == multiset(samples)
    ensures Represents(counts, sorted) && |sorted| == |samples|
  {
    assert |sorted| == |multiset(sorted)| == |samples|;
    forall bucket: nat ensures Tally(sorted, bucket) == Tally(samples, bucket) {
      TallyPermuted(sorted, samples, bucket);
    }
  }

  /** How many samples of an ascending slice land below bucket `k`: a prefix of them. */
  ghost function TallyBelow(samples: seq<int>, k: nat): nat {
    if k == 0 then 0 else TallyBelow(samples, k - 1) + Tally(samples, k - 1)
  }

  lemma {:induction false} BelowIsTally(counts: seq<nat>, samples: seq<int>, k: nat)
    requires Represents(counts, samples)
    ensures Below(counts, k) == TallyBelow(samples, k)
  {
    if k > 0 {
      BelowIsTally(counts, samples, k - 1);
      assert At(counts, k - 1) == Tally(samples, k - 1);
    }
  }

  lemma {:induction false} TallyBelowLast(samples: seq<int>, k: nat)
    requires samples != []
    ensures var last := |samples| - 1;
      TallyBelow(samples, k) == TallyBelow(samples[..last], k) + if BucketOf(samples[last]) < k then 1 else 0
  {
    if k > 0 {
      TallyBelowLast(samples, k - 1);
    }
  }

  lemma {:induction false} NoneBelow(k: nat)
    ensures TallyBelow([], k) == 0
  {
    if k > 0 {
      NoneBelow(k - 1);
    }
  }

  /** In an ascending slice, the sample of rank `r` lands below bucket `k` exactly when `r` samples do. */
  lemma {:induction false} RankIsPosition(sorted: seq<int>, k: nat, r: nat)
    requires Tune.Sorted(sorted) && 1 <= r <= |sorted|
    ensures TallyBelow(sorted, k) <= |sorted|
    ensures BucketOf(sorted[r - 1]) < k <==> r <= TallyBelow(sorted, k)
    decreases |sorted|
  {
    hide BucketOf, TallyBelow;
    var n := |sorted| - 1;
    TallyBelowLast(sorted, k);
    BucketMonotone(sorted[r - 1], sorted[n]);
    if n == 0 {
      NoneBelow(k);
      assert sorted[..n] == [];
    } else {
      RankIsPosition(sorted[..n], k, if r <= n then r else n);
      BucketMonotone(sorted[n - 1], sorted[n]);
    }
  }

  /** As many samples as the histogram counts. */
  lemma CountedAll(counts: seq<nat>, sorted: seq<int>)
    requires Represents(counts, sorted) && Tune.Sorted(sorted)
    ensures Below(counts, |counts|) == |sorted|
  {
    BelowIsTally(counts, sorted, |counts|);
    NoneBelow(|counts|);
    if sorted != [] {
      var n := |sorted|;
      RankIsPosition(sorted, |counts|, n);
      SampleInRange(counts, sorted, n - 1);
    }
  }

  lemma SampleInRange(counts: seq<nat>, samples: seq<int>, i: nat)
    requires Represents(counts, samples) && i < |samples|
    ensures BucketOf(samples[i]) < |counts|
  {
    var bucket := BucketOf(samples[i]);
    assert samples == samples[..i] + ([samples[i]] + samples[i + 1..]);
    TallyConcat(samples[..i], [samples[i]] + samples[i + 1..], bucket);
    TallyConcat([samples[i]], samples[i + 1..], bucket);
    assert Tally([samples[i]], bucket) == 1;
    assert At(counts, bucket) > 0;
  }

  /**
   * The error bound: for any samples in `0..=u32::MAX`, in any order, the
   * histogram's percentile is within 1/64 of the exact nearest-rank one, and
   * is that very one below 64 ms.
   */
  lemma PercentileWithinBound(counts: seq<nat>, samples: seq<int>, sorted: seq<int>, p: nat, answer: int)
    requires samples != [] && forall v :: v in samples ==> 0 <= v <= U32_MAX
    requires Represents(counts, samples)
    requires Tune.Sorted(sorted) && multiset(sorted) == multiset(samples)
    requires AnswersRank(counts, Tune.NearestRank(p, |samples|), answer)
    ensures WithinOneSixtyFourth(answer, Tune.Percentile(sorted, p))
    ensures Tune.Percentile(sorted, p) < LINEAR_BELOW ==> answer == Tune.Percentile(sorted, p)
  {
    hide BucketOf, Midpoint, Below, TallyBelow, Tally, Tune.NearestRank;
    RepresentsPermuted(counts, samples, sorted);
    var rank := Tune.NearestRank(p, |sorted|);
    var bucket: nat :|
      bucket < |counts| && Below(counts, bucket) < rank <= Below(counts, bucket + 1) && answer == Midpoint(bucket);
    BelowIsTally(counts, sorted, bucket);
    BelowIsTally(counts, sorted, bucket + 1);
    RankIsPosition(sorted, bucket, rank);
    RankIsPosition(sorted, bucket + 1, rank);
    var exact := sorted[rank - 1];
    assert exact in multiset(sorted) && exact in multiset(samples);
    assert exact in samples;
    MidpointWithinBound(exact);
  }

  /** The rank the histogram uses is the rank of as many samples as it represents. */
  lemma RankedOverAll(counts: seq<nat>, samples: seq<int>, sorted: seq<int>)
    requires Represents(counts, samples) && Tune.Sorted(sorted) && multiset(sorted) == multiset(samples)
    ensures Below(counts, |counts|) == |samples|
  {
    RepresentsPermuted(counts, samples, sorted);
    CountedAll(counts, sorted);
  }

  // ---------------------------------------------------------------- the stored form

  /** The pairs `encode` writes for the buckets from `i` on. */
  function EncodedFrom(counts: seq<nat>, i: nat, previous: nat): seq<Byte>
    requires previous <= i <= |counts|
    decreases |counts| - i
  {
    if i == |counts| then []
    else if counts[i] > 0 then Varint(i - previous) + Varint(counts[i]) + EncodedFrom(counts, i + 1, i)
    else EncodedFrom(counts, i + 1, previous)
  }

  function Encoded(counts: seq<nat>): seq<Byte> {
    [ENCODING_V1] + EncodedFrom(counts, 0, 0)
  }

  type Entry = (nat, nat)

  /** The next `(bucket, count)` pair after `bucket`, and what follows it. */
  function NextEntry(rest: seq<Byte>, bucket: nat): (r: Option<(Entry, seq<Byte>)>)
    ensures r.Some? ==> |r.value.1| < |rest|
  {
    match ReadVarint(rest)
    case None => None
    case Some((delta, afterDelta)) =>
      match ReadVarint(afterDelta)
      case None => None
      case Some((count, afterCount)) =>
        if bucket + delta <= MAX_BUCKET then Some(((bucket + delta, count), afterCount)) else None
  }

  /** All the pairs, or nothing if any of them makes no sense. */
  function ParseEntries(rest: seq<Byte>, bucket: nat): Option<seq<Entry>>
    decreases |rest|
  {
    if rest == [] then Some([])
    else
      match NextEntry(rest, bucket)
      case None => None
      case Some((entry, after)) =>
        match ParseEntries(after, entry.0)
        case None => None
        case Some(entries) => Some([entry] + entries)
  }

  function Parse(bytes: seq<Byte>): Option<seq<Entry>> {
    if bytes == [] || bytes[0] != ENCODING_V1 then None else ParseEntries(bytes[1..], 0)
  }

  /** The samples a list of entries adds to a bucket. */
  function Gain(entries: seq<Entry>, bucket: nat): nat {
    if entries == [] then 0
    else (if entries[0].0 == bucket then entries[0].1 else 0) + Gain(entries[1..], bucket)
  }

  ghost predicate InRange(entries: seq<Entry>) {
    forall e :: e in entries ==> e.0 <= MAX_BUCKET
  }

  lemma {:induction false} ParsedInRange(rest: seq<Byte>, bucket: nat)
    ensures ParseEntries(rest, bucket).Some? ==> InRange(ParseEntries(rest, bucket).value)
    decreases |rest|
  {
    if rest != [] {
      match NextEntry(rest, bucket) {
        case None =>
        case Some((entry, after)) => ParsedInRange(after, entry.0);
      }
    }
  }

  /** The counts fit the 64 bits the program keeps them in. */
  ghost predicate Fits(counts: seq<nat>) {
    forall i :: 0 <= i < |counts| ==> counts[i] < TWO_64
  }

  lemma {:induction false} ParseEncodedFrom(counts: seq<nat>, i: nat, previous: nat)
    requires previous <= i <= |counts| <= MAX_BUCKET + 1 && Fits(counts)
    ensures var entries := ParseEntries(EncodedFrom(counts, i, previous), previous);
            && entries.Some?
            && forall bucket: nat :: Gain(entries.value, bucket) == if bucket < i then 0 else At(counts, bucket)
    decreases |counts| - i
  {
    hide Varint, ReadVarint;
    if i < |counts| {
      if counts[i] == 0 {
        ParseEncodedFrom(counts, i + 1, previous);
      } else {
        var tail := EncodedFrom(counts, i + 1, i);
        ParseEncodedFrom(counts, i + 1, i);
        ReadVarintInverse(i - previous, Varint(counts[i]) + tail);
        ReadVarintInverse(counts[i], tail);
        assert EncodedFrom(counts, i, previous) == Varint(i - previous) + (Varint(counts[i]) + tail);
        assert NextEntry(EncodedFrom(counts, i, previous), previous) == Some(((i, counts[i]), tail));
        GainCons((i, counts[i]), ParseEntries(tail, i).value);
      }
    }
  }

  lemma GainCons(entry: Entry, entries: seq<Entry>)
    ensures forall bucket: nat ::
      Gain([entry] + entries, bucket) == (if entry.0 == bucket then entry.1 else 0) + Gain(entries, bucket)
  {
    assert ([entry] + entries)[1..] == entries;
  }

  /** Merging encoded bytes either adds exactly the entries they spell or changes nothing. */
  ghost predicate MergesBytes(counts: seq<nat>, bytes: seq<Byte>, counts': seq<nat>, ok: bool) {
    && ok == Parse(bytes).Some?
    && (!ok ==> counts' == counts)
    && (ok ==> Canonical(counts') && forall bucket: nat ::
      At(counts', bucket) == At(counts, bucket) + Gain(Parse(bytes).value, bucket))
  }

  /** Decoding what was encoded gives the histogram back: `decode(encode(h)) == h`. */
  lemma DecodeInvertsEncode(counts: seq<nat>, decoded: seq<nat>, ok: bool)
    requires Canonical(counts) && Fits(counts)
    requires MergesBytes([], Encoded(counts), decoded, ok)
    ensures ok && decoded == counts
  {
    ParseEncodedFrom(counts, 0, 0);
    assert Encoded(counts)[1..] == EncodedFrom(counts, 0, 0);
    CanonicalUnique(counts, decoded);
  }

  /** Merging an encoded histogram is merging the histogram. */
  lemma MergeEncodedIsMerge(counts: seq<nat>, other: seq<nat>, viaBytes: seq<nat>, direct: seq<nat>, ok: bool)
    requires Canonical(other) && Fits(other)
    requires MergesBytes(counts, Encoded(other), viaBytes, ok) && OpStep(counts, Op.Merge(other), direct)
    ensures ok && viaBytes == direct
  {
    ParseEncodedFrom(other, 0, 0);
    assert Encoded(other)[1..] == EncodedFrom(other, 0, 0);
    forall bucket: nat ensures At(viaBytes, bucket) == At(direct, bucket) {
      assert At(direct, bucket) == Effect(Op.Merge(other), bucket, At(counts, bucket));
    }
    CanonicalUnique(viaBytes, direct);
  }

  /** Any bytes at all merge as their decoded form does, or fail wherever decoding fails. */
  lemma MergeBytesIsMergeDecoded(counts: seq<nat>, bytes: seq<Byte>, decoded: seq<nat>, decodes: bool,
                                 viaBytes: seq<nat>, ok: bool, direct: seq<nat>)
    requires MergesBytes([], bytes, decoded, decodes)
    requires MergesBytes(counts, bytes, viaBytes, ok)
    requires OpStep(counts, Op.Merge(decoded), direct)
    ensures ok == decodes
    ensures ok ==> viaBytes == direct
    ensures !ok ==> viaBytes == counts
  {
    if ok {
      forall bucket: nat ensures At(viaBytes, bucket) == At(direct, bucket) {
        assert At(direct, bucket) == Effect(Op.Merge(decoded), bucket, At(counts, bucket));
      }
      CanonicalUnique(viaBytes, direct);
    }
  }

  /** `Entries`: a cursor over encoded pairs. */
  class Entries {
    var rest: seq<Byte>
    var bucket: nat

    ghost function Remaining(): Option<seq<Entry>>
      reads this
    {
      ParseEntries(rest, bucket)
    }

    constructor (bytes: seq<Byte>)
      requires bytes != [] && bytes[0] == ENCODING_V1
      ensures Remaining() == Parse(bytes)
    {
      rest := bytes[1..];
      bucket := 0;
    }

    /** `next`: nothing at the end; an error item where the bytes stop making sense, and then the end. */
    method Next() returns (item: Option<Option<Entry>>)
      modifies this
      ensures item.None? <==> old(rest) == []
      ensures item.None? ==> old(Remaining()) == Some([])
      ensures item.Some? ==> |rest| < |old(rest)|
      ensures item == Some(None) ==> old(Remaining()).None? && rest == []
      ensures item.Some? && item.value.Some? ==>
        && old(Remaining()).Some? == Remaining().Some?
        && (Remaining().Some? ==> old(Remaining()) == Some([item.value.value] + Remaining().value))
    {
      if rest == [] {
        return None;
      }
      var delta := Leb128.Read(rest);
      if delta.Some? {
        var count := Leb128.Read(delta.value.1);
        if count.Some? && bucket + delta.value.0 <= MAX_BUCKET {
          rest, bucket := count.value.1, bucket + delta.value.0;
          return Some(Some((bucket, count.value.0)));
        }
      }
      rest := [];
      return Some(None);
    }
  }
}
