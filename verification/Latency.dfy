/** The latency histograms of lib/latency.cc: the sum of two of them is the histogram of all
    samples. */
module Latency {
  import Counting

  /** Distributions per histogram, and buckets per distribution. */
  const POOL_SIZE: nat := 5
  const NUM_BUCKETS: nat := 65

  const WORD32: nat := 0x1_0000_0000
  const WORD64: nat := 0x1_0000_0000_0000_0000

  function Wrap32(n: nat): (r: nat)
    ensures r < WORD32 && (n < WORD32 ==> r == n)
  {
    n % WORD32
  }

  function Wrap64(n: nat): (r: nat)
    ensures r < WORD64 && (n < WORD64 ==> r == n)
  {
    n % WORD64
  }

  /** Latency_Dist_t: 64-bit figures, and 32-bit counts by the magnitude of the samples. */
  datatype Dist = Dist(min: nat, max: nat, total: nat, count: nat, buckets: seq<nat>)

  /** No sample has more than 64 bits, so the last bucket stays empty. */
  ghost predicate Valid(d: Dist) {
    && |d.buckets| == NUM_BUCKETS && d.buckets[64] == 0
    && forall i :: 0 <= i < NUM_BUCKETS ==> d.buckets[i] < WORD32
  }

  function NewDist(): Dist {
    Dist(WORD64 - 1, 0, 0, 0, seq(NUM_BUCKETS, _ => 0))
  }

  // ----- Buckets -----

  function Bucket(val: nat): nat {
    if val < 2 then 0 else 1 + Bucket(val / 2)
  }

  function Power(k: nat): (p: nat)
    ensures p > 0
  {
    if k == 0 then 1 else 2 * Power(k - 1)
  }

  /** The bucket is the logarithm, rounded down. */
  lemma {:induction false} BucketIsLog(val: nat)
    requires val > 0
    ensures Power(Bucket(val)) <= val < Power(Bucket(val) + 1)
  {
    if val >= 2 {
      BucketIsLog(val / 2);
      assert Power(Bucket(val)) == 2 * Power(Bucket(val / 2));
      assert Power(Bucket(val) + 1) == 2 * Power(Bucket(val / 2) + 1);
    } else {
      assert Power(1) == 2 * Power(0);
    }
  }

  lemma {:induction false} BucketOfPower(k: nat)
    ensures Bucket(Power(k)) == k
  {
    if k > 0 {
      BucketOfPower(k - 1);
      assert Power(k) / 2 == Power(k - 1);
    }
  }

  lemma {:induction false} PowersGrow(j: nat, k: nat)
    requires j <= k
    ensures Power(j) <= Power(k)
    decreases k - j
  {
    if j < k {
      PowersGrow(j, k - 1);
    }
  }

  lemma Power64()
    ensures Power(64) == WORD64
  {
    assert Power(8) == 0x100 by {
      assert Power(1) == 2 && Power(2) == 4 && Power(3) == 8 && Power(4) == 16;
      assert Power(5) == 32 && Power(6) == 64 && Power(7) == 128;
    }
    PowerAdds(8, 8);
    PowerAdds(16, 16);
    PowerAdds(32, 32);
  }

  lemma {:induction false} PowerAdds(j: nat, k: nat)
    ensures Power(j + k) == Power(j) * Power(k)
    decreases k
  {
    if k > 0 {
      PowerAdds(j, k - 1);
      calc {
        Power(j + k);
        2 * (Power(j) * Power(k - 1));
        Power(j) * (2 * Power(k - 1));
      }
    }
  }

  lemma BucketInRange(val: nat)
    requires val < WORD64
    ensures Bucket(val) < 64
  {
    if val > 0 && Bucket(val) >= 64 {
      BucketIsLog(val);
      Power64();
      PowersGrow(64, Bucket(val));
    }
  }

  /** The shifting loop of LatencyAddHist. */
  method FindBucket(val: nat) returns (bucket: nat)
    ensures bucket == Bucket(val)
    ensures val > 0 ==> Power(bucket) <= val < Power(bucket + 1)
  {
    bucket := 0;
    var v: nat := val / 2;
    while v > 0
      invariant Bucket(val) == bucket + if v == 0 then 0 else 1 + Bucket(v)
      decreases v
    {
      v := v / 2;
      bucket := bucket + 1;
    }
    if val > 0 {
      BucketIsLog(val);
    }
  }

  // ----- One distribution -----

  function Counted(d: Dist, bucket: nat, count: nat): Dist
    requires bucket < |d.buckets|
  {
    d.(buckets := d.buckets[bucket := Wrap32(d.buckets[bucket] + count)])
  }

  function Measured(d: Dist, min: nat, max: nat, total: nat, count: nat): Dist {
    d.(min := if min < d.min then min else d.min, max := if max > d.max then max else d.max,
       total := Wrap64(d.total + total), count := Wrap64(d.count + count))
  }

  ghost predicate Samples(vals: seq<nat>) {
    forall i :: 0 <= i < |vals| ==> vals[i] < WORD64
  }

  /** The distribution of a sequence of samples, one after another. */
  ghost function DistOf(vals: seq<nat>): (d: Dist)
    requires Samples(vals)
    ensures Valid(d)
  {
    if vals == [] then NewDist()
    else
      var d, val := DistOf(vals[..|vals| - 1]), vals[|vals| - 1];
      BucketInRange(val);
      Measured(Counted(d, Bucket(val), 1), val, val, val, 1)
  }

  ghost function InBucket(vals: seq<nat>, b: nat): nat {
    if vals == [] then 0
    else InBucket(vals[..|vals| - 1], b) + if Bucket(vals[|vals| - 1]) == b then 1 else 0
  }

  ghost function Total(vals: seq<nat>): nat {
    if vals == [] then 0 else Total(vals[..|vals| - 1]) + vals[|vals| - 1]
  }

  lemma AddThenWrap32(a: nat, b: nat)
    ensures Wrap32(Wrap32(a) + b) == Wrap32(a + b)
  {
  }

  lemma AddThenWrap64(a: nat, b: nat)
    ensures Wrap64(Wrap64(a) + b) == Wrap64(a + b)
  {
  }

  ghost predicate BucketsSay(buckets: seq<nat>, vals: seq<nat>) {
    |buckets| == NUM_BUCKETS && forall b :: 0 <= b < NUM_BUCKETS ==> buckets[b] == Wrap32(InBucket(vals, b))
  }

  ghost predicate ExtremesSay(min: nat, max: nat, vals: seq<nat>) {
    && (forall i :: 0 <= i < |vals| ==> min <= vals[i] <= max)
    && (vals != [] ==> min in vals && max in vals)
  }

  lemma OneMoreInBucket(buckets: seq<nat>, vals: seq<nat>, val: nat)
    requires BucketsSay(buckets, vals) && Bucket(val) < NUM_BUCKETS
    ensures BucketsSay(buckets[Bucket(val) := Wrap32(buckets[Bucket(val)] + 1)], vals + [val])
  {
    var more := vals + [val];
    assert more[..|more| - 1] == vals;
    hide Wrap32, Bucket;
    forall b | 0 <= b < NUM_BUCKETS
      ensures buckets[Bucket(val) := Wrap32(buckets[Bucket(val)] + 1)][b] == Wrap32(InBucket(more, b))
    {
      AddThenWrap32(InBucket(vals, b), 1);
    }
  }

  lemma OneMoreExtreme(d: Dist, vals: seq<nat>, val: nat)
    requires ExtremesSay(d.min, d.max, vals) && val < WORD64
    requires vals == [] ==> d.min == WORD64 - 1 && d.max == 0
    ensures ExtremesSay(if val < d.min then val else d.min, if val > d.max then val else d.max, vals + [val])
  {
    assert (vals + [val])[|vals|] == val;
  }

  /** What a distribution says of its samples: their number, sum and extremes, and how many there
      are of each magnitude, the figures modulo their width. */
  lemma DistSays(vals: seq<nat>)
    requires Samples(vals)
    ensures
      var d := DistOf(vals);
      && d.count == |vals| % WORD64 && d.total == Total(vals) % WORD64
      && |d.buckets| == NUM_BUCKETS
      && (forall b :: 0 <= b < NUM_BUCKETS ==> d.buckets[b] == InBucket(vals, b) % WORD32)
      && (forall i :: 0 <= i < |vals| ==> d.min <= vals[i] <= d.max)
      && (vals != [] ==> d.min in vals && d.max in vals)
  {
    hide DistOf;
    assert |DistOf(vals).buckets| == NUM_BUCKETS by { Sized(vals); }
    assert Says(DistOf(vals), vals) by { Tells(vals); }
  }

  lemma Sized(vals: seq<nat>)
    requires Samples(vals)
    ensures |DistOf(vals).buckets| == NUM_BUCKETS
  {
  }

  lemma {:induction false} Tells(vals: seq<nat>)
    requires Samples(vals)
    ensures Says(DistOf(vals), vals)
    decreases |vals|
  {
    hide Says, DistOf;
    if vals == [] {
      NothingSays(vals);
    } else {
      var init, val := vals[..|vals| - 1], vals[|vals| - 1];
      Tells(init);
      assert vals == init + [val];
      OneMoreSays(init, val);
    }
  }

  lemma NothingSays(vals: seq<nat>)
    requires vals == []
    ensures Says(DistOf(vals), vals)
  {
  }

  ghost predicate Says(d: Dist, vals: seq<nat>) {
    && d.count == Wrap64(|vals|) && d.total == Wrap64(Total(vals))
    && BucketsSay(d.buckets, vals) && ExtremesSay(d.min, d.max, vals)
  }

  lemma MeasuredSays(d: Dist, vals: seq<nat>, val: nat)
    requires Says(d, vals) && Bucket(val) < NUM_BUCKETS == |d.buckets| && val < WORD64
    requires vals == [] ==> d.min == WORD64 - 1 && d.max == 0
    ensures Says(Measured(Counted(d, Bucket(val), 1), val, val, val, 1), vals + [val])
  {
    hide Wrap32, Wrap64, Bucket, BucketsSay, ExtremesSay;
    assert (vals + [val])[..|vals|] == vals;
    assert Total(vals + [val]) == Total(vals) + val;
    hide Total;
    AddThenWrap64(|vals|, 1);
    AddThenWrap64(Total(vals), val);
    OneMoreInBucket(d.buckets, vals, val);
    OneMoreExtreme(d, vals, val);
  }

  lemma OneMoreSays(vals: seq<nat>, val: nat)
    requires Samples(vals) && val < WORD64 && Samples(vals + [val]) && Says(DistOf(vals), vals)
    ensures Says(DistOf(vals + [val]), vals + [val])
  {
    hide Says, Bucket;
    var d := DistOf(vals);
    assert vals == [] ==> d.min == WORD64 - 1 && d.max == 0;
    assert |d.buckets| == NUM_BUCKETS;
    BucketInRange(val);
    DistOfOneMore(vals, val);
    hide DistOf, Measured, Counted;
    MeasuredSays(d, vals, val);
  }

  lemma DistOfOneMore(vals: seq<nat>, val: nat)
    requires Samples(vals) && val < WORD64 && Samples(vals + [val]) && Bucket(val) < NUM_BUCKETS
    ensures DistOf(vals + [val]) == Measured(Counted(DistOf(vals), Bucket(val), 1), val, val, val, 1)
  {
    hide Wrap32, Wrap64, Bucket;
    assert (vals + [val])[..|vals + [val]| - 1] == vals;
  }

  // ----- The sum -----

  ghost predicate FiguresSum(a: Dist, b: Dist, r: Dist) {
    && r.min == (if b.min < a.min then b.min else a.min) && r.max == (if b.max > a.max then b.max else a.max)
    && r.total == Wrap64(a.total + b.total) && r.count == Wrap64(a.count + b.count)
  }

  ghost predicate BucketsSum(a: seq<nat>, b: seq<nat>, r: seq<nat>) {
    |a| == |b| == |r| == NUM_BUCKETS && forall i :: 0 <= i < NUM_BUCKETS ==> r[i] == Wrap32(a[i] + b[i])
  }

  /** The sum of two distributions, figure by figure. */
  ghost predicate IsSum(a: Dist, b: Dist, r: Dist) {
    FiguresSum(a, b, r) && BucketsSum(a.buckets, b.buckets, r.buckets)
  }

  lemma FiguresOfOne(a: Dist, b: Dist, r: Dist, val: nat)
    requires FiguresSum(a, b, r)
    ensures FiguresSum(a, Measured(b, val, val, val, 1), Measured(r, val, val, val, 1))
  {
    hide Wrap64;
    AddThenWrap64(a.total + b.total, val);
    AddThenWrap64(b.total + val, a.total);
    AddThenWrap64(a.count + b.count, 1);
    AddThenWrap64(b.count + 1, a.count);
  }

  lemma BucketsOfOne(a: seq<nat>, b: seq<nat>, r: seq<nat>, k: nat)
    requires BucketsSum(a, b, r) && k < NUM_BUCKETS
    ensures BucketsSum(a, b[k := Wrap32(b[k] + 1)], r[k := Wrap32(r[k] + 1)])
  {
    hide Wrap32;
    AddThenWrap32(a[k] + b[k], 1);
    AddThenWrap32(b[k] + 1, a[k]);
  }

  lemma IsSumOfOne(a: Dist, b: Dist, r: Dist, val: nat)
    requires IsSum(a, b, r) && Bucket(val) < NUM_BUCKETS
    ensures
      IsSum(a, Measured(Counted(b, Bucket(val), 1), val, val, val, 1),
            Measured(Counted(r, Bucket(val), 1), val, val, val, 1))
  {
    hide Wrap32, Wrap64, Bucket;
    var b1, r1 := Counted(b, Bucket(val), 1), Counted(r, Bucket(val), 1);
    FiguresOfOne(a, b1, r1, val);
    BucketsOfOne(a.buckets, b.buckets, r.buckets, Bucket(val));
  }

  /** The homomorphism: the distribution of two sequences of samples is the sum of theirs. */
  lemma {:induction false} SumIsConcat(a: seq<nat>, b: seq<nat>)
    requires Samples(a) && Samples(b)
    ensures Samples(a + b) && IsSum(DistOf(a), DistOf(b), DistOf(a + b))
    decreases |b|
  {
    hide IsSum, DistOf, Bucket, Measured, Counted;
    if b == [] {
      assert a + b == a;
      SumWithNothing(a, b);
    } else {
      var init, val := b[..|b| - 1], b[|b| - 1];
      SumIsConcat(a, init);
      BucketInRange(val);
      assert b == init + [val] && a + b == (a + init) + [val];
      DistOfOneMore(init, val);
      DistOfOneMore(a + init, val);
      IsSumOfOne(DistOf(a), DistOf(init), DistOf(a + init), val);
    }
  }

  lemma SumWithNothing(a: seq<nat>, b: seq<nat>)
    requires Samples(a) && b == []
    ensures IsSum(DistOf(a), DistOf(b), DistOf(a))
  {
    assert DistOf(b) == NewDist();
    FiguresInRange(a);
    var d := DistOf(a);
    assert Valid(d);
    hide DistOf;
    assert FiguresSum(d, NewDist(), d);
    assert BucketsSum(d.buckets, NewDist().buckets, d.buckets);
  }

  lemma {:induction false} FiguresInRange(a: seq<nat>)
    requires Samples(a)
    ensures DistOf(a).min <= WORD64 - 1 && DistOf(a).total < WORD64 && DistOf(a).count < WORD64
  {
    hide Wrap32, Wrap64, Bucket;
    if a != [] {
      FiguresInRange(a[..|a| - 1]);
    }
  }

  lemma IsSumIsOne(a: Dist, b: Dist, r: Dist, q: Dist)
    requires IsSum(a, b, r) && IsSum(a, b, q)
    ensures r == q
  {
    hide Wrap32, Wrap64;
    assert r.buckets == q.buckets;
  }

  // ----- Histograms -----

  /** By type of sample. */
  type Histogram = map<nat, Dist>

  ghost function ValuesOf(samples: seq<(nat, nat)>, kind: nat): seq<nat> {
    if samples == [] then []
    else
      var last := samples[|samples| - 1];
      ValuesOf(samples[..|samples| - 1], kind) + if last.0 == kind then [last.1] else []
  }

  ghost function Kinds(samples: seq<(nat, nat)>): set<nat> {
    set s | s in samples :: s.0
  }

  ghost predicate AllSamples(samples: seq<(nat, nat)>) {
    forall i :: 0 <= i < |samples| ==> samples[i].1 < WORD64
  }

  lemma {:induction false} ValuesAreSamples(samples: seq<(nat, nat)>, kind: nat)
    requires AllSamples(samples)
    ensures Samples(ValuesOf(samples, kind))
    decreases |samples|
  {
    if samples != [] {
      ValuesAreSamples(samples[..|samples| - 1], kind);
    }
  }

  /** The histogram of a sequence of samples. */
  ghost predicate IsHistogram(h: Histogram, samples: seq<(nat, nat)>)
    requires AllSamples(samples)
  {
    && h.Keys == Kinds(samples)
    && forall kind :: kind in h ==>
         (ValuesAreSamples(samples, kind); h[kind] == DistOf(ValuesOf(samples, kind)))
  }

  lemma {:induction false} ValuesConcat(a: seq<(nat, nat)>, b: seq<(nat, nat)>, kind: nat)
    ensures ValuesOf(a + b, kind) == ValuesOf(a, kind) + ValuesOf(b, kind)
    decreases |b|
  {
    if b == [] {
      assert a + b == a;
    } else {
      assert (a + b)[..|a + b| - 1] == a + b[..|b| - 1];
      ValuesConcat(a, b[..|b| - 1], kind);
    }
  }

  lemma {:induction false} NoValues(samples: seq<(nat, nat)>, kind: nat)
    requires kind !in Kinds(samples)
    ensures ValuesOf(samples, kind) == []
    decreases |samples|
  {
    if samples != [] {
      var init, last := samples[..|samples| - 1], samples[|samples| - 1];
      assert last in samples;
      assert forall s :: s in init ==> s in samples;
      NoValues(init, kind);
    }
  }

  ghost function DistIn(h: Histogram, kind: nat): Dist {
    if kind in h then h[kind] else NewDist()
  }

  /** The sum of two histograms, type by type. */
  ghost predicate IsSumOf(a: Histogram, b: Histogram, r: Histogram) {
    && r.Keys == a.Keys + b.Keys
    && (forall kind :: kind in b ==> IsSum(DistIn(a, kind), b[kind], r[kind]))
    && (forall kind :: kind in a && kind !in b ==> r[kind] == a[kind])
  }

  lemma HistogramDist(h: Histogram, samples: seq<(nat, nat)>, kind: nat)
    requires AllSamples(samples) && IsHistogram(h, samples)
    ensures Samples(ValuesOf(samples, kind)) && DistIn(h, kind) == DistOf(ValuesOf(samples, kind))
  {
    ValuesAreSamples(samples, kind);
    if kind !in h {
      NoValues(samples, kind);
    }
  }

  /** The sum of the histograms of two sequences of samples is the histogram of them all. */
  lemma SumOfHistograms(a: Histogram, b: Histogram, r: Histogram, x: seq<(nat, nat)>, y: seq<(nat, nat)>)
    requires AllSamples(x) && AllSamples(y) && IsHistogram(a, x) && IsHistogram(b, y) && IsSumOf(a, b, r)
    ensures AllSamples(x + y) && IsHistogram(r, x + y)
  {
    assert Kinds(x + y) == Kinds(x) + Kinds(y) by {
      assert forall s :: s in x + y <==> s in x || s in y;
    }
    forall kind | kind in r
      ensures Samples(ValuesOf(x + y, kind)) && r[kind] == DistOf(ValuesOf(x + y, kind))
    {
      SumOfDists(a, b, r, x, y, kind);
    }
  }

  lemma SumOfDists(a: Histogram, b: Histogram, r: Histogram, x: seq<(nat, nat)>, y: seq<(nat, nat)>, kind: nat)
    requires AllSamples(x) && AllSamples(y) && IsHistogram(a, x) && IsHistogram(b, y) && IsSumOf(a, b, r)
    requires kind in r
    ensures Samples(ValuesOf(x + y, kind)) && r[kind] == DistOf(ValuesOf(x + y, kind))
  {
    var p, q := ValuesOf(x, kind), ValuesOf(y, kind);
    ValuesConcat(x, y, kind);
    HistogramDist(a, x, kind);
    HistogramDist(b, y, kind);
    hide IsHistogram, ValuesOf, DistOf, IsSum;
    SumIsConcat(p, q);
    if kind in b {
      IsSumIsOne(DistOf(p), DistOf(q), DistOf(p + q), r[kind]);
    } else {
      NothingAdded(b, y, kind);
      assert p + q == p;
    }
  }

  lemma NothingAdded(b: Histogram, y: seq<(nat, nat)>, kind: nat)
    requires AllSamples(y) && IsHistogram(b, y) && kind !in b
    ensures ValuesOf(y, kind) == []
  {
    NoValues(y, kind);
  }

  // ----- In place -----

  ghost predicate AllValid(h: Histogram) {
    forall kind :: kind in h ==> Valid(h[kind])
  }

  /** Some bucket of the distribution is not empty. */
  ghost predicate Used(d: Dist) {
    exists b :: 0 <= b < |d.buckets| && d.buckets[b] != 0
  }

  /** The first `n` buckets of `e` added to those of `d`. */
  ghost function AddBuckets(d: Dist, e: Dist, n: nat): (r: Dist)
    requires Valid(d) && Valid(e) && n <= NUM_BUCKETS
    ensures Valid(r) && r == d.(buckets := r.buckets)
    ensures forall i :: 0 <= i < NUM_BUCKETS ==>
              r.buckets[i] == if i < n then Wrap32(d.buckets[i] + e.buckets[i]) else d.buckets[i]
  {
    if n == 0 then d else Counted(AddBuckets(d, e, n - 1), n - 1, e.buckets[n - 1])
  }

  /** Latency_t.  A call answers false where the source panics or follows a null pointer. */
  class Recorder {
    var dists: Histogram

    constructor ()
      ensures dists == map[]
    {
      dists := map[];
    }

    /** LatencyAddHist: a new distribution is taken from the pool, if there is one left. */
    method AddHist(kind: nat, val: nat, count: nat) returns (ok: bool)
      requires val < WORD64 && AllValid(dists)
      modifies this
      ensures ok <==> kind in old(dists) || |old(dists)| < POOL_SIZE
      ensures Bucket(val) < NUM_BUCKETS
      ensures ok ==> dists == old(dists)[kind := Counted(DistIn(old(dists), kind), Bucket(val), count)]
      ensures ok ==> AllValid(dists)
      ensures !ok ==> dists == old(dists)
    {
      BucketInRange(val);
      if kind !in dists {
        if |dists| >= POOL_SIZE {
          return false;
        }
        dists := dists[kind := NewDist()];
      }
      var bucket := FindBucket(val);
      dists := dists[kind := Counted(dists[kind], bucket, count)];
      ok := true;
    }

    /** LatencyAdd: one more sample. */
    method Add(kind: nat, val: nat, ghost samples: seq<(nat, nat)>) returns (ok: bool)
      requires val < WORD64 && AllSamples(samples) && IsHistogram(dists, samples)
      modifies this
      ensures ok <==> kind in old(dists) || |old(dists)| < POOL_SIZE
      ensures ok ==> IsHistogram(dists, samples + [(kind, val)])
    {
      hide Bucket, Counted, Measured, Valid, IsHistogram, DistOf;
      HistogramIsValid(dists, samples);
      BucketInRange(val);
      DistInIsSized(dists, kind);
      ok := AddHist(kind, val, 1);
      if ok {
        dists := dists[kind := Measured(dists[kind], val, val, val, 1)];
        OneMoreSample(old(dists), dists, samples, kind, val);
      }
    }

    /** The first loop of Latency_Sum, for one distribution: its buckets, the empty ones skipped. */
    method SumBuckets(kind: nat, d: Dist) returns (ok: bool)
      requires Valid(d) && AllValid(dists)
      modifies this
      ensures ok <==> kind in old(dists) || !Used(d) || |old(dists)| < POOL_SIZE
      ensures ok ==> AllValid(dists)
      ensures ok && (kind in old(dists) || Used(d)) ==>
                dists == old(dists)[kind := AddBuckets(DistIn(old(dists), kind), d, NUM_BUCKETS)]
      ensures ok && kind !in old(dists) && !Used(d) ==> dists == old(dists)
    {
      var b := 0;
      ghost var base := DistIn(dists, kind);
      NewIsValid();
      while b < NUM_BUCKETS
        invariant 0 <= b <= NUM_BUCKETS && AllValid(dists) && Valid(base)
        invariant Partly(old(dists), kind, base, d, b, dists)
      {
        hide Valid, Wrap32, Bucket, Partly;
        if d.buckets[b] == 0 {
          SkipBucket(old(dists), kind, base, d, b, dists);
        } else {
          BucketOfPower(b);
          ShiftInRange(d, b);
          ghost var before := dists;
          ok := AddHist(kind, Power(b), d.buckets[b]);
          if !ok {
            NoneLeft(old(dists), kind, base, d, b, before);
            return;
          }
          AddedBucket(old(dists), kind, base, d, b, before, dists);
        }
        b := b + 1;
      }
      ok := true;
    }

    /** Latency_Sum.  It fails exactly if the types need more distributions than the pool has, or
        if a type that is new here has all its counts wrapped around to 0: no distribution was
        made for it then. */
    method Sum(summand: Histogram) returns (ok: bool)
      requires AllValid(dists) && AllValid(summand)
      requires |dists| <= POOL_SIZE
      modifies this
      ensures ok <==> Fits(old(dists), summand)
      ensures ok ==> IsSumOf(old(dists), summand, dists)
    {
      hide Fits, IsSumOf, BucketsAdded, SumStep, Used;
      ok := SumAllBuckets(summand);
      if ok {
        ghost var mid := dists;
        WhenFits(old(dists), summand, mid);
        ok := SumFigures(summand);
        if ok {
          Assembled(old(dists), summand, mid, dists);
        }
      }
    }

    method SumAllBuckets(summand: Histogram) returns (ok: bool)
      requires AllValid(dists) && AllValid(summand) && |dists| <= POOL_SIZE
      modifies this
      ensures ok ==> BucketsAdded(old(dists), summand, {}, dists) && |dists.Keys| <= POOL_SIZE
      ensures ok ==> AllValid(dists)
      ensures !ok ==> !Fits(old(dists), summand)
    {
      var todo := summand.Keys;
      while todo != {}
        invariant todo <= summand.Keys && BucketsAdded(old(dists), summand, todo, dists) && |dists| <= POOL_SIZE
        decreases |todo|
      {
        var kind :| kind in todo;
        ghost var before := dists;
        ok := SumBuckets(kind, summand[kind]);
        if !ok {
          PoolFull(old(dists), summand, before, kind);
          return;
        }
        OneKindMore(old(dists), summand, todo, before, dists, kind);
        todo := todo - {kind};
      }
      ok := true;
    }

    method SumFigures(summand: Histogram) returns (ok: bool)
      requires AllValid(dists)
      modifies this
      ensures ok <==> summand.Keys <= old(dists).Keys
      ensures ok ==> dists.Keys == old(dists).Keys
      ensures ok ==> forall kind :: kind in dists ==> dists[kind] == SumStep(old(dists)[kind], summand, kind)
    {
      var todo := summand.Keys;
      while todo != {}
        invariant todo <= summand.Keys && dists.Keys == old(dists).Keys
        invariant summand.Keys - todo <= dists.Keys
        invariant forall kind :: kind in dists ==>
          dists[kind] == if kind in todo then old(dists)[kind] else SumStep(old(dists)[kind], summand, kind)
        decreases |todo|
      {
        var kind :| kind in todo;
        if kind !in dists {
          return false;
        }
        var d := summand[kind];
        dists := dists[kind := Measured(dists[kind], d.min, d.max, d.total, d.count)];
        todo := todo - {kind};
      }
      ok := true;
    }
  }

  ghost function SumStep(d: Dist, summand: Histogram, kind: nat): Dist {
    if kind in summand
    then Measured(d, summand[kind].min, summand[kind].max, summand[kind].total, summand[kind].count)
    else d
  }

  /** The buckets of all types of `s` but those still to do have been added to those of `a`. */
  ghost predicate BucketsAdded(a: Histogram, s: Histogram, todo: set<nat>, r: Histogram)
    requires AllValid(a) && AllValid(s)
  {
    && AllValid(r)
    && (forall k :: k in r <==> k in a || (k in s && k !in todo && Used(s[k])))
    && (forall k :: k in r ==>
          r[k] == if k in s && k !in todo then AddBuckets(DistIn(a, k), s[k], NUM_BUCKETS) else a[k])
  }

  /** One of the first `n` buckets is not empty. */
  ghost predicate UsedBelow(d: Dist, n: nat)
    requires n <= |d.buckets|
  {
    exists b :: 0 <= b < n && d.buckets[b] != 0
  }

  /** The first `n` buckets of `d` have been added. */
  ghost predicate Partly(h: Histogram, kind: nat, base: Dist, d: Dist, n: nat, r: Histogram)
    requires Valid(base) && Valid(d) && n <= NUM_BUCKETS
  {
    if kind in h || UsedBelow(d, n)
    then r == h[kind := AddBuckets(base, d, n)] && (kind in h || |h| < POOL_SIZE)
    else r == h && AddBuckets(base, d, n) == base
  }

  lemma SkipBucket(h: Histogram, kind: nat, base: Dist, d: Dist, n: nat, r: Histogram)
    requires Valid(base) && Valid(d) && n < NUM_BUCKETS && Partly(h, kind, base, d, n, r) && d.buckets[n] == 0
    ensures Partly(h, kind, base, d, n + 1, r)
  {
    EmptyBucket(base, d, n);
    hide AddBuckets, Valid;
  }

  lemma NoneLeft(h: Histogram, kind: nat, base: Dist, d: Dist, n: nat, r: Histogram)
    requires Valid(base) && Valid(d) && n < NUM_BUCKETS && Partly(h, kind, base, d, n, r) && d.buckets[n] != 0
    requires kind !in r && |r| >= POOL_SIZE
    ensures r == h && Used(d)
  {
    hide AddBuckets;
  }

  lemma AddedBucket(h: Histogram, kind: nat, base: Dist, d: Dist, n: nat, r: Histogram, r': Histogram)
    requires Valid(base) && Valid(d) && n < NUM_BUCKETS && Partly(h, kind, base, d, n, r) && d.buckets[n] != 0
    requires base == DistIn(h, kind) && (kind in r || |r| < POOL_SIZE) && n < |DistIn(r, kind).buckets|
    requires r' == r[kind := Counted(DistIn(r, kind), n, d.buckets[n])]
    ensures Partly(h, kind, base, d, n + 1, r')
  {
    assert DistIn(r, kind) == AddBuckets(base, d, n);
    assert AddBuckets(base, d, n + 1) == Counted(AddBuckets(base, d, n), n, d.buckets[n]);
    assert UsedBelow(d, n + 1);
    hide AddBuckets, Counted, Valid;
  }

  /** The types of both are not too many, and the new ones have samples to show. */
  ghost predicate Fits(a: Histogram, s: Histogram) {
    && |a.Keys + s.Keys| <= POOL_SIZE
    && forall kind :: kind in s && kind !in a ==> Used(s[kind])
  }

  lemma WhenFits(a: Histogram, s: Histogram, mid: Histogram)
    requires AllValid(a) && AllValid(s) && BucketsAdded(a, s, {}, mid) && |mid.Keys| <= POOL_SIZE
    ensures s.Keys <= mid.Keys <==> Fits(a, s)
  {
    hide Used, AddBuckets, Valid;
    if s.Keys <= mid.Keys {
      assert mid.Keys == a.Keys + s.Keys;
    }
  }

  lemma NewIsValid()
    ensures Valid(NewDist())
  {
  }

  lemma OneKindMore(a: Histogram, s: Histogram, todo: set<nat>, r: Histogram, r': Histogram, kind: nat)
    requires AllValid(a) && AllValid(s) && BucketsAdded(a, s, todo, r) && kind in todo && kind in s && AllValid(r')
    requires kind in r || Used(s[kind]) ==> r' == r[kind := AddBuckets(DistIn(r, kind), s[kind], NUM_BUCKETS)]
    requires kind !in r && !Used(s[kind]) ==> r' == r
    ensures BucketsAdded(a, s, todo - {kind}, r')
  {
    hide Used, AddBuckets;
    assert DistIn(r, kind) == DistIn(a, kind);
  }

  lemma PoolFull(a: Histogram, s: Histogram, r: Histogram, kind: nat)
    requires r.Keys <= a.Keys + s.Keys && kind !in r && kind in s && |r| >= POOL_SIZE
    ensures !Fits(a, s)
  {
    Counting.SubsetSize(r.Keys + {kind}, a.Keys + s.Keys);
    assert |r.Keys + {kind}| == |r.Keys| + 1 && |r.Keys| == |r|;
  }

  /** Both loops together make the sum. */
  lemma Assembled(a: Histogram, s: Histogram, mid: Histogram, r: Histogram)
    requires AllValid(a) && AllValid(s) && BucketsAdded(a, s, {}, mid) && s.Keys <= mid.Keys && r.Keys == mid.Keys
    requires forall kind :: kind in r ==> r[kind] == SumStep(mid[kind], s, kind)
    ensures IsSumOf(a, s, r)
  {
    NewIsValid();
    hide Used, IsSum, AddBuckets, SumStep, Valid;
    forall kind | kind in s ensures IsSum(DistIn(a, kind), s[kind], r[kind]) {
      assert mid[kind] == AddBuckets(DistIn(a, kind), s[kind], NUM_BUCKETS);
      AddedIsSum(DistIn(a, kind), s, kind);
    }
    forall kind | kind in a && kind !in s ensures r[kind] == a[kind] {
      NotInSum(a[kind], s, kind);
    }
  }

  lemma AddBucketsAre(d: Dist, e: Dist, n: nat)
    requires Valid(d) && Valid(e) && n == NUM_BUCKETS
    ensures
      var r := AddBuckets(d, e, n);
      && BucketsSum(d.buckets, e.buckets, r.buckets)
      && r.min == d.min && r.max == d.max && r.total == d.total && r.count == d.count
  {
  }

  lemma AddedIsSum(d: Dist, s: Histogram, kind: nat)
    requires kind in s && Valid(d) && Valid(s[kind])
    ensures IsSum(d, s[kind], SumStep(AddBuckets(d, s[kind], NUM_BUCKETS), s, kind))
  {
    hide AddBuckets, BucketsSum, Wrap64;
    AddBucketsAre(d, s[kind], NUM_BUCKETS);
  }

  lemma NotInSum(d: Dist, s: Histogram, kind: nat)
    requires kind !in s
    ensures SumStep(d, s, kind) == d
  {
  }

  lemma DistInIsSized(h: Histogram, kind: nat)
    requires AllValid(h)
    ensures |DistIn(h, kind).buckets| == NUM_BUCKETS
  {
  }

  lemma HistogramIsValid(h: Histogram, samples: seq<(nat, nat)>)
    requires AllSamples(samples) && IsHistogram(h, samples)
    ensures AllValid(h)
  {
  }

  lemma OneMoreSample(h: Histogram, h': Histogram, samples: seq<(nat, nat)>, kind: nat, val: nat)
    requires AllSamples(samples) && IsHistogram(h, samples) && val < WORD64 && Bucket(val) < NUM_BUCKETS
    requires |DistIn(h, kind).buckets| == NUM_BUCKETS
    requires h' == h[kind := Measured(Counted(DistIn(h, kind), Bucket(val), 1), val, val, val, 1)]
    ensures AllSamples(samples + [(kind, val)]) && IsHistogram(h', samples + [(kind, val)])
  {
    hide Wrap32, Wrap64, Bucket, DistOf, Measured, Counted;
    var more := samples + [(kind, val)];
    assert Kinds(more) == Kinds(samples) + {kind} by {
      assert forall s :: s in more <==> s in samples || s == (kind, val);
    }
    forall k | k in h' ensures Samples(ValuesOf(more, k)) && h'[k] == DistOf(ValuesOf(more, k)) {
      ValuesAreSamples(more, k);
      HistogramDist(h, samples, k);
      MoreValues(samples, kind, val, k);
      if k == kind {
        DistOfOneMore(ValuesOf(samples, k), val);
      }
    }
  }

  lemma MoreValues(samples: seq<(nat, nat)>, kind: nat, val: nat, k: nat)
    ensures ValuesOf(samples + [(kind, val)], k) ==
              if k == kind then ValuesOf(samples, k) + [val] else ValuesOf(samples, k)
  {
    var more := samples + [(kind, val)];
    assert more[..|more| - 1] == samples;
  }

  lemma EmptyBucket(d: Dist, e: Dist, b: nat)
    requires Valid(d) && Valid(e) && b < NUM_BUCKETS && e.buckets[b] == 0
    ensures AddBuckets(d, e, b + 1) == AddBuckets(d, e, b)
  {
    var r := AddBuckets(d, e, b);
    assert r.buckets[b := Wrap32(r.buckets[b] + 0)] == r.buckets;
  }

  lemma ShiftInRange(d: Dist, b: nat)
    requires Valid(d) && b < NUM_BUCKETS && d.buckets[b] != 0
    ensures Power(b) < WORD64
  {
    Power64();
    PowersGrow(b + 1, 64);
  }
}
