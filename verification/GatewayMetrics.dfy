/**
 * Latency percentiles from scraped histogram buckets: merge the buckets of all label sets,
 * find the bucket a rank falls into, and interpolate inside it. Rounding is not modelled:
 * counts and bounds are real numbers.
 */
module GatewayMetrics {
  datatype Bound = Finite(v: real) | Inf

  datatype Bucket = Bucket(le: Bound, count: real)

  datatype Histogram = Histogram(buckets: seq<Bucket>, count: real)

  predicate Less(a: Bound, b: Bound) {
    a.Finite? && (b.Inf? || a.v < b.v)
  }

  // ------------------------------------------------------------------------------ merging

  /** Add a bucket to buckets sorted by bound. */
  function AddBucket(merged: seq<Bucket>, b: Bucket): seq<Bucket> {
    if merged == [] then [b]
    else if merged[0].le == b.le then [Bucket(b.le, merged[0].count + b.count)] + merged[1..]
    else if Less(b.le, merged[0].le) then [b] + merged
    else [merged[0]] + AddBucket(merged[1..], b)
  }

  function AddBuckets(merged: seq<Bucket>, bs: seq<Bucket>): seq<Bucket> {
    if bs == [] then merged else AddBucket(AddBuckets(merged, bs[..|bs| - 1]), bs[|bs| - 1])
  }

  function Merged(hs: seq<Histogram>): seq<Bucket> {
    if hs == [] then [] else AddBuckets(Merged(hs[..|hs| - 1]), hs[|hs| - 1].buckets)
  }

  function CountSum(hs: seq<Histogram>): real {
    if hs == [] then 0.0 else CountSum(hs[..|hs| - 1]) + hs[|hs| - 1].count
  }

  /** Strictly ascending bounds. */
  ghost predicate Ascending(bs: seq<Bucket>) {
    |bs| <= 1 || (Less(bs[0].le, bs[1].le) && Ascending(bs[1..]))
  }

  lemma {:induction false} AddBucketAscends(merged: seq<Bucket>, b: Bucket)
    requires Ascending(merged)
    ensures Ascending(AddBucket(merged, b))
  {
    if merged != [] {
      var r := AddBucket(merged, b);
      if merged[0].le == b.le {
        assert r[1..] == merged[1..];
      } else if Less(b.le, merged[0].le) {
        assert r[1..] == merged;
      } else {
        AddBucketAscends(merged[1..], b);
        assert r[1..] == AddBucket(merged[1..], b);
      }
    }
  }

  lemma {:induction false} AddBucketsAscend(merged: seq<Bucket>, bs: seq<Bucket>)
    requires Ascending(merged)
    ensures Ascending(AddBuckets(merged, bs))
  {
    if bs != [] {
      AddBucketsAscend(merged, bs[..|bs| - 1]);
      AddBucketAscends(AddBuckets(merged, bs[..|bs| - 1]), bs[|bs| - 1]);
    }
  }

  lemma {:induction false} MergedAscends(hs: seq<Histogram>)
    ensures Ascending(Merged(hs))
  {
    if hs != [] {
      MergedAscends(hs[..|hs| - 1]);
      AddBucketsAscend(Merged(hs[..|hs| - 1]), hs[|hs| - 1].buckets);
    }
  }

  /** The counts of one bound, added up. */
  function CountAt(bs: seq<Bucket>, le: Bound): real {
    if bs == [] then 0.0 else (if bs[0].le == le then bs[0].count else 0.0) + CountAt(bs[1..], le)
  }

  function CountIn(hs: seq<Histogram>, le: Bound): real {
    if hs == [] then 0.0 else CountIn(hs[..|hs| - 1], le) + CountAt(hs[|hs| - 1].buckets, le)
  }

  lemma {:induction false} AddBucketCounts(merged: seq<Bucket>, b: Bucket, le: Bound)
    ensures CountAt(AddBucket(merged, b), le) == CountAt(merged, le) + if b.le == le then b.count else 0.0
  {
    if merged == [] {
      assert [b][1..] == [];
    } else if merged[0].le == b.le {
      assert AddBucket(merged, b)[1..] == merged[1..];
    } else if Less(b.le, merged[0].le) {
      assert ([b] + merged)[1..] == merged;
    } else {
      AddBucketCounts(merged[1..], b, le);
      assert AddBucket(merged, b)[1..] == AddBucket(merged[1..], b);
    }
  }

  lemma {:induction false} CountAtPush(bs: seq<Bucket>, b: Bucket, le: Bound)
    ensures CountAt(bs + [b], le) == CountAt(bs, le) + if b.le == le then b.count else 0.0
  {
    if bs == [] {
      assert bs + [b] == [b] && [b][1..] == [];
    } else {
      CountAtPush(bs[1..], b, le);
      assert (bs + [b])[1..] == bs[1..] + [b];
    }
  }

  lemma {:induction false} AddBucketsCount(merged: seq<Bucket>, bs: seq<Bucket>, le: Bound)
    ensures CountAt(AddBuckets(merged, bs), le) == CountAt(merged, le) + CountAt(bs, le)
  {
    if bs != [] {
      var init, b := bs[..|bs| - 1], bs[|bs| - 1];
      AddBucketsCount(merged, init, le);
      AddBucketCounts(AddBuckets(merged, init), b, le);
      CountAtPush(init, b, le);
      assert bs == init + [b];
    }
  }

  /** Merging loses no count and invents none: at every bound it holds the sum over all label
      sets. */
  lemma {:induction false} MergedCounts(hs: seq<Histogram>, le: Bound)
    ensures CountAt(Merged(hs), le) == CountIn(hs, le)
  {
    if hs != [] {
      MergedCounts(hs[..|hs| - 1], le);
      AddBucketsCount(Merged(hs[..|hs| - 1]), hs[|hs| - 1].buckets, le);
    }
  }

  // ------------------------------------------------------------------------------ scanning

  /** How far into a bucket the rank lies. */
  function Fraction(target: real, prevCum: real, cum: real): real {
    if cum > prevCum then (target - prevCum) / (cum - prevCum) else 0.0
  }

  function Interpolate(prevLe: real, le: real, frac: real): real { prevLe + (le - prevLe) * frac }

  function Scan(bs: seq<Bucket>, target: real, prevLe: real, prevCum: real): real {
    if bs == [] then prevLe
    else
      var b := bs[0];
      if b.count >= target then
        if b.le.Inf? then prevLe else Interpolate(prevLe, b.le.v, Fraction(target, prevCum, b.count))
      else Scan(bs[1..], target, if b.le.Finite? then b.le.v else prevLe, b.count)
  }

  function TotalCount(hs: seq<Histogram>): real {
    var bs := Merged(hs);
    var last := if bs == [] then 0.0 else bs[|bs| - 1].count;
    if CountSum(hs) >= last then CountSum(hs) else last
  }

  /** The rank looked for. */
  function Rank(q: real, count: real): real { q * count }

  function Quantile(hs: seq<Histogram>, q: real): real {
    if hs == [] || TotalCount(hs) == 0.0 then 0.0 else Scan(Merged(hs), Rank(q, TotalCount(hs)), 0.0, 0.0)
  }

  /** Merges the buckets of one label set after another, then scans the merged buckets for the
      first that reaches the rank. */
  method ComputeQuantile(hs: seq<Histogram>, q: real) returns (r: real)
    ensures r == Quantile(hs, q)
  {
    if |hs| == 0 {
      return 0.0;
    }
    var merged: seq<Bucket> := [];
    var countFromSum := 0.0;
    for i := 0 to |hs|
      invariant merged == Merged(hs[..i]) && countFromSum == CountSum(hs[..i])
    {
      assert hs[..i + 1][..i] == hs[..i];
      countFromSum := countFromSum + hs[i].count;
      var bs := hs[i].buckets;
      for j := 0 to |bs|
        invariant merged == AddBuckets(Merged(hs[..i]), bs[..j])
      {
        assert bs[..j + 1][..j] == bs[..j];
        merged := AddBucket(merged, bs[j]);
      }
      assert bs[..|bs|] == bs;
    }
    assert hs[..|hs|] == hs;
    var last := if |merged| == 0 then 0.0 else merged[|merged| - 1].count;
    var count := if countFromSum >= last then countFromSum else last;
    if count == 0.0 {
      return 0.0;
    }
    var target := Rank(q, count);
    var prevLe, prevCum := 0.0, 0.0;
    assert merged[0..] == merged;
    for k := 0 to |merged|
      invariant Scan(merged[k..], target, prevLe, prevCum) == Scan(merged, target, 0.0, 0.0)
    {
      assert merged[k..][1..] == merged[k + 1..];
      var b := merged[k];
      if b.count >= target {
        r := if b.le.Inf? then prevLe else Interpolate(prevLe, b.le.v, Fraction(target, prevCum, b.count));
        assert r == Scan(merged[k..], target, prevLe, prevCum);
        return;
      }
      prevLe := if b.le.Finite? then b.le.v else prevLe;
      prevCum := b.count;
    }
    assert merged[|merged|..] == [];
    return prevLe;
  }

  // -------------------------------------------------------------------------- main results

  /** Buckets as a scan meets them: bounds ascend from `prevLe`. */
  ghost predicate From(bs: seq<Bucket>, prevLe: real) {
    Ascending(bs) && (bs != [] && bs[0].le.Finite? ==> bs[0].le.v >= prevLe)
  }

  /** The largest finite bound, or `least` if there is none. */
  function LargestFinite(bs: seq<Bucket>, least: real): real {
    if bs == [] then least else LargestFinite(bs[1..], if bs[0].le.Finite? then bs[0].le.v else least)
  }

  lemma FromTail(bs: seq<Bucket>, prevLe: real)
    requires From(bs, prevLe) && bs != []
    ensures From(bs[1..], if bs[0].le.Finite? then bs[0].le.v else prevLe)
  {
  }

  lemma {:induction false} LargestIsLarge(bs: seq<Bucket>, prevLe: real)
    requires From(bs, prevLe)
    ensures LargestFinite(bs, prevLe) >= prevLe
  {
    if bs != [] {
      FromTail(bs, prevLe);
      LargestIsLarge(bs[1..], if bs[0].le.Finite? then bs[0].le.v else prevLe);
    }
  }

  lemma FractionInRange(target: real, prevCum: real, cum: real)
    requires prevCum <= target <= cum
    ensures 0.0 <= Fraction(target, prevCum, cum) <= 1.0
  {
    if cum > prevCum {
      var a, b := target - prevCum, cum - prevCum;
      assert 0.0 <= a <= b && b > 0.0;
      assert (a / b) * b == a;
    }
  }

  lemma FractionMonotone(t: real, t': real, prevCum: real, cum: real)
    requires t <= t'
    ensures Fraction(t, prevCum, cum) <= Fraction(t', prevCum, cum)
  {
    if cum > prevCum {
      var b := cum - prevCum;
      assert (t' - prevCum) / b - (t - prevCum) / b == (t' - t) / b;
      assert ((t' - t) / b) * b == t' - t;
    }
  }

  lemma Scaled(w: real, f: real)
    requires w >= 0.0 && f >= 0.0
    ensures w * f >= 0.0
  {
  }

  lemma InterpolateBetween(prevLe: real, le: real, frac: real)
    requires prevLe <= le && 0.0 <= frac <= 1.0
    ensures prevLe <= Interpolate(prevLe, le, frac) <= le
  {
    Scaled(le - prevLe, frac);
    Scaled(le - prevLe, 1.0 - frac);
  }

  lemma InterpolateMonotone(prevLe: real, le: real, frac: real, frac': real)
    requires prevLe <= le && frac <= frac'
    ensures Interpolate(prevLe, le, frac) <= Interpolate(prevLe, le, frac')
  {
    Scaled(le - prevLe, frac' - frac);
  }

  /** A scan stays between where it starts and the largest finite bound. */
  lemma {:induction false} ScanInRange(bs: seq<Bucket>, target: real, prevLe: real, prevCum: real)
    requires From(bs, prevLe) && prevCum <= target
    ensures prevLe <= Scan(bs, target, prevLe, prevCum) <= LargestFinite(bs, prevLe)
  {
    if bs != [] {
      var b := bs[0];
      var next := if b.le.Finite? then b.le.v else prevLe;
      FromTail(bs, prevLe);
      LargestIsLarge(bs[1..], next);
      if b.count >= target {
        FractionInRange(target, prevCum, b.count);
        if b.le.Finite? {
          InterpolateBetween(prevLe, b.le.v, Fraction(target, prevCum, b.count));
        }
      } else {
        ScanInRange(bs[1..], target, next, b.count);
      }
    }
  }

  lemma {:induction false} ScanMonotone(bs: seq<Bucket>, t: real, t': real, prevLe: real, prevCum: real)
    requires From(bs, prevLe) && prevCum <= t <= t'
    ensures Scan(bs, t, prevLe, prevCum) <= Scan(bs, t', prevLe, prevCum)
  {
    if bs != [] {
      var b := bs[0];
      var next := if b.le.Finite? then b.le.v else prevLe;
      FromTail(bs, prevLe);
      if b.count < t {
        ScanMonotone(bs[1..], t, t', next, b.count);
      } else if b.count >= t' {
        FractionMonotone(t, t', prevCum, b.count);
        if b.le.Finite? {
          InterpolateMonotone(prevLe, b.le.v, Fraction(t, prevCum, b.count), Fraction(t', prevCum, b.count));
        }
      } else {
        ScanInRange(bs[1..], t', next, b.count);
        FractionInRange(t, prevCum, b.count);
        if b.le.Finite? {
          InterpolateBetween(prevLe, b.le.v, Fraction(t, prevCum, b.count));
        }
      }
    }
  }

  lemma RankMonotone(q: real, q': real, n: real)
    requires 0.0 <= q <= q' && n >= 0.0
    ensures 0.0 <= Rank(q, n) <= Rank(q', n)
  {
    Scaled(q, n);
    Scaled(q' - q, n);
    assert (q' - q) * n == q' * n - q * n;
  }

  /** What a scrape gives: bounds and total counts are not negative. */
  ghost predicate Scraped(hs: seq<Histogram>) {
    forall i :: 0 <= i < |hs| ==>
      hs[i].count >= 0.0
      && forall j :: 0 <= j < |hs[i].buckets| && hs[i].buckets[j].le.Finite? ==> hs[i].buckets[j].le.v >= 0.0
  }

  lemma {:induction false} MergedBounds(hs: seq<Histogram>)
    requires Scraped(hs)
    ensures NonNegative(Merged(hs)) && From(Merged(hs), 0.0) && CountSum(hs) >= 0.0
  {
    MergedAscends(hs);
    if hs != [] {
      var init := hs[..|hs| - 1];
      MergedBounds(init);
      AddBucketsBounds(Merged(init), hs[|hs| - 1].buckets);
    }
  }

  ghost predicate NonNegative(bs: seq<Bucket>) {
    forall i :: 0 <= i < |bs| && bs[i].le.Finite? ==> bs[i].le.v >= 0.0
  }

  lemma {:induction false} AddBucketBounds(merged: seq<Bucket>, b: Bucket)
    requires NonNegative(merged) && NonNegative([b])
    ensures NonNegative(AddBucket(merged, b))
  {
    assert [b][0] == b;
    if merged != [] {
      AddBucketBounds(merged[1..], b);
    }
  }

  lemma {:induction false} AddBucketsBounds(merged: seq<Bucket>, bs: seq<Bucket>)
    requires NonNegative(merged) && NonNegative(bs)
    ensures NonNegative(AddBuckets(merged, bs))
  {
    if bs != [] {
      AddBucketsBounds(merged, bs[..|bs| - 1]);
      AddBucketBounds(AddBuckets(merged, bs[..|bs| - 1]), bs[|bs| - 1]);
    }
  }

  /** The quantile never decreases in `q`, so p50 <= p90 <= p99; with no condition on the
      buckets of different label sets, their counts, or a missing total or `+Inf` line. */
  lemma QuantileIsMonotone(hs: seq<Histogram>, q: real, q': real)
    requires Scraped(hs) && 0.0 <= q <= q'
    ensures Quantile(hs, q) <= Quantile(hs, q')
  {
    MergedBounds(hs);
    var n := TotalCount(hs);
    RankMonotone(q, q', n);
    ScanMonotone(Merged(hs), Rank(q, n), Rank(q', n), 0.0, 0.0);
  }

  /** And lies between 0 and the largest finite bound. */
  lemma QuantileIsInRange(hs: seq<Histogram>, q: real)
    requires Scraped(hs) && 0.0 <= q
    ensures 0.0 <= Quantile(hs, q) <= LargestFinite(Merged(hs), 0.0)
  {
    MergedBounds(hs);
    LargestIsLarge(Merged(hs), 0.0);
    var n := TotalCount(hs);
    RankMonotone(q, q, n);
    ScanInRange(Merged(hs), Rank(q, n), 0.0, 0.0);
  }

  /** The corner `i` of the line through the buckets' corners; corner 0 is the origin of the
      scan. */
  function CornerLe(bs: seq<Bucket>, i: nat, prevLe: real): real
    requires i <= |bs|
  {
    LargestFinite(bs[..i], prevLe)
  }

  function CornerCum(bs: seq<Bucket>, i: nat, prevCum: real): real
    requires i <= |bs|
  {
    if i == 0 then prevCum else bs[i - 1].count
  }

  /** The point (x, y) is on the line through two corners. */
  predicate OnLine(x: real, y: real, le: real, cum: real, le': real, cum': real) {
    (x - le) * (cum' - cum) == (y - cum) * (le' - le)
  }

  /** `x` is where the line through the corners reaches `target`, in bucket `i`: the first one
      whose count reaches the target. */
  ghost predicate Reaches(bs: seq<Bucket>, i: nat, target: real, prevLe: real, prevCum: real, x: real)
    requires i < |bs|
  {
    var le, cum := CornerLe(bs, i, prevLe), CornerCum(bs, i, prevCum);
    && (forall j :: 0 <= j < i ==> bs[j].count < target) && target <= bs[i].count
    && if bs[i].le.Inf? then x == le
       else le <= x <= bs[i].le.v && OnLine(x, target, le, cum, bs[i].le.v, bs[i].count)
  }

  lemma Regrouped(w: real, f: real, b: real)
    ensures (w * f) * b == (f * b) * w
  {
  }

  lemma InterpolateOnLine(prevLe: real, le: real, target: real, prevCum: real, cum: real)
    requires prevCum <= target <= cum
    ensures OnLine(Interpolate(prevLe, le, Fraction(target, prevCum, cum)), target, prevLe, prevCum, le, cum)
  {
    var a, b, w, f := target - prevCum, cum - prevCum, le - prevLe, Fraction(target, prevCum, cum);
    assert f * b == a;
    assert Interpolate(prevLe, le, f) - prevLe == w * f;
    Regrouped(w, f, b);
  }

  lemma CornerTail(bs: seq<Bucket>, i: nat, prevLe: real, prevCum: real)
    requires 0 < i <= |bs|
    ensures CornerLe(bs, i, prevLe) == CornerLe(bs[1..], i - 1, if bs[0].le.Finite? then bs[0].le.v else prevLe)
    ensures CornerCum(bs, i, prevCum) == CornerCum(bs[1..], i - 1, bs[0].count)
  {
    var next := if bs[0].le.Finite? then bs[0].le.v else prevLe;
    assert bs[..i][1..] == bs[1..][..i - 1] && bs[..i][0] == bs[0];
    assert LargestFinite(bs[..i], prevLe) == LargestFinite(bs[..i][1..], next);
    assert i > 1 ==> bs[i - 1] == bs[1..][i - 2];
  }

  lemma ReachesTail(bs: seq<Bucket>, k: nat, target: real, prevLe: real, prevCum: real, x: real)
    requires bs != [] && k < |bs[1..]| && bs[0].count < target
    requires Reaches(bs[1..], k, target, if bs[0].le.Finite? then bs[0].le.v else prevLe, bs[0].count, x)
    ensures Reaches(bs, k + 1, target, prevLe, prevCum, x)
  {
    CornerTail(bs, k + 1, prevLe, prevCum);
    forall j | 0 <= j < k + 1 ensures bs[j].count < target {
      assert j > 0 ==> bs[j] == bs[1..][j - 1];
    }
  }

  /** What a scan finds: the place where the line reaches the target, or the largest finite
      bound when no bucket does. */
  lemma {:induction false} ScanFinds(bs: seq<Bucket>, target: real, prevLe: real, prevCum: real) returns (i: nat)
    requires From(bs, prevLe) && prevCum <= target
    ensures i <= |bs|
    ensures i < |bs| ==> Reaches(bs, i, target, prevLe, prevCum, Scan(bs, target, prevLe, prevCum))
    ensures i == |bs| ==>
              Scan(bs, target, prevLe, prevCum) == LargestFinite(bs, prevLe)
              && forall j :: 0 <= j < |bs| ==> bs[j].count < target
  {
    i := 0;
    if bs != [] {
      var b := bs[0];
      if b.count >= target {
        FractionInRange(target, prevCum, b.count);
        if b.le.Finite? {
          InterpolateBetween(prevLe, b.le.v, Fraction(target, prevCum, b.count));
          InterpolateOnLine(prevLe, b.le.v, target, prevCum, b.count);
        }
      } else {
        FromTail(bs, prevLe);
        var k := ScanFinds(bs[1..], target, if b.le.Finite? then b.le.v else prevLe, b.count);
        i := k + 1;
        if k < |bs[1..]| {
          ReachesTail(bs, k, target, prevLe, prevCum, Scan(bs, target, prevLe, prevCum));
        } else {
          assert forall j :: 0 < j < |bs| ==> bs[j] == bs[1..][j - 1];
        }
      }
    }
  }

  /** The quantile inverts the cumulative line: it is the point, in the first bucket that
      reaches the rank, where the line has that rank; and the largest finite bound exactly when
      no bucket reaches the rank. */
  lemma QuantileInvertsTheLine(hs: seq<Histogram>, q: real) returns (i: nat)
    requires Scraped(hs) && 0.0 <= q && TotalCount(hs) > 0.0 && hs != []
    ensures i <= |Merged(hs)|
    ensures i < |Merged(hs)| ==> Reaches(Merged(hs), i, Rank(q, TotalCount(hs)), 0.0, 0.0, Quantile(hs, q))
    ensures i == |Merged(hs)| ==>
              && Quantile(hs, q) == LargestFinite(Merged(hs), 0.0)
              && forall j :: 0 <= j < |Merged(hs)| ==> Merged(hs)[j].count < Rank(q, TotalCount(hs))
  {
    MergedBounds(hs);
    RankMonotone(q, q, TotalCount(hs));
    i := ScanFinds(Merged(hs), Rank(q, TotalCount(hs)), 0.0, 0.0);
  }
}
