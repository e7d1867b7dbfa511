/** Latency samples, nearest-rank percentiles and threshold checks.

    Samples are kept by object key: a percentile is then a statement about how many keys have at
    most a given latency.
 */
module Latency {
  import opened Sets

  type Samples = map<string, int>

  datatype Datum = Datum(key: string, latency: int)

  datatype LatencyMetric = LatencyMetric(perc50: int, perc90: int, perc99: int)

  // ---------- nearest rank ----------

  /** The keys with latency at most `v`. */
  ghost function AtMost(samples: Samples, v: int): set<string> {
    set k | k in samples && samples[k] <= v
  }

  /** A hundred times `p` percent of `n`. */
  function Share(p: nat, n: nat): nat {
    p * n
  }

  lemma ShareSplit(p: nat, m: nat, n: nat)
    ensures Share(p, m + n) == Share(p, m) + Share(p, n)
  {
  }

  lemma ShareGrows(p: nat, q: nat, n: nat)
    requires p <= q
    ensures Share(p, n) <= Share(q, n)
    ensures p > 0 && n > 0 ==> Share(p, n) > 0
  {
  }

  /** At least `p` percent of the samples are at most `v`. */
  ghost predicate Reaches(samples: Samples, p: nat, v: int) {
    100 * |AtMost(samples, v)| >= Share(p, |samples|)
  }

  /** `v` is the least sampled latency that at least `p` percent of the samples do not exceed. */
  ghost predicate NearestRank(samples: Samples, p: nat, v: int) {
    && (exists k :: k in samples && samples[k] == v)
    && Reaches(samples, p, v)
    && (forall k :: k in samples && samples[k] < v ==> !Reaches(samples, p, samples[k]))
  }

  lemma AtMostGrows(samples: Samples, u: int, v: int)
    requires u <= v
    ensures |AtMost(samples, u)| <= |AtMost(samples, v)|
  {
    SubsetSize(AtMost(samples, u), AtMost(samples, v));
  }

  lemma NearestRankIsUnique(samples: Samples, p: nat, u: int, v: int)
    requires NearestRank(samples, p, u) && NearestRank(samples, p, v)
    ensures u == v
  {
    var j :| j in samples && samples[j] == u;
    var k :| k in samples && samples[k] == v;
  }

  /** A higher percentile is no smaller. */
  lemma NearestRankGrows(samples: Samples, p: nat, q: nat, u: int, v: int)
    requires NearestRank(samples, p, u) && NearestRank(samples, q, v) && p <= q
    ensures u <= v
  {
    if v < u {
      var k :| k in samples && samples[k] == v;
      ShareGrows(p, q, |samples|);
    }
  }

  // ---------- samples in two parts ----------

  ghost predicate Split(all: Samples, a: Samples, b: Samples) {
    && a.Keys !! b.Keys && all.Keys == a.Keys + b.Keys
    && (forall k :: k in a ==> all[k] == a[k])
    && (forall k :: k in b ==> all[k] == b[k])
  }

  lemma SplitCounts(all: Samples, a: Samples, b: Samples, v: int)
    requires Split(all, a, b)
    ensures |all| == |a| + |b|
    ensures |AtMost(all, v)| == |AtMost(a, v)| + |AtMost(b, v)|
  {
    SplitSize(all, a, b);
    var x, y, z := AtMost(a, v), AtMost(b, v), AtMost(all, v);
    assert x !! y;
    forall k ensures k in z <==> k in x + y {
    }
    assert z == x + y;
  }

  lemma SplitSize(all: Samples, a: Samples, b: Samples)
    requires Split(all, a, b)
    ensures |all| == |a| + |b|
  {
    assert |all.Keys| == |a.Keys| + |b.Keys|;
  }

  /** No value below a percentile, sampled or not, covers `p` percent of the samples. */
  lemma BelowRank(samples: Samples, p: nat, u: int, v: int)
    requires NearestRank(samples, p, v) && u < v && p > 0
    ensures !Reaches(samples, p, u)
  {
    var covered := AtMost(samples, u);
    var w :| w in samples && samples[w] == v;
    assert |samples| > 0;
    ShareGrows(p, p, |samples|);
    if covered != {} {
      var k := Latest(samples, covered);
      assert AtMost(samples, samples[k]) == covered;
    }
  }

  ghost function Latest(samples: Samples, s: set<string>): (k: string)
    requires s != {} && s <= samples.Keys
    ensures k in s && forall j :: j in s ==> samples[j] <= samples[k]
    decreases s
  {
    var x :| x in s;
    if s == {x} then x
    else
      var k := Latest(samples, s - {x});
      assert forall j :: j in s ==> j == x || j in s - {x};
      if samples[x] <= samples[k] then k else x
  }

  lemma UnionReaches(all: Samples, a: Samples, b: Samples, p: nat, v: int)
    requires Split(all, a, b)
    ensures Reaches(a, p, v) && Reaches(b, p, v) ==> Reaches(all, p, v)
    ensures !Reaches(a, p, v) && !Reaches(b, p, v) ==> !Reaches(all, p, v)
  {
    SplitCounts(all, a, b, v);
    ShareSplit(p, |a|, |b|);
  }

  /** The percentile of a union lies between those of its parts. */
  lemma UnionBetween(all: Samples, a: Samples, b: Samples, p: nat, u: int, v: int, r: int)
    requires Split(all, a, b) && p > 0
    requires NearestRank(a, p, u) && NearestRank(b, p, v) && NearestRank(all, p, r) && u <= v
    ensures u <= r <= v
  {
    UnionReaches(all, a, b, p, v);
    UnionReaches(all, a, b, p, r);
    AtMostGrows(a, u, v);
    if r < u {
      BelowRank(a, p, r, u);
      BelowRank(b, p, r, v);
    }
    if v < r {
      BelowRank(all, p, v, r);
    }
  }

  lemma UnionWithNothing(all: Samples, a: Samples, b: Samples)
    requires Split(all, a, b) && b == map[]
    ensures all == a
  {
  }

  // ---------- metrics from sorted data ----------

  ghost predicate Sorted(data: seq<Datum>) {
    forall i, j :: 0 <= i < j < |data| ==> data[i].latency <= data[j].latency
  }

  ghost predicate DistinctKeys(data: seq<Datum>) {
    forall i, j :: 0 <= i < j < |data| ==> data[i].key != data[j].key
  }

  /** The data list every sample once. */
  ghost predicate Lists(data: seq<Datum>, samples: Samples) {
    && DistinctKeys(data)
    && (forall d :: d in data <==> d.key in samples && samples[d.key] == d.latency)
  }

  ghost function Keys(data: seq<Datum>): set<string> {
    set i | 0 <= i < |data| :: data[i].key
  }

  lemma {:induction false} KeysSize(data: seq<Datum>)
    requires DistinctKeys(data)
    ensures |Keys(data)| == |data|
  {
    if data == [] {
    } else {
      var n := |data| - 1;
      KeysSize(data[..n]);
      assert Keys(data) == Keys(data[..n]) + {data[n].key};
      assert data[n].key !in Keys(data[..n]);
    }
  }

  lemma ListedSize(data: seq<Datum>, samples: Samples)
    requires Lists(data, samples)
    ensures |data| == |samples|
  {
    KeysSize(data);
    forall k | k in samples ensures k in Keys(data) {
      assert Datum(k, samples[k]) in data;
    }
    forall k | k in Keys(data) ensures k in samples {
      var i :| 0 <= i < |data| && data[i].key == k;
      assert data[i] in data;
    }
    assert Keys(data) == samples.Keys;
  }

  /** The index of the `p`-th percentile in `n` sorted data: the ceiling of `n * p / 100`, less one. */
  function RankIndex(n: nat, p: nat): int {
    (n * p + 99) / 100 - 1
  }

  lemma RankIndexBounds(n: nat, p: nat)
    requires n > 0 && 0 < p <= 100
    ensures 0 <= RankIndex(n, p) < n
    ensures 100 * RankIndex(n, p) < Share(p, n) <= 100 * (RankIndex(n, p) + 1)
  {
    assert n * p >= 1 && n * p <= n * 100;
  }

  /** Nearest rank: the datum at the rank index of sorted data is the percentile. */
  lemma RankedDatum(data: seq<Datum>, samples: Samples, p: nat)
    requires Lists(data, samples) && Sorted(data) && data != [] && 0 < p <= 100
    ensures 0 <= RankIndex(|data|, p) < |data|
    ensures NearestRank(samples, p, data[RankIndex(|data|, p)].latency)
  {
    var n, r := |data|, RankIndex(|data|, p);
    RankIndexBounds(n, p);
    ListedSize(data, samples);
    var v := data[r].latency;
    assert data[r] in data;
    assert Reaches(samples, p, v) by {
      KeysSize(data[..r + 1]);
      SubsetSize(Keys(data[..r + 1]), AtMost(samples, v)) by {
        forall k | k in Keys(data[..r + 1]) ensures k in AtMost(samples, v) {
          var i :| 0 <= i < r + 1 && data[i].key == k;
          assert data[i] in data;
        }
      }
    }
    forall k | k in samples && samples[k] < v ensures !Reaches(samples, p, samples[k]) {
      KeysSize(data[..r]);
      SubsetSize(AtMost(samples, samples[k]), Keys(data[..r])) by {
        forall j | j in AtMost(samples, samples[k]) ensures j in Keys(data[..r]) {
          assert Datum(j, samples[j]) in data;
          var i :| 0 <= i < n && data[i] == Datum(j, samples[j]);
          assert i < r;
          assert data[..r][i] == data[i];
        }
      }
    }
  }

  /** Percentile thresholds, and the first one a metric exceeds. */
  datatype Thresholds = Thresholds(perc50: int, perc90: int, perc99: int)

  datatype Verdict = Passed | TooHigh50 | TooHigh90 | TooHigh99

  function VerifyThresholdByPercentile(m: LatencyMetric, t: Thresholds): Verdict {
    if m.perc50 > t.perc50 then TooHigh50
    else if m.perc90 > t.perc90 then TooHigh90
    else if m.perc99 > t.perc99 then TooHigh99
    else Passed
  }

  ghost predicate WithinThresholds(m: LatencyMetric, t: Thresholds) {
    m.perc50 <= t.perc50 && m.perc90 <= t.perc90 && m.perc99 <= t.perc99
  }

  /** Passing means that no percentile exceeds its threshold; otherwise the lowest that does is named. */
  lemma VerdictMeans(m: LatencyMetric, t: Thresholds)
    ensures VerifyThresholdByPercentile(m, t) == Passed <==> WithinThresholds(m, t)
    ensures VerifyThresholdByPercentile(m, t) == TooHigh50 <==> m.perc50 > t.perc50
    ensures VerifyThresholdByPercentile(m, t) == TooHigh90 <==> m.perc50 <= t.perc50 && m.perc90 > t.perc90
    ensures VerifyThresholdByPercentile(m, t) == TooHigh99 <==>
      m.perc50 <= t.perc50 && m.perc90 <= t.perc90 && m.perc99 > t.perc99
  {
  }

  /** The metric of a set of samples: their percentiles, or zeros when there are none. */
  ghost predicate MetricOf(samples: Samples, m: LatencyMetric) {
    if samples == map[] then m == LatencyMetric(0, 0, 0)
    else NearestRank(samples, 50, m.perc50) && NearestRank(samples, 90, m.perc90) && NearestRank(samples, 99, m.perc99)
  }

  function NewLatencyMetric(latencies: seq<Datum>): LatencyMetric {
    var n := |latencies|;
    if n == 0 then LatencyMetric(0, 0, 0)
    else
      RankIndexBounds(n, 50);
      RankIndexBounds(n, 90);
      RankIndexBounds(n, 99);
      LatencyMetric(latencies[RankIndex(n, 50)].latency, latencies[RankIndex(n, 90)].latency,
                    latencies[RankIndex(n, 99)].latency)
  }

  lemma NewLatencyMetricIsNearestRank(data: seq<Datum>, samples: Samples)
    requires Lists(data, samples) && Sorted(data)
    ensures MetricOf(samples, NewLatencyMetric(data))
  {
    ListedSize(data, samples);
    if data != [] {
      RankedDatum(data, samples, 50);
      RankedDatum(data, samples, 90);
      RankedDatum(data, samples, 99);
    }
  }

  /** Percentiles grow with the percentage, and are not negative when no sample is. */
  lemma MetricOrdered(samples: Samples, m: LatencyMetric)
    requires MetricOf(samples, m)
    requires forall k :: k in samples ==> samples[k] >= 0
    ensures 0 <= m.perc50 <= m.perc90 <= m.perc99
  {
    if samples != map[] {
      NearestRankGrows(samples, 50, 90, m.perc50, m.perc90);
      NearestRankGrows(samples, 90, 99, m.perc90, m.perc99);
    }
  }

  /** A metric is determined by its samples alone. */
  lemma MetricIsUnique(samples: Samples, m: LatencyMetric, m': LatencyMetric)
    requires MetricOf(samples, m) && MetricOf(samples, m')
    ensures m == m'
  {
    if samples != map[] {
      NearestRankIsUnique(samples, 50, m.perc50, m'.perc50);
      NearestRankIsUnique(samples, 90, m.perc90, m'.perc90);
      NearestRankIsUnique(samples, 99, m.perc99, m'.perc99);
    }
  }

  ghost predicate Between(a: int, r: int, b: int) {
    a <= r <= b || b <= r <= a
  }

  /** The metric of a union: between the parts' metrics, or that of the only part there is. */
  lemma UnionMetric(all: Samples, a: Samples, b: Samples, m: LatencyMetric, ma: LatencyMetric, mb: LatencyMetric)
    requires Split(all, a, b) && MetricOf(all, m) && MetricOf(a, ma) && MetricOf(b, mb)
    ensures a != map[] && b != map[] ==>
      && Between(ma.perc50, m.perc50, mb.perc50)
      && Between(ma.perc90, m.perc90, mb.perc90)
      && Between(ma.perc99, m.perc99, mb.perc99)
    ensures b == map[] ==> m == ma
    ensures a == map[] ==> m == mb
  {
    if a == map[] || b == map[] {
      if b == map[] {
        UnionWithNothing(all, a, b);
        MetricIsUnique(all, m, ma);
      }
      if a == map[] {
        UnionWithNothing(all, b, a);
        MetricIsUnique(all, m, mb);
      }
    } else {
      UnionBetweenEither(all, a, b, 50, ma.perc50, mb.perc50, m.perc50);
      UnionBetweenEither(all, a, b, 90, ma.perc90, mb.perc90, m.perc90);
      UnionBetweenEither(all, a, b, 99, ma.perc99, mb.perc99, m.perc99);
    }
  }

  lemma UnionBetweenEither(all: Samples, a: Samples, b: Samples, p: nat, u: int, v: int, r: int)
    requires Split(all, a, b) && p > 0
    requires NearestRank(a, p, u) && NearestRank(b, p, v) && NearestRank(all, p, r)
    ensures Between(u, r, v)
  {
    if u <= v {
      UnionBetween(all, a, b, p, u, v, r);
    } else {
      UnionBetween(all, b, a, p, v, u, r);
    }
  }

  /** If all samples together exceed a threshold, so does one of the two parts. */
  lemma UnionViolation(all: Samples, a: Samples, b: Samples, m: LatencyMetric, ma: LatencyMetric, mb: LatencyMetric,
                       t: Thresholds)
    requires Split(all, a, b) && MetricOf(all, m) && MetricOf(a, ma) && MetricOf(b, mb)
    requires !WithinThresholds(m, t)
    ensures !WithinThresholds(ma, t) || !WithinThresholds(mb, t)
  {
    UnionMetric(all, a, b, m, ma, mb);
  }
}
