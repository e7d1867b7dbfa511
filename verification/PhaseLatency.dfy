/** Phase times per object, transition latencies over them, and the pod startup latency checks. */
module PhaseLatency {
  import opened Options
  import opened Latency

  const MAX_DURATION: int := 0x7fff_ffff_ffff_ffff
  const MIN_DURATION: int := -0x8000_0000_0000_0000

  /** The difference of two times in nanoseconds, held to what a duration can express. */
  function Sub(to: int, from: int): int {
    var d := to - from;
    if d > MAX_DURATION then MAX_DURATION else if d < MIN_DURATION then MIN_DURATION else d
  }

  type Times = map<string, map<string, int>>

  datatype Transition = Transition(from: string, to: string)

  predicate Sampled(times: Times, t: Transition, filter: string -> bool, key: string) {
    key in times && filter(key) && t.from in times[key] && t.to in times[key]
  }

  /** The latencies of a transition: one per matching key with both phases, negative ones counted as zero. */
  ghost function SamplesOf(times: Times, t: Transition, filter: string -> bool): Samples {
    map key | key in times && Sampled(times, t, filter, key) ::
      var d := Sub(times[key][t.to], times[key][t.from]); if d < 0 then 0 else d
  }

  /** A key is sampled exactly when it matches and has both phases; its latency is the time from the
      first to the second phase, nothing if that lies in the past, and no more than a duration holds. */
  lemma SampleMeans(times: Times, t: Transition, filter: string -> bool, key: string)
    ensures
      var samples := SamplesOf(times, t, filter);
      && (key in samples <==> filter(key) && key in times && t.from in times[key] && t.to in times[key])
      && (key in samples ==>
           var start, end := times[key][t.from], times[key][t.to];
           && (end <= start ==> samples[key] == 0)
           && (start <= end <= start + 0x7fff_ffff_ffff_ffff ==> start + samples[key] == end)
           && (end > start + 0x7fff_ffff_ffff_ffff ==> samples[key] == 0x7fff_ffff_ffff_ffff))
  {
  }

  // ---------- sorting ----------

  function Insert(data: seq<Datum>, d: Datum): seq<Datum> {
    if data == [] || d.latency < data[0].latency then [d] + data else [data[0]] + Insert(data[1..], d)
  }

  lemma {:induction false} InsertMembers(data: seq<Datum>, d: Datum)
    ensures forall x :: x in Insert(data, d) <==> x in data || x == d
    ensures |Insert(data, d)| == |data| + 1
  {
    if data == [] || d.latency < data[0].latency {
    } else {
      InsertMembers(data[1..], d);
    }
  }

  lemma {:induction false} InsertSorted(data: seq<Datum>, d: Datum)
    requires Sorted(data)
    ensures Sorted(Insert(data, d))
  {
    if data == [] || d.latency < data[0].latency {
    } else {
      InsertSorted(data[1..], d);
      InsertMembers(data[1..], d);
      var r := Insert(data[1..], d);
      forall i | 0 <= i < |r| ensures data[0].latency <= r[i].latency {
        assert r[i] in r;
      }
    }
  }

  lemma {:induction false} InsertDistinct(data: seq<Datum>, d: Datum)
    requires DistinctKeys(data) && forall x :: x in data ==> x.key != d.key
    ensures DistinctKeys(Insert(data, d))
  {
    if data == [] || d.latency < data[0].latency {
    } else {
      InsertDistinct(data[1..], d);
      InsertMembers(data[1..], d);
      var r := Insert(data[1..], d);
      forall i | 0 <= i < |r| ensures data[0].key != r[i].key {
        assert r[i] in r;
      }
    }
  }

  method Sort(data: seq<Datum>) returns (sorted: seq<Datum>)
    ensures Sorted(sorted)
    ensures |sorted| == |data| && forall d :: d in sorted <==> d in data
    ensures DistinctKeys(data) ==> DistinctKeys(sorted)
  {
    sorted := [];
    for i := 0 to |data|
      invariant Sorted(sorted) && |sorted| == i
      invariant forall d :: d in sorted <==> d in data[..i]
      invariant DistinctKeys(data) ==> DistinctKeys(sorted)
    {
      InsertMembers(sorted, data[i]);
      InsertSorted(sorted, data[i]);
      if DistinctKeys(data) {
        InsertDistinct(sorted, data[i]);
      }
      sorted := Insert(sorted, data[i]);
      assert data[..i + 1] == data[..i] + [data[i]];
    }
    assert data[..|data|] == data;
  }

  // ---------- the table ----------

  class ObjectTransitionTimes {
    var times: Times

    constructor ()
      ensures times == map[]
    {
      times := map[];
    }

    method Set(key: string, phase: string, t: int)
      modifies this
      ensures times.Keys == old(times).Keys + {key}
      ensures forall k :: k in times && k != key ==> times[k] == old(times)[k]
      ensures times[key] == (if key in old(times) then old(times)[key] else map[])[phase := t]
    {
      if key !in times {
        times := times[key := map[]];
      }
      times := times[key := times[key][phase := t]];
    }

    method Get(key: string, phase: string) returns (t: Option<int>)
      ensures t == if key in times && phase in times[key] then Some(times[key][phase]) else None
    {
      if key in times {
        var entry := times[key];
        return if phase in entry then Some(entry[phase]) else None;
      }
      return None;
    }

    /** How many keys have an entry for a phase. */
    method Count(phase: string) returns (count: nat)
      ensures count == |set k | k in times && phase in times[k]|
    {
      count := 0;
      ghost var having := set k | k in times && phase in times[k];
      var todo := times.Keys;
      assert having - todo == {};
      while todo != {}
        invariant todo <= times.Keys && count == |having - todo|
        decreases todo
      {
        var k :| k in todo;
        ghost var counted := having - todo;
        if phase in times[k] {
          count := count + 1;
          assert having - (todo - {k}) == counted + {k};
        } else {
          assert having - (todo - {k}) == counted;
        }
        todo := todo - {k};
      }
      assert having - todo == having;
    }

    /** The latencies of a transition, in whatever order the table is walked. */
    method Lags(t: Transition, filter: string -> bool) returns (lag: seq<Datum>)
      ensures Lists(lag, SamplesOf(times, t, filter))
    {
      ghost var samples := SamplesOf(times, t, filter);
      lag := [];
      var todo := times.Keys;
      while todo != {}
        invariant todo <= times.Keys
        invariant DistinctKeys(lag)
        invariant forall d :: d in lag <==> d.key in samples && d.key !in todo && samples[d.key] == d.latency
        decreases todo
      {
        var key :| key in todo;
        if filter(key) && t.from in times[key] && t.to in times[key] {
          var latencyTime := Sub(times[key][t.to], times[key][t.from]);
          if latencyTime < 0 {
            latencyTime := 0;
          }
          lag := lag + [Datum(key, latencyTime)];
        }
        todo := todo - {key};
      }
    }

    /** The metric of every transition asked for, over the keys that match the filter. */
    method CalculateTransitionsLatency(t: map<string, Transition>, filter: string -> bool)
      returns (metric: map<string, LatencyMetric>)
      ensures metric.Keys == t.Keys
      ensures forall name :: name in t ==> MetricOf(SamplesOf(times, t[name], filter), metric[name])
    {
      metric := map[];
      var todo := t.Keys;
      while todo != {}
        invariant todo <= t.Keys && metric.Keys == t.Keys - todo
        invariant forall name :: name in metric ==> MetricOf(SamplesOf(times, t[name], filter), metric[name])
        decreases todo
      {
        var name :| name in todo;
        var lag := Lags(t[name], filter);
        var sorted := Sort(lag);
        NewLatencyMetricIsNearestRank(sorted, SamplesOf(times, t[name], filter));
        metric := metric[name := NewLatencyMetric(sorted)];
        todo := todo - {name};
      }
    }
  }

  /** Whatever the table holds, reported percentiles are ordered and not negative. */
  lemma ReportedMetricOrdered(times: Times, t: Transition, filter: string -> bool, m: LatencyMetric)
    requires MetricOf(SamplesOf(times, t, filter), m)
    ensures 0 <= m.perc50 <= m.perc90 <= m.perc99
  {
    MetricOrdered(SamplesOf(times, t, filter), m);
  }

  // ---------- stateless and stateful pods ----------

  class PodsMetadata {
    /** Whether each known pod is stateless. */
    var metadata: map<string, bool>

    constructor ()
      ensures metadata == map[]
    {
      metadata := map[];
    }

    method SetStateless(key: string, stateless: bool)
      modifies this
      ensures metadata == old(metadata)[key := stateless]
    {
      metadata := metadata[key := stateless];
    }
  }

  predicate FilterStateless(metadata: map<string, bool>, key: string) {
    key in metadata && metadata[key]
  }

  predicate FilterStateful(metadata: map<string, bool>, key: string) {
    !FilterStateless(metadata, key)
  }

  function MatchAll(): string -> bool {
    _ => true
  }

  function StatelessOnly(metadata: map<string, bool>): string -> bool {
    k => FilterStateless(metadata, k)
  }

  function StatefulOnly(metadata: map<string, bool>): string -> bool {
    k => FilterStateful(metadata, k)
  }

  /** Only pods marked as stateless count as such; all others, known or not, count as stateful. */
  lemma FiltersMean(metadata: map<string, bool>, key: string)
    ensures StatelessOnly(metadata)(key) <==> key in metadata && metadata[key] == true
    ensures StatefulOnly(metadata)(key) <==> key !in metadata || metadata[key] == false
    ensures MatchAll()(key)
  {
  }

  /** The two filters split the samples of any transition. */
  lemma FiltersSplit(times: Times, t: Transition, metadata: map<string, bool>)
    ensures Split(SamplesOf(times, t, MatchAll()), SamplesOf(times, t, StatelessOnly(metadata)),
                  SamplesOf(times, t, StatefulOnly(metadata)))
  {
  }

  // ---------- the pod startup checks ----------

  const POD_STARTUP := "pod_startup"

  datatype Check = Check(summary: map<string, LatencyMetric>, startup: LatencyMetric)

  /** The startup metric of a check is right for the keys that match `filter`. */
  ghost predicate Checks(times: Times, startup: Transition, filter: string -> bool, c: Check) {
    && POD_STARTUP in c.summary && c.summary[POD_STARTUP] == c.startup
    && MetricOf(SamplesOf(times, startup, filter), c.startup)
  }

  ghost predicate Passes(c: Check, thresholds: Thresholds) {
    WithinThresholds(c.startup, thresholds)
  }

  /** A check over all pods finds nothing that the checks over stateless and over stateful pods miss. */
  lemma CombinedCheckAddsNothing(times: Times, startup: Transition, metadata: map<string, bool>,
                                 thresholds: Thresholds, all: Check, stateless: Check, stateful: Check)
    requires Checks(times, startup, MatchAll(), all)
    requires Checks(times, startup, StatelessOnly(metadata), stateless)
    requires Checks(times, startup, StatefulOnly(metadata), stateful)
    ensures Passes(stateless, thresholds) && Passes(stateful, thresholds) ==> Passes(all, thresholds)
  {
    FiltersSplit(times, startup, metadata);
    if !Passes(all, thresholds) {
      UnionViolation(SamplesOf(times, startup, MatchAll()), SamplesOf(times, startup, StatelessOnly(metadata)),
                     SamplesOf(times, startup, StatefulOnly(metadata)),
                     all.startup, stateless.startup, stateful.startup, thresholds);
    }
  }

  /** The error names the lowest percentile that exceeds its threshold. */
  ghost predicate Names(err: Verdict, m: LatencyMetric, t: Thresholds) {
    if m.perc50 > t.perc50 then err == TooHigh50
    else if m.perc90 > t.perc90 then err == TooHigh90
    else m.perc99 > t.perc99 && err == TooHigh99
  }

  /** The verdict of the last check that does not pass. */
  ghost function LastVerdict(checks: seq<Check>, thresholds: Thresholds): Verdict {
    if checks == [] then Passed
    else
      var last := checks[|checks| - 1];
      if Passes(last, thresholds) then LastVerdict(checks[..|checks| - 1], thresholds)
      else VerifyThresholdByPercentile(last.startup, thresholds)
  }

  lemma LastOfThree(a: Check, b: Check, c: Check, thresholds: Thresholds)
    ensures LastVerdict([a, b, c], thresholds) ==
      if !Passes(c, thresholds) then VerifyThresholdByPercentile(c.startup, thresholds)
      else if !Passes(b, thresholds) then VerifyThresholdByPercentile(b.startup, thresholds)
      else VerifyThresholdByPercentile(a.startup, thresholds)
  {
    VerdictMeans(a.startup, thresholds);
    assert [a, b, c][..2] == [a, b] && [a, b][..1] == [a] && [a][..0] == [];
    assert LastVerdict([a], thresholds) == VerifyThresholdByPercentile(a.startup, thresholds);
    assert Passes(b, thresholds) ==> LastVerdict([a, b], thresholds) == LastVerdict([a], thresholds);
  }

  /** One check: the metrics of all transitions over the keys that match `filter`. */
  method RunCheck(entries: ObjectTransitionTimes, filter: string -> bool, transitions: map<string, Transition>)
    returns (c: Check)
    requires POD_STARTUP in transitions
    ensures Checks(entries.times, transitions[POD_STARTUP], filter, c)
  {
    var podStartupLatency := entries.CalculateTransitionsLatency(transitions, filter);
    c := Check(podStartupLatency, podStartupLatency[POD_STARTUP]);
  }

  /** The checks of `gather`, in order: the last violation found is reported, which is never the
      one of the check over all pods, and there is none exactly when the other two checks pass. */
  method GatherChecks(entries: ObjectTransitionTimes, podMetadata: PodsMetadata,
                      transitions: map<string, Transition>, thresholds: Thresholds)
    returns (err: Verdict, all: Check, stateless: Check, stateful: Check)
    requires POD_STARTUP in transitions
    ensures Checks(entries.times, transitions[POD_STARTUP], MatchAll(), all)
    ensures Checks(entries.times, transitions[POD_STARTUP], StatelessOnly(podMetadata.metadata), stateless)
    ensures Checks(entries.times, transitions[POD_STARTUP], StatefulOnly(podMetadata.metadata), stateful)
    ensures err == Passed <==>
      && WithinThresholds(all.startup, thresholds)
      && WithinThresholds(stateless.startup, thresholds)
      && WithinThresholds(stateful.startup, thresholds)
    ensures !WithinThresholds(stateful.startup, thresholds) ==> Names(err, stateful.startup, thresholds)
    ensures WithinThresholds(stateful.startup, thresholds) && !WithinThresholds(stateless.startup, thresholds) ==>
      Names(err, stateless.startup, thresholds)
  {
    all := RunCheck(entries, MatchAll(), transitions);
    stateless := RunCheck(entries, StatelessOnly(podMetadata.metadata), transitions);
    stateful := RunCheck(entries, StatefulOnly(podMetadata.metadata), transitions);
    var checks := [all, stateless, stateful];
    err := Passed;
    for i := 0 to 3
      invariant err == LastVerdict(checks[..i], thresholds)
    {
      assert checks[..i + 1] == checks[..i] + [checks[i]];
      var slosErr := VerifyThresholdByPercentile(checks[i].startup, thresholds);
      VerdictMeans(checks[i].startup, thresholds);
      if slosErr != Passed {
        err := slosErr;
      }
    }
    assert checks[..3] == checks;
    LastOfThree(all, stateless, stateful, thresholds);
    CombinedCheckAddsNothing(entries.times, transitions[POD_STARTUP], podMetadata.metadata, thresholds,
                             all, stateless, stateful);
    VerdictMeans(stateless.startup, thresholds);
    VerdictMeans(stateful.startup, thresholds);
  }
}
