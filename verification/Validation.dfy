/** Validation of a test configuration. */
module Validation {
  import opened Options
  import opened TuningSets

  // ---------- configurations ----------

  datatype NamespaceRange = NamespaceRange(min: int, max: int)
  datatype Object = Object(basename: string, templatePath: string)
  datatype Phase = Phase(
    namespaceList: Option<seq<string>>,
    namespaceRange: Option<NamespaceRange>,
    replicasPerNamespace: int,
    tuningSet: string,
    objectBundle: seq<Object>)
  datatype Measurement = Measurement(method': string, identifier: string, instances: nat)
  datatype Step = Step(phases: seq<Phase>, measurements: seq<Measurement>)
  datatype Dependency = Dependency(name: string, method': string, timeout: int)
  datatype Config = Config(
    automanagedNamespaces: int,
    namespaceNumber: int,
    dependencies: seq<Dependency>,
    tuningSets: seq<TuningSet>,
    steps: seq<Step>)

  /** What the validator asks of its surroundings: the registered methods, the files found, and
      the complaints the Kubernetes name check has about a string. */
  datatype Env = Env(
    dependencyMethods: set<string>,
    measurementMethods: set<string>,
    files: set<string>,
    nameErrors: string -> seq<string>)

  // ---------- what a valid configuration is ----------

  ghost predicate AllOk<T(!new)>(xs: seq<T>, ok: T -> bool) {
    forall x :: x in xs ==> ok(x)
  }

  predicate PositiveLoad(l: Load) {
    match l
    case QPS(x) => x > 0.0
    case Randomized(x) => x > 0.0
    case Stepped(x) => x.burstSize > 0
    case TimeLimited(x) => x > 0
    case RandomizedTimeLimited(x) => x > 0
    case ParallelismLimited(x) => x > 0
    case GlobalQPS(x) => x.qps > 0.0 && x.burst > 0
    case Poisson(x) => x > 0.0
  }

  /** Exactly one load, with positive parameters. */
  ghost predicate ValidTuningSet(ts: TuningSet) {
    exists l :: SingleLoad(ts, l) && PositiveLoad(l)
  }

  ghost predicate ValidDependency(env: Env, d: Dependency) {
    d.name != "" && d.timeout >= 0 && d.method' != "" && d.method' in env.dependencyMethods
  }

  ghost predicate ValidObject(env: Env, o: Object) {
    env.nameErrors(o.basename) == [] && o.templatePath in env.files
  }

  ghost predicate ValidPhase(env: Env, p: Phase) {
    && (p.namespaceRange.Some? ==> p.namespaceList.None? && 0 <= p.namespaceRange.value.min <= p.namespaceRange.value.max)
    && p.replicasPerNamespace >= 0
    && AllOk(p.objectBundle, ObjectOk(env))
  }

  ghost predicate ValidMeasurement(env: Env, m: Measurement) {
    (m.instances == 0 <==> m.identifier != "") && m.method' != "" && m.method' in env.measurementMethods
  }

  ghost predicate ValidStep(env: Env, s: Step) {
    && (s.phases == [] <==> s.measurements != [])
    && AllOk(s.phases, PhaseOk(env))
    && AllOk(s.measurements, MeasurementOk(env))
  }

  ghost predicate ReferenceDeclared(sets: seq<TuningSet>, p: Phase) {
    p.tuningSet != "" ==> exists j :: 0 <= j < |sets| && sets[j].name == p.tuningSet
  }

  ghost predicate ReferencesDeclared(sets: seq<TuningSet>, s: Step) {
    AllOk(s.phases, ReferenceOk(sets))
  }

  ghost predicate ValidConfig(env: Env, c: Config) {
    && c.automanagedNamespaces >= 0
    && c.namespaceNumber > 0
    && AllOk(c.dependencies, DependencyOk(env))
    && AllOk(c.tuningSets, TuningSetOk())
    && c.steps != []
    && AllOk(c.steps, StepOk(env))
    && AllOk(c.steps, ReferencesOk(c.tuningSets))
  }

  ghost function ObjectOk(env: Env): Object -> bool {
    o => ValidObject(env, o)
  }

  ghost function PhaseOk(env: Env): Phase -> bool {
    p => ValidPhase(env, p)
  }

  ghost function MeasurementOk(env: Env): Measurement -> bool {
    m => ValidMeasurement(env, m)
  }

  ghost function StepOk(env: Env): Step -> bool {
    s => ValidStep(env, s)
  }

  ghost function DependencyOk(env: Env): Dependency -> bool {
    d => ValidDependency(env, d)
  }

  ghost function TuningSetOk(): TuningSet -> bool {
    ts => ValidTuningSet(ts)
  }

  ghost function ReferenceOk(sets: seq<TuningSet>): Phase -> bool {
    p => ReferenceDeclared(sets, p)
  }

  ghost function ReferencesOk(sets: seq<TuningSet>): Step -> bool {
    s => ReferencesDeclared(sets, s)
  }

  // ---------- errors and the fields they blame ----------

  datatype Segment = Field(name: string) | Index(i: int)
  datatype Kind = Invalid | Forbidden | Required
  datatype Issue = Issue(path: seq<Segment>, kind: Kind)

  ghost predicate AllUnder(errs: seq<Issue>, path: seq<Segment>) {
    forall e :: e in errs ==> path <= e.path
  }

  ghost predicate Blames(errs: seq<Issue>, path: seq<Segment>) {
    exists e :: e in errs && path <= e.path
  }

  ghost function Item(path: seq<Segment>, i: int): seq<Segment> {
    path + [Index(i)]
  }

  /** The errors of a list of fields: each is about one of them, and exactly those that fail `ok` are blamed. */
  ghost predicate Pinpoints<T(!new)>(errs: seq<Issue>, path: seq<Segment>, xs: seq<T>, ok: T -> bool) {
    && (forall e :: e in errs ==> exists i :: 0 <= i < |xs| && Item(path, i) <= e.path)
    && (forall i :: 0 <= i < |xs| ==> (Blames(errs, Item(path, i)) <==> !ok(xs[i])))
  }

  lemma NoErrors<T(!new)>(errs: seq<Issue>, path: seq<Segment>, xs: seq<T>, ok: T -> bool)
    requires Pinpoints(errs, path, xs, ok)
    ensures errs == [] <==> AllOk(xs, ok)
    ensures AllUnder(errs, path)
  {
    if errs != [] {
      assert errs[0] in errs;
      var i :| 0 <= i < |xs| && Item(path, i) <= errs[0].path;
      assert xs[i] in xs;
    } else {
      forall x | x in xs ensures ok(x) {
        var i :| 0 <= i < |xs| && xs[i] == x;
        assert !Blames(errs, Item(path, i));
      }
    }
    forall e | e in errs ensures path <= e.path {
      var i :| 0 <= i < |xs| && Item(path, i) <= e.path;
      assert path <= Item(path, i);
    }
  }

  lemma PinpointsNext<T(!new)>(errs: seq<Issue>, path: seq<Segment>, xs: seq<T>, n: int, ok: T -> bool, more: seq<Issue>)
    requires 0 <= n < |xs| && Pinpoints(errs, path, xs[..n], ok)
    requires AllUnder(more, Item(path, n)) && (more == [] <==> ok(xs[n]))
    ensures Pinpoints(errs + more, path, xs[..n + 1], ok)
  {
    var all, ys := errs + more, xs[..n + 1];
    forall e | e in all ensures exists i :: 0 <= i < |ys| && Item(path, i) <= e.path {
      if e in errs {
        var i :| 0 <= i < |xs[..n]| && Item(path, i) <= e.path;
        assert 0 <= i < |ys|;
      } else {
        assert Item(path, n) <= e.path;
      }
    }
    forall i | 0 <= i < |ys| ensures Blames(all, Item(path, i)) <==> !ok(ys[i]) {
      BlamesBoth(errs, more, Item(path, i));
      if i < n {
        assert ys[i] == xs[..n][i];
        ApartFrom(more, path, n, i);
      } else {
        OnlyEarlier(errs, path, xs[..n], ok);
        if more != [] {
          assert more[0] in more;
        }
      }
    }
  }

  lemma BlamesBoth(errs: seq<Issue>, more: seq<Issue>, path: seq<Segment>)
    ensures Blames(errs + more, path) <==> Blames(errs, path) || Blames(more, path)
  {
    if e :| e in errs && path <= e.path {
      assert e in errs + more;
    }
    if e :| e in more && path <= e.path {
      assert e in errs + more;
    }
  }

  lemma ApartFrom(errs: seq<Issue>, path: seq<Segment>, n: int, i: int)
    requires AllUnder(errs, Item(path, n)) && i != n
    ensures !Blames(errs, Item(path, i))
  {
    forall e | e in errs ensures !(Item(path, i) <= e.path) {
      assert e.path[|path|] == Index(n);
    }
  }

  lemma OnlyEarlier<T(!new)>(errs: seq<Issue>, path: seq<Segment>, xs: seq<T>, ok: T -> bool)
    requires Pinpoints(errs, path, xs, ok)
    ensures !Blames(errs, Item(path, |xs|))
  {
    forall e | e in errs ensures !(Item(path, |xs|) <= e.path) {
      var i :| 0 <= i < |xs| && Item(path, i) <= e.path;
      assert e.path[|path|] == Index(i);
    }
  }

  // ---------- the validator ----------

  /** Adds an error about a field below `path` when the check `failed`. */
  function Report(errs: seq<Issue>, failed: bool, path: seq<Segment>, below: seq<Segment>, kind: Kind): (errs': seq<Issue>)
    ensures errs' == [] <==> errs == [] && !failed
    ensures AllUnder(errs, path) ==> AllUnder(errs', path)
  {
    if failed then errs + [Issue(path + below, kind)] else errs
  }

  method ValidateLoad(l: Load, path: seq<Segment>) returns (errs: seq<Issue>)
    ensures errs == [] <==>
      match l
      case QPS(qps) => qps > 0.0
      case Randomized(averageQps) => averageQps > 0.0
      case Stepped(stepped) => stepped.burstSize > 0
      case TimeLimited(limit) => limit > 0
      case RandomizedTimeLimited(limit) => limit > 0
      case ParallelismLimited(limit) => limit > 0
      case GlobalQPS(global) => global.qps > 0.0 && global.burst > 0
      case Poisson(expected) => expected > 0.0
    ensures errs == [] <==> PositiveLoad(l)
    ensures AllUnder(errs, path)
  {
    errs := match l
      case QPS(x) => Report([], x <= 0.0, path, [Field("qps")], Invalid)
      case Randomized(x) => Report([], x <= 0.0, path, [Field("averageQps")], Invalid)
      case Stepped(x) => Report([], x.burstSize <= 0, path, [Field("burstSize")], Invalid)
      case TimeLimited(x) => Report([], x <= 0, path, [Field("timeLimit")], Invalid)
      case RandomizedTimeLimited(x) => Report([], x <= 0, path, [Field("timeLimit")], Invalid)
      case ParallelismLimited(x) => Report([], x <= 0, path, [Field("parallelismLimit")], Invalid)
      case GlobalQPS(x) =>
        Report(Report([], x.qps <= 0.0, path, [Field("qps")], Invalid), x.burst <= 0, path, [Field("burst")], Invalid)
      case Poisson(x) => Report([], x <= 0.0, path, [Field("expectedActionsPerSecond")], Invalid);
  }

  /** Checks one load if it is there, and counts it. */
  method CountLoad(slots: seq<Option<Load>>, i: nat, path: seq<Segment>, name: string, errs: seq<Issue>, number: nat)
    returns (errs': seq<Issue>, number': nat)
    requires i < |slots| && AllUnder(errs, path)
    requires number == CountUpTo(slots, i) && (errs == [] <==> AllPositive(slots[..i]))
    ensures AllUnder(errs', path)
    ensures number' == CountUpTo(slots, i + 1) && (errs' == [] <==> AllPositive(slots[..i + 1]))
  {
    assert slots[..i + 1] == slots[..i] + [slots[i]];
    if slots[i].None? {
      return errs, number;
    }
    var more := ValidateLoad(slots[i].value, path + [Field(name)]);
    UnderParent(more, path, Field(name));
    return errs + more, number + 1;
  }

  predicate PositiveIfPresent(l: Option<Load>) {
    l.Some? ==> PositiveLoad(l.value)
  }

  function Present(l: Option<Load>): nat {
    if l.Some? then 1 else 0
  }

  /** The eight fields, in the order in which they are looked at. */
  function Slots(ts: TuningSet): (slots: seq<Option<Load>>)
    ensures |slots| == 8
  {
    [ if ts.qpsLoad.Some? then Some(QPS(ts.qpsLoad.value)) else None,
      if ts.randomizedLoad.Some? then Some(Randomized(ts.randomizedLoad.value)) else None,
      if ts.steppedLoad.Some? then Some(Stepped(ts.steppedLoad.value)) else None,
      if ts.timeLimitedLoad.Some? then Some(TimeLimited(ts.timeLimitedLoad.value)) else None,
      if ts.randomizedTimeLimitedLoad.Some? then Some(RandomizedTimeLimited(ts.randomizedTimeLimitedLoad.value)) else None,
      if ts.parallelismLimitedLoad.Some? then Some(ParallelismLimited(ts.parallelismLimitedLoad.value)) else None,
      if ts.globalQPSLoad.Some? then Some(GlobalQPS(ts.globalQPSLoad.value)) else None,
      if ts.poissonLoad.Some? then Some(Poisson(ts.poissonLoad.value)) else None ]
  }

  lemma SlotsHoldLoads(ts: TuningSet, l: Load)
    ensures HasLoad(ts, l) <==> Slots(ts)[Rank(l)] == Some(l)
    ensures forall i :: 0 <= i < 8 && Slots(ts)[i].Some? ==> Rank(Slots(ts)[i].value) == i
  {
  }

  ghost predicate OnlySlot(slots: seq<Option<Load>>, k: int) {
    0 <= k < |slots| && slots[k].Some? && forall i :: 0 <= i < |slots| && i != k ==> slots[i].None?
  }

  ghost predicate AllPositive(slots: seq<Option<Load>>) {
    forall i :: 0 <= i < |slots| ==> PositiveIfPresent(slots[i])
  }

  lemma OnlySlotIsSingle(ts: TuningSet, k: int)
    requires OnlySlot(Slots(ts), k)
    ensures SingleLoad(ts, Slots(ts)[k].value)
  {
    var l := Slots(ts)[k].value;
    SlotsHoldLoads(ts, l);
    forall other | HasLoad(ts, other) ensures other == l {
      SlotsHoldLoads(ts, other);
    }
  }

  lemma SingleIsOnlySlot(ts: TuningSet, l: Load)
    requires SingleLoad(ts, l)
    ensures OnlySlot(Slots(ts), Rank(l)) && Slots(ts)[Rank(l)] == Some(l)
  {
    SlotsHoldLoads(ts, l);
    forall i | 0 <= i < 8 && i != Rank(l) ensures Slots(ts)[i].None? {
      if Slots(ts)[i].Some? {
        SlotsHoldLoads(ts, Slots(ts)[i].value);
      }
    }
  }

  lemma SlotsDecide(ts: TuningSet)
    ensures ValidTuningSet(ts) <==> (exists k :: OnlySlot(Slots(ts), k)) && AllPositive(Slots(ts))
  {
    if ValidTuningSet(ts) {
      var l :| SingleLoad(ts, l) && PositiveLoad(l);
      SingleIsOnlySlot(ts, l);
    }
    if k :| OnlySlot(Slots(ts), k) {
      OnlySlotIsSingle(ts, k);
      assert AllPositive(Slots(ts)) ==> PositiveIfPresent(Slots(ts)[k]);
    }
  }

  function CountUpTo(slots: seq<Option<Load>>, n: nat): nat
    requires n <= |slots|
  {
    if n == 0 then 0 else CountUpTo(slots, n - 1) + Present(slots[n - 1])
  }

  lemma {:induction false} CountZero(slots: seq<Option<Load>>, n: nat)
    requires n <= |slots|
    ensures CountUpTo(slots, n) == 0 <==> forall i :: 0 <= i < n ==> slots[i].None?
  {
    if n == 0 {
    } else {
      CountZero(slots, n - 1);
    }
  }

  lemma {:induction false} CountOne(slots: seq<Option<Load>>, n: nat)
    requires n <= |slots|
    ensures CountUpTo(slots, n) == 1 <==> exists k :: OnlySlot(slots[..n], k)
  {
    if n == 0 {
    } else {
      CountOne(slots, n - 1);
      CountZero(slots, n - 1);
      var before, upTo := slots[..n - 1], slots[..n];
      assert forall i :: 0 <= i < n - 1 ==> before[i] == upTo[i];
      if k :| OnlySlot(before, k) {
        assert slots[n - 1].None? ==> OnlySlot(upTo, k);
      }
      if CountUpTo(slots, n - 1) == 0 && slots[n - 1].Some? {
        assert OnlySlot(upTo, n - 1);
      }
      if k :| OnlySlot(upTo, k) {
        assert k < n - 1 ==> OnlySlot(before, k);
      }
    }
  }

  method ValidateTuningSet(ts: TuningSet, path: seq<Segment>) returns (errs: seq<Issue>)
    ensures errs == [] <==> ValidTuningSet(ts)
    ensures AllUnder(errs, path)
  {
    var number: nat;
    errs, number := ValidateSlots(Slots(ts), path);
    CountOne(Slots(ts), 8);
    assert Slots(ts)[..8] == Slots(ts);
    SlotsDecide(ts);
    errs := Report(errs, number != 1, path, [], Forbidden);
  }

  method ValidateSlots(slots: seq<Option<Load>>, path: seq<Segment>) returns (errs: seq<Issue>, number: nat)
    requires |slots| == 8
    ensures AllUnder(errs, path)
    ensures number == CountUpTo(slots, 8)
    ensures errs == [] <==> AllPositive(slots)
  {
    errs, number := [], 0;
    errs, number := CountLoad(slots, 0, path, "qpsLoad", errs, number);
    errs, number := CountLoad(slots, 1, path, "randomizedLoad", errs, number);
    errs, number := CountLoad(slots, 2, path, "steppedLoad", errs, number);
    errs, number := CountLoad(slots, 3, path, "timeLimitedLoad", errs, number);
    errs, number := CountLoad(slots, 4, path, "randomizedTimeLimitedLoad", errs, number);
    errs, number := CountLoad(slots, 5, path, "parallelismLimitedLoad", errs, number);
    errs, number := CountLoad(slots, 6, path, "globalQPSLoad", errs, number);
    errs, number := CountLoad(slots, 7, path, "poissonLoad", errs, number);
    assert slots[..8] == slots;
  }

  method ValidateTuningSets(sets: seq<TuningSet>, path: seq<Segment>) returns (errs: seq<Issue>)
    ensures Pinpoints(errs, path, sets, TuningSetOk())
  {
    errs := [];
    for i := 0 to |sets|
      invariant Pinpoints(errs, path, sets[..i], TuningSetOk())
    {
      var more := ValidateTuningSet(sets[i], path + [Index(i)]);
      PinpointsNext(errs, path, sets, i, TuningSetOk(), more);
      errs := errs + more;
    }
    assert sets[..|sets|] == sets;
  }

  method ValidateDependency(env: Env, d: Dependency, path: seq<Segment>) returns (errs: seq<Issue>)
    ensures errs == [] <==> d.name != "" && d.timeout >= 0 && d.method' != "" && d.method' in env.dependencyMethods
    ensures errs == [] <==> ValidDependency(env, d)
    ensures AllUnder(errs, path)
  {
    errs := [];
    errs := Report(errs, d.name == "", path, [Field("name")], Required);
    errs := Report(errs, d.timeout < 0, path, [Field("timeout")], Invalid);
    errs := Report(errs, d.method' == "", path, [Field("method")], Required);
    errs := Report(errs, d.method' !in env.dependencyMethods, path, [Field("method")], Invalid);
  }

  method ValidateDependencies(env: Env, ds: seq<Dependency>, path: seq<Segment>) returns (errs: seq<Issue>)
    ensures Pinpoints(errs, path, ds, DependencyOk(env))
  {
    errs := [];
    for i := 0 to |ds|
      invariant Pinpoints(errs, path, ds[..i], DependencyOk(env))
    {
      var more := ValidateDependency(env, ds[i], path + [Index(i)]);
      PinpointsNext(errs, path, ds, i, DependencyOk(env), more);
      errs := errs + more;
    }
    assert ds[..|ds|] == ds;
  }

  method ValidateObject(env: Env, o: Object, path: seq<Segment>) returns (errs: seq<Issue>)
    ensures errs == [] <==> env.nameErrors(o.basename) == [] && o.templatePath in env.files
    ensures errs == [] <==> ValidObject(env, o)
    ensures AllUnder(errs, path)
  {
    errs := [];
    var complaints := env.nameErrors(o.basename);
    for i := 0 to |complaints|
      invariant |errs| == i && AllUnder(errs, path)
    {
      errs := errs + [Issue(path + [Field("basename")], Invalid)];
    }
    errs := Report(errs, o.templatePath !in env.files, path, [Field("objectTemplatePath")], Invalid);
  }

  method ValidateObjects(env: Env, os: seq<Object>, path: seq<Segment>) returns (errs: seq<Issue>)
    ensures Pinpoints(errs, path, os, ObjectOk(env))
  {
    errs := [];
    for i := 0 to |os|
      invariant Pinpoints(errs, path, os[..i], ObjectOk(env))
    {
      var more := ValidateObject(env, os[i], path + [Index(i)]);
      PinpointsNext(errs, path, os, i, ObjectOk(env), more);
      errs := errs + more;
    }
    assert os[..|os|] == os;
  }

  lemma UnderParent(errs: seq<Issue>, path: seq<Segment>, child: Segment)
    requires AllUnder(errs, path + [child])
    ensures AllUnder(errs, path)
  {
    assert path <= path + [child];
  }

  method ValidatePhase(env: Env, p: Phase, path: seq<Segment>) returns (errs: seq<Issue>)
    ensures errs == [] <==>
      && (p.namespaceList.None? || p.namespaceRange.None?)
      && (p.namespaceRange.Some? ==> 0 <= p.namespaceRange.value.min <= p.namespaceRange.value.max)
      && p.replicasPerNamespace >= 0
      && forall o :: o in p.objectBundle ==> ValidObject(env, o)
    ensures errs == [] <==> ValidPhase(env, p)
    ensures AllUnder(errs, path)
  {
    errs := [];
    errs := Report(errs, p.namespaceList.Some? && p.namespaceRange.Some?, path, [], Forbidden);
    if p.namespaceRange.Some? {
      var nr := p.namespaceRange.value;
      errs := Report(errs, nr.min < 0, path, [Field("namespaceRange"), Field("min")], Invalid);
      errs := Report(errs, nr.max < nr.min, path, [Field("namespaceRange"), Field("max")], Invalid);
    }
    errs := Report(errs, p.replicasPerNamespace < 0, path, [Field("replicasPerNamespace")], Invalid);
    var more := ValidateObjects(env, p.objectBundle, path + [Field("objectBundle")]);
    NoErrors(more, path + [Field("objectBundle")], p.objectBundle, ObjectOk(env));
    UnderParent(more, path, Field("objectBundle"));
    errs := errs + more;
  }

  method ValidatePhases(env: Env, ps: seq<Phase>, path: seq<Segment>) returns (errs: seq<Issue>)
    ensures Pinpoints(errs, path, ps, PhaseOk(env))
  {
    errs := [];
    for i := 0 to |ps|
      invariant Pinpoints(errs, path, ps[..i], PhaseOk(env))
    {
      var more := ValidatePhase(env, ps[i], path + [Index(i)]);
      PinpointsNext(errs, path, ps, i, PhaseOk(env), more);
      errs := errs + more;
    }
    assert ps[..|ps|] == ps;
  }

  method ValidateMeasurement(env: Env, m: Measurement, path: seq<Segment>) returns (errs: seq<Issue>)
    ensures errs == [] <==>
      && (m.identifier == "" <==> m.instances > 0)
      && m.method' != "" && m.method' in env.measurementMethods
    ensures errs == [] <==> ValidMeasurement(env, m)
    ensures AllUnder(errs, path)
  {
    errs := [];
    errs := Report(errs, m.instances != 0 && m.identifier != "", path, [Field("Identifier")], Invalid);
    errs := Report(errs, m.instances == 0 && m.identifier == "", path, [Field("Identifier")], Invalid);
    errs := Report(errs, m.method' == "", path, [Field("method")], Required);
    errs := Report(errs, m.method' !in env.measurementMethods, path, [Field("method")], Invalid);
  }

  method ValidateMeasurements(env: Env, ms: seq<Measurement>, path: seq<Segment>) returns (errs: seq<Issue>)
    ensures Pinpoints(errs, path, ms, MeasurementOk(env))
  {
    errs := [];
    for i := 0 to |ms|
      invariant Pinpoints(errs, path, ms[..i], MeasurementOk(env))
    {
      var more := ValidateMeasurement(env, ms[i], path + [Index(i)]);
      PinpointsNext(errs, path, ms, i, MeasurementOk(env), more);
      errs := errs + more;
    }
    assert ms[..|ms|] == ms;
  }

  /** A valid step has phases or measurements but not both, and all of them are valid. */
  lemma ValidStepMeans(env: Env, s: Step)
    ensures ValidStep(env, s) <==>
      && ((s.phases == [] && s.measurements != []) || (s.phases != [] && s.measurements == []))
      && (forall p :: p in s.phases ==> ValidPhase(env, p))
      && (forall m :: m in s.measurements ==> ValidMeasurement(env, m))
  {
  }

  method ValidateStep(env: Env, s: Step, path: seq<Segment>) returns (errs: seq<Issue>)
    ensures errs == [] <==> ValidStep(env, s)
    ensures AllUnder(errs, path)
  {
    errs := ValidatePhases(env, s.phases, path + [Field("phases")]);
    NoErrors(errs, path + [Field("phases")], s.phases, PhaseOk(env));
    UnderParent(errs, path, Field("phases"));
    var more := ValidateMeasurements(env, s.measurements, path + [Field("measurements")]);
    NoErrors(more, path + [Field("measurements")], s.measurements, MeasurementOk(env));
    UnderParent(more, path, Field("measurements"));
    errs := errs + more;
    errs := Report(errs, s.phases == [] && s.measurements == [], path, [Field("measurements")], Invalid);
    errs := Report(errs, s.phases != [] && s.measurements != [], path, [Field("measurements")], Invalid);
  }

  method ValidateSteps(env: Env, ss: seq<Step>, path: seq<Segment>) returns (errs: seq<Issue>)
    ensures Pinpoints(errs, path, ss, StepOk(env))
  {
    errs := [];
    for i := 0 to |ss|
      invariant Pinpoints(errs, path, ss[..i], StepOk(env))
    {
      var more := ValidateStep(env, ss[i], path + [Index(i)]);
      PinpointsNext(errs, path, ss, i, StepOk(env), more);
      errs := errs + more;
    }
    assert ss[..|ss|] == ss;
  }

  method ValidateTuningSetInPhase(s: Step, sets: seq<TuningSet>, path: seq<Segment>) returns (errs: seq<Issue>)
    ensures Pinpoints(errs, path + [Field("phases")], s.phases, ReferenceOk(sets))
  {
    errs := [];
    for i := 0 to |s.phases|
      invariant Pinpoints(errs, path + [Field("phases")], s.phases[..i], ReferenceOk(sets))
    {
      var more := [];
      if s.phases[i].tuningSet != "" {
        var found := false;
        for j := 0 to |sets|
          invariant !found && forall k :: 0 <= k < j ==> sets[k].name != s.phases[i].tuningSet
        {
          if s.phases[i].tuningSet == sets[j].name {
            found := true;
            break;
          }
        }
        if !found {
          more := [Issue(path + [Field("phases"), Index(i), Field("tuningSet")], Invalid)];
          assert Item(path + [Field("phases")], i) <= more[0].path;
        }
      }
      PinpointsNext(errs, path + [Field("phases")], s.phases, i, ReferenceOk(sets), more);
      errs := errs + more;
    }
    assert s.phases[..|s.phases|] == s.phases;
  }

  method HandleTuningSetInPhase(c: Config, path: seq<Segment>) returns (errs: seq<Issue>)
    ensures Pinpoints(errs, path, c.steps, ReferencesOk(c.tuningSets))
  {
    errs := [];
    for i := 0 to |c.steps|
      invariant Pinpoints(errs, path, c.steps[..i], ReferencesOk(c.tuningSets))
    {
      var more := ValidateTuningSetInPhase(c.steps[i], c.tuningSets, path + [Index(i)]);
      NoErrors(more, Item(path, i) + [Field("phases")], c.steps[i].phases, ReferenceOk(c.tuningSets));
      UnderParent(more, Item(path, i), Field("phases"));
      PinpointsNext(errs, path, c.steps, i, ReferencesOk(c.tuningSets), more);
      errs := errs + more;
    }
    assert c.steps[..|c.steps|] == c.steps;
  }

  lemma BlamesParts(general: seq<Issue>, deps: seq<Issue>, sets: seq<Issue>, empty: seq<Issue>,
                    steps: seq<Issue>, refs: seq<Issue>, path: seq<Segment>)
    ensures Blames(general + deps + sets + empty + steps + refs, path) <==>
      || Blames(general, path) || Blames(deps, path) || Blames(sets, path)
      || Blames(empty, path) || Blames(steps, path) || Blames(refs, path)
  {
    BlamesBoth(general + deps + sets + empty + steps, refs, path);
    BlamesBoth(general + deps + sets + empty, steps, path);
    BlamesBoth(general + deps + sets, empty, path);
    BlamesBoth(general + deps, sets, path);
    BlamesBoth(general, deps, path);
  }

  /** The errors of one list never blame an item of another. */
  lemma OtherList(errs: seq<Issue>, f: string, g: string, i: int)
    requires AllUnder(errs, [Field(f)]) && f != g
    ensures !Blames(errs, Item([Field(g)], i))
  {
    forall e | e in errs ensures !(Item([Field(g)], i) <= e.path) {
      assert e.path[0] == Field(f);
    }
  }

  /** Errors about neither list, and errors about the list as a whole, blame none of its items. */
  ghost predicate AboutNoItem(errs: seq<Issue>) {
    forall e :: e in errs ==>
      || e.path == [Field("automanagedNamespaces")]
      || e.path == [Field("namespace"), Field("number")]
      || e.path == [Field("steps")]
  }

  lemma NoItemBlamed(errs: seq<Issue>, g: string, i: int)
    requires AboutNoItem(errs)
    ensures !Blames(errs, Item([Field(g)], i))
  {
    forall e | e in errs ensures !(Item([Field(g)], i) <= e.path) {
      assert Item([Field(g)], i)[1] == Index(i);
      assert |e.path| > 1 ==> e.path[1] == Field("number");
    }
  }

  /** No error exactly when the configuration is valid; and a dependency, tuning set or step is
      blamed exactly when it is at fault. */
  method Validate(env: Env, c: Config) returns (errs: seq<Issue>)
    ensures errs == [] <==> ValidConfig(env, c)
    ensures forall i :: 0 <= i < |c.dependencies| ==>
      (Blames(errs, Item([Field("dependencies")], i)) <==> !ValidDependency(env, c.dependencies[i]))
    ensures forall i :: 0 <= i < |c.tuningSets| ==>
      (Blames(errs, Item([Field("tuningSets")], i)) <==> !ValidTuningSet(c.tuningSets[i]))
    ensures forall i :: 0 <= i < |c.steps| ==>
      (Blames(errs, Item([Field("steps")], i)) <==>
        !(ValidStep(env, c.steps[i]) && ReferencesDeclared(c.tuningSets, c.steps[i])))
  {
    var general := [];
    if c.automanagedNamespaces < 0 {
      general := general + [Issue([Field("automanagedNamespaces")], Invalid)];
    }
    if c.namespaceNumber <= 0 {
      general := general + [Issue([Field("namespace"), Field("number")], Invalid)];
    }
    var deps := ValidateDependencies(env, c.dependencies, [Field("dependencies")]);
    var sets := ValidateTuningSets(c.tuningSets, [Field("tuningSets")]);
    var empty := [];
    if |c.steps| == 0 {
      empty := [Issue([Field("steps")], Invalid)];
    }
    var steps := ValidateSteps(env, c.steps, [Field("steps")]);
    var refs := HandleTuningSetInPhase(c, [Field("steps")]);
    errs := Joined(general, deps, sets, empty, steps, refs);
    JoinedEmpty(env, c, general, deps, sets, empty, steps, refs);
    forall i | 0 <= i < |c.dependencies|
      ensures Blames(errs, Item([Field("dependencies")], i)) <==> !ValidDependency(env, c.dependencies[i])
    {
      JoinedBlames(env, c, general, deps, sets, empty, steps, refs, "dependencies", i);
    }
    forall i | 0 <= i < |c.tuningSets|
      ensures Blames(errs, Item([Field("tuningSets")], i)) <==> !ValidTuningSet(c.tuningSets[i])
    {
      JoinedBlames(env, c, general, deps, sets, empty, steps, refs, "tuningSets", i);
    }
    forall i | 0 <= i < |c.steps|
      ensures Blames(errs, Item([Field("steps")], i)) <==>
        !(ValidStep(env, c.steps[i]) && ReferencesDeclared(c.tuningSets, c.steps[i]))
    {
      JoinedBlames(env, c, general, deps, sets, empty, steps, refs, "steps", i);
    }
  }

  ghost predicate Parts(env: Env, c: Config, general: seq<Issue>, deps: seq<Issue>, sets: seq<Issue>,
                        empty: seq<Issue>, steps: seq<Issue>, refs: seq<Issue>)
  {
    && AboutNoItem(general) && AboutNoItem(empty)
    && (general == [] <==> c.automanagedNamespaces >= 0 && c.namespaceNumber > 0)
    && (empty == [] <==> c.steps != [])
    && Pinpoints(deps, [Field("dependencies")], c.dependencies, DependencyOk(env))
    && Pinpoints(sets, [Field("tuningSets")], c.tuningSets, TuningSetOk())
    && Pinpoints(steps, [Field("steps")], c.steps, StepOk(env))
    && Pinpoints(refs, [Field("steps")], c.steps, ReferencesOk(c.tuningSets))
  }

  function Joined(general: seq<Issue>, deps: seq<Issue>, sets: seq<Issue>, empty: seq<Issue>,
                  steps: seq<Issue>, refs: seq<Issue>): seq<Issue>
  {
    general + deps + sets + empty + steps + refs
  }

  lemma JoinedBlames(env: Env, c: Config, general: seq<Issue>, deps: seq<Issue>, sets: seq<Issue>,
                     empty: seq<Issue>, steps: seq<Issue>, refs: seq<Issue>, g: string, i: int)
    requires Parts(env, c, general, deps, sets, empty, steps, refs)
    ensures Blames(Joined(general, deps, sets, empty, steps, refs), Item([Field(g)], i)) <==>
      || (g == "dependencies" && Blames(deps, Item([Field(g)], i)))
      || (g == "tuningSets" && Blames(sets, Item([Field(g)], i)))
      || (g == "steps" && (Blames(steps, Item([Field(g)], i)) || Blames(refs, Item([Field(g)], i))))
  {
    NoErrors(deps, [Field("dependencies")], c.dependencies, DependencyOk(env));
    NoErrors(sets, [Field("tuningSets")], c.tuningSets, TuningSetOk());
    NoErrors(steps, [Field("steps")], c.steps, StepOk(env));
    NoErrors(refs, [Field("steps")], c.steps, ReferencesOk(c.tuningSets));
    BlamesParts(general, deps, sets, empty, steps, refs, Item([Field(g)], i));
    NoItemBlamed(general, g, i);
    NoItemBlamed(empty, g, i);
    if g != "dependencies" { OtherList(deps, "dependencies", g, i); }
    if g != "tuningSets" { OtherList(sets, "tuningSets", g, i); }
    if g != "steps" { OtherList(steps, "steps", g, i); OtherList(refs, "steps", g, i); }
  }

  lemma JoinedEmpty(env: Env, c: Config, general: seq<Issue>, deps: seq<Issue>, sets: seq<Issue>,
                    empty: seq<Issue>, steps: seq<Issue>, refs: seq<Issue>)
    requires Parts(env, c, general, deps, sets, empty, steps, refs)
    ensures Joined(general, deps, sets, empty, steps, refs) == [] <==> ValidConfig(env, c)
  {
    NoErrors(deps, [Field("dependencies")], c.dependencies, DependencyOk(env));
    NoErrors(sets, [Field("tuningSets")], c.tuningSets, TuningSetOk());
    NoErrors(steps, [Field("steps")], c.steps, StepOk(env));
    NoErrors(refs, [Field("steps")], c.steps, ReferencesOk(c.tuningSets));
  }

  // ---------- what an accepted configuration resolves to ----------

  /** What a valid configuration is, item by item. */
  lemma ValidConfigMeans(env: Env, c: Config)
    ensures ValidConfig(env, c) <==>
      && c.automanagedNamespaces >= 0 && c.namespaceNumber >= 1 && |c.steps| >= 1
      && (forall d :: d in c.dependencies ==> ValidDependency(env, d))
      && (forall ts :: ts in c.tuningSets ==> exists l :: SingleLoad(ts, l) && PositiveLoad(l))
      && (forall s :: s in c.steps ==> ValidStep(env, s))
      && (forall s, p :: s in c.steps && p in s.phases && p.tuningSet != "" ==>
            exists ts :: ts in c.tuningSets && ts.name == p.tuningSet)
  {
    if ValidConfig(env, c) {
      forall s, p | s in c.steps && p in s.phases && p.tuningSet != ""
        ensures exists ts :: ts in c.tuningSets && ts.name == p.tuningSet
      {
        assert ReferencesDeclared(c.tuningSets, s) && ReferenceDeclared(c.tuningSets, p);
        var j :| 0 <= j < |c.tuningSets| && c.tuningSets[j].name == p.tuningSet;
        assert c.tuningSets[j] in c.tuningSets;
      }
    }
    forall s, p | s in c.steps && p in s.phases && exists ts :: ts in c.tuningSets && ts.name == p.tuningSet
      ensures ReferenceDeclared(c.tuningSets, p)
    {
      var ts :| ts in c.tuningSets && ts.name == p.tuningSet;
      var j :| 0 <= j < |c.tuningSets| && c.tuningSets[j] == ts;
    }
    assert (forall s, p :: s in c.steps && p in s.phases ==> ReferenceDeclared(c.tuningSets, p)) <==>
           AllOk(c.steps, ReferencesOk(c.tuningSets));
  }

  /** The name a phase gives, if any, leads the factory to the last set declared under it; that set
      has one load only, so it is the one created, and its parameters are positive. */
  lemma AcceptedResolves(env: Env, c: Config, s: int, p: int) returns (k: int, l: Load)
    requires ValidConfig(env, c)
    requires 0 <= s < |c.steps| && 0 <= p < |c.steps[s].phases| && c.steps[s].phases[p].tuningSet != ""
    ensures LastOfItsName(c.tuningSets, k) && c.tuningSets[k].name == c.steps[s].phases[p].tuningSet
    ensures c.tuningSets[k].name in Declared(c.tuningSets) && Declared(c.tuningSets)[c.tuningSets[k].name] == c.tuningSets[k]
    ensures SingleLoad(c.tuningSets[k], l) && PositiveLoad(l)
    ensures forall other :: FirstLoad(c.tuningSets[k], other) <==> other == l
  {
    var phase := c.steps[s].phases[p];
    assert c.steps[s] in c.steps && phase in c.steps[s].phases;
    assert ReferenceDeclared(c.tuningSets, phase);
    k := DeclaredIsLast(c.tuningSets, phase.tuningSet);
    assert c.tuningSets[k] in c.tuningSets;
    l :| SingleLoad(c.tuningSets[k], l) && PositiveLoad(l);
  }

  /** An accepted phase finds its tuning set exactly when it names one, or leaves the name out
      and some set is declared without a name. */
  lemma AcceptedRunsIff(env: Env, c: Config, s: int, p: int)
    requires ValidConfig(env, c)
    requires 0 <= s < |c.steps| && 0 <= p < |c.steps[s].phases|
    ensures c.steps[s].phases[p].tuningSet in Declared(c.tuningSets) <==>
      c.steps[s].phases[p].tuningSet != "" || exists i :: 0 <= i < |c.tuningSets| && c.tuningSets[i].name == ""
  {
    var k := DeclaredIsLast(c.tuningSets, c.steps[s].phases[p].tuningSet);
    if c.steps[s].phases[p].tuningSet != "" {
      var k', l := AcceptedResolves(env, c, s, p);
    }
  }

  /** Acceptance alone is not enough: a phase that names no tuning set passes and cannot be created. */
  lemma AcceptedWithoutTuningSet(env: Env) returns (c: Config)
    ensures ValidConfig(env, c)
    ensures |c.steps| == 1 && |c.steps[0].phases| == 1
    ensures c.steps[0].phases[0].tuningSet !in Declared(c.tuningSets)
  {
    var phase := Phase(None, None, 1, "", []);
    c := Config(0, 1, [], [], [Step([phase], [])]);
    assert ValidPhase(env, phase) && ReferenceDeclared([], phase);
    assert ValidStep(env, c.steps[0]) && ReferencesDeclared([], c.steps[0]);
  }
}
