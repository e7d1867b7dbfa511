/** Declared tuning sets and the factory that turns a name into a runnable load. */
module TuningSets {
  import opened Options

  datatype SteppedLoad = SteppedLoad(burstSize: int, stepDelay: int)
  datatype GlobalQPSLoad = GlobalQPSLoad(qps: real, burst: int)

  /** A declared set: any of the eight loads may be present. Durations are nanoseconds. */
  datatype TuningSet = TuningSet(
    name: string,
    qpsLoad: Option<real>,
    randomizedLoad: Option<real>,
    steppedLoad: Option<SteppedLoad>,
    timeLimitedLoad: Option<int>,
    randomizedTimeLimitedLoad: Option<int>,
    parallelismLimitedLoad: Option<int>,
    globalQPSLoad: Option<GlobalQPSLoad>,
    poissonLoad: Option<real>)

  /** One load kind with its parameters. */
  datatype Load =
    | QPS(qps: real)
    | Randomized(averageQps: real)
    | Stepped(stepped: SteppedLoad)
    | TimeLimited(timeLimit: int)
    | RandomizedTimeLimited(randomTimeLimit: int)
    | ParallelismLimited(parallelismLimit: int)
    | GlobalQPS(globalQps: GlobalQPSLoad)
    | Poisson(actionsPerSecond: real)

  ghost predicate HasLoad(ts: TuningSet, l: Load) {
    match l
    case QPS(x) => ts.qpsLoad == Some(x)
    case Randomized(x) => ts.randomizedLoad == Some(x)
    case Stepped(x) => ts.steppedLoad == Some(x)
    case TimeLimited(x) => ts.timeLimitedLoad == Some(x)
    case RandomizedTimeLimited(x) => ts.randomizedTimeLimitedLoad == Some(x)
    case ParallelismLimited(x) => ts.parallelismLimitedLoad == Some(x)
    case GlobalQPS(x) => ts.globalQPSLoad == Some(x)
    case Poisson(x) => ts.poissonLoad == Some(x)
  }

  ghost predicate SingleLoad(ts: TuningSet, l: Load) {
    HasLoad(ts, l) && forall other :: HasLoad(ts, other) ==> other == l
  }

  /** The order in which the factory looks at the kinds. */
  ghost function Rank(l: Load): nat {
    match l
    case QPS(_) => 0
    case Randomized(_) => 1
    case Stepped(_) => 2
    case TimeLimited(_) => 3
    case RandomizedTimeLimited(_) => 4
    case ParallelismLimited(_) => 5
    case GlobalQPS(_) => 6
    case Poisson(_) => 7
  }

  ghost predicate FirstLoad(ts: TuningSet, l: Load) {
    HasLoad(ts, l) && forall other :: HasLoad(ts, other) ==> Rank(l) <= Rank(other)
  }

  // ---------- the declared sets ----------

  ghost function Declared(sets: seq<TuningSet>): map<string, TuningSet> {
    if sets == [] then map[]
    else
      var last := sets[|sets| - 1];
      Declared(sets[..|sets| - 1])[last.name := last]
  }

  ghost predicate LastOfItsName(sets: seq<TuningSet>, k: int) {
    0 <= k < |sets| && forall j :: k < j < |sets| ==> sets[j].name != sets[k].name
  }

  /** A name resolves exactly when some set carries it, and then to the last one that does. */
  lemma {:induction false} DeclaredIsLast(sets: seq<TuningSet>, name: string) returns (k: int)
    ensures name in Declared(sets) <==> exists i :: 0 <= i < |sets| && sets[i].name == name
    ensures name in Declared(sets) ==> LastOfItsName(sets, k) && sets[k].name == name && Declared(sets)[name] == sets[k]
  {
    k := 0;
    if sets == [] {
    } else {
      var n := |sets| - 1;
      k := DeclaredIsLast(sets[..n], name);
      assert forall i :: 0 <= i < n ==> sets[..n][i] == sets[i];
      if sets[n].name == name {
        k := n;
      } else if name in Declared(sets) {
        assert sets[..n][k] == sets[k];
      }
    }
  }

  // ---------- the factory ----------

  /** A rate limiter: calls that get the same object share one budget. */
  class Limiter {
    const params: GlobalQPSLoad

    constructor (params: GlobalQPSLoad)
      ensures this.params == params
    {
      this.params := params;
    }
  }

  class GlobalQPSLoadFactory {
    var existing: map<string, Limiter>

    /** No two names share a limiter. */
    ghost predicate Valid()
      reads this
    {
      forall m, n :: m in existing && n in existing && m != n ==> existing[m] != existing[n]
    }

    constructor ()
      ensures Valid() && existing == map[]
    {
      existing := map[];
    }

    method GetOrCreate(name: string, params: GlobalQPSLoad) returns (limiter: Limiter)
      requires Valid()
      modifies this
      ensures Valid()
      ensures name in existing && limiter == existing[name]
      ensures name in old(existing) ==> existing == old(existing)
      ensures name !in old(existing) ==>
        existing == old(existing)[name := limiter] && fresh(limiter) && limiter.params == params
    {
      if name !in existing {
        var created := new Limiter(params);
        existing := existing[name := created];
      }
      return existing[name];
    }
  }

  datatype Creation =
    | NotFound
    | Incorrect
    | Paced(load: Load)
    | Shared(limiter: Limiter)

  class SimpleFactory {
    var tuningSetMap: map<string, TuningSet>
    const globalQPSLoadFactory: GlobalQPSLoadFactory

    /** Every limiter has the parameters of the set now declared under its name. */
    ghost predicate Current()
      reads this, globalQPSLoadFactory
    {
      forall n :: n in globalQPSLoadFactory.existing ==>
        n in tuningSetMap && tuningSetMap[n].globalQPSLoad == Some(globalQPSLoadFactory.existing[n].params)
    }

    constructor ()
      ensures globalQPSLoadFactory.Valid() && globalQPSLoadFactory.existing == map[]
      ensures fresh(globalQPSLoadFactory) && tuningSetMap == map[]
    {
      tuningSetMap := map[];
      globalQPSLoadFactory := new GlobalQPSLoadFactory();
    }

    /** Forgets the sets of an earlier call, but not the limiters. */
    method Init(tuningSets: seq<TuningSet>)
      modifies this
      ensures tuningSetMap == Declared(tuningSets)
      ensures globalQPSLoadFactory.existing == old(globalQPSLoadFactory.existing)
      ensures globalQPSLoadFactory.existing == map[] ==> Current()
    {
      tuningSetMap := map[];
      for i := 0 to |tuningSets|
        invariant tuningSetMap == Declared(tuningSets[..i])
        invariant globalQPSLoadFactory.existing == old(globalQPSLoadFactory.existing)
      {
        assert tuningSets[..i + 1][..i] == tuningSets[..i];
        tuningSetMap := tuningSetMap[tuningSets[i].name := tuningSets[i]];
      }
      assert tuningSets[..|tuningSets|] == tuningSets;
    }

    method CreateTuningSet(name: string) returns (r: Creation)
      requires globalQPSLoadFactory.Valid()
      modifies globalQPSLoadFactory
      ensures globalQPSLoadFactory.Valid()
      ensures r.NotFound? <==> name !in tuningSetMap
      ensures r.Incorrect? <==> name in tuningSetMap && forall l :: !HasLoad(tuningSetMap[name], l)
      ensures r.Paced? ==> FirstLoad(tuningSetMap[name], r.load) && !r.load.GlobalQPS?
      ensures r.Shared? ==>
        && tuningSetMap[name].globalQPSLoad.Some?
        && FirstLoad(tuningSetMap[name], GlobalQPS(tuningSetMap[name].globalQPSLoad.value))
        && name in globalQPSLoadFactory.existing && r.limiter == globalQPSLoadFactory.existing[name]
        && (name in old(globalQPSLoadFactory.existing) ==> r.limiter == old(globalQPSLoadFactory.existing)[name])
      ensures old(Current()) ==> Current()
      ensures forall n :: n in old(globalQPSLoadFactory.existing) ==>
        n in globalQPSLoadFactory.existing && globalQPSLoadFactory.existing[n] == old(globalQPSLoadFactory.existing)[n]
      ensures !r.Shared? ==> globalQPSLoadFactory.existing == old(globalQPSLoadFactory.existing)
    {
      if name !in tuningSetMap {
        return NotFound;
      }
      var tuningSet := tuningSetMap[name];
      if tuningSet.qpsLoad.Some? {
        r := Paced(QPS(tuningSet.qpsLoad.value));
      } else if tuningSet.randomizedLoad.Some? {
        r := Paced(Randomized(tuningSet.randomizedLoad.value));
      } else if tuningSet.steppedLoad.Some? {
        r := Paced(Stepped(tuningSet.steppedLoad.value));
      } else if tuningSet.timeLimitedLoad.Some? {
        r := Paced(TimeLimited(tuningSet.timeLimitedLoad.value));
      } else if tuningSet.randomizedTimeLimitedLoad.Some? {
        r := Paced(RandomizedTimeLimited(tuningSet.randomizedTimeLimitedLoad.value));
      } else if tuningSet.parallelismLimitedLoad.Some? {
        r := Paced(ParallelismLimited(tuningSet.parallelismLimitedLoad.value));
      } else if tuningSet.globalQPSLoad.Some? {
        assert HasLoad(tuningSet, GlobalQPS(tuningSet.globalQPSLoad.value));
        var limiter := globalQPSLoadFactory.GetOrCreate(name, tuningSet.globalQPSLoad.value);
        return Shared(limiter);
      } else if tuningSet.poissonLoad.Some? {
        r := Paced(Poisson(tuningSet.poissonLoad.value));
      } else {
        return Incorrect;
      }
      assert HasLoad(tuningSet, r.load);
    }
  }
}
